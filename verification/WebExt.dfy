/** The event stream between the browser extension's connections and the one
    subscriber: connection generations, coalescing of queued tab changes, and
    delivery, as atomic steps that interleave in any order. */
module WebExt {
  import opened BrowserTypes

  const CAPACITY := 256

  datatype Payload = TabsChanged(window: WindowId) | OtherEvent(kind: string, window: WindowId)

  /** An event as queued: with the generation of its connection. */
  datatype Queued = Queued(gen: nat, ev: Payload)

  /** What a connection's reader is doing with a tab change: it has marked it
      and will push it, or the push found the queue full and it will unmark
      it. */
  datatype Emitter = Idle | Pushing(qe: Queued) | Unmarking(qe: Queued)

  /** The subscriber between two selects. */
  datatype Subscriber = Waiting | Received(qe: Queued) | Unmarked(qe: Queued) | Drained(qe: Queued)

  datatype Happening =
    | Swapped(gen: nat)
    | Dropped(gen: nat)
    | Enqueued(qe: Queued)
    | Coalesced(qe: Queued)
    | Overflowed(qe: Queued)
    | Connected(gen: nat)
    | Disconnected
    | Delivered(qe: Queued)

  /** `signals` counts pending calls that will raise `stateChanged`; `closed`
      holds the generations whose reader has returned. */
  datatype State = State(
    conn: Option<nat>, generation: nat, closed: set<nat>, signals: nat, stateChanged: bool,
    events: seq<Queued>, queuedTabs: set<Queued>, emitters: map<nat, Emitter>,
    sub: Subscriber, deliveredGen: nat, deliveredConnected: bool, history: seq<Happening>)

  datatype Step =
    | Swap
    | Drop(gen: nat)
    | Signal
    | Mark(gen: nat, window: WindowId)
    | Push(gen: nat)
    | Unmark(gen: nat)
    | EmitOther(gen: nat, kind: string, window: WindowId)
    | Begin
    | Wake
    | Receive
    | Dequeue
    | DrainSignal
    | Settle

  const INITIAL := State(None, 0, {}, 0, false, [], {}, map[], Waiting, 0, false, [])

  // --- the steps -----------------------------------------------------------

  function EmitterOf(s: State, gen: nat): Emitter {
    if gen in s.emitters then s.emitters[gen] else Idle
  }

  /** A connection whose reader is running and between two frames. */
  predicate Reading(s: State, gen: nat) {
    0 < gen <= s.generation && gen !in s.closed && EmitterOf(s, gen) == Idle
  }

  /** The subscriber's look at the connection state and its announcement. */
  function SyncState(s: State): State {
    match s.conn
    case Some(gen) =>
      if gen != s.deliveredGen
      then s.(deliveredGen := gen, deliveredConnected := true, history := s.history + [Connected(gen)])
      else s
    case None =>
      if s.deliveredConnected then s.(deliveredConnected := false, history := s.history + [Disconnected]) else s
  }

  /** One atomic step; a step that is not enabled changes nothing. */
  function Next(s: State, step: Step): State {
    match step
    case Swap =>
      var gen := s.generation + 1;
      s.(conn := Some(gen), generation := gen, signals := s.signals + 1, history := s.history + [Swapped(gen)])
    case Drop(gen) =>
      if !Reading(s, gen) then s
      else if s.conn == Some(gen)
      then s.(conn := None, closed := s.closed + {gen}, signals := s.signals + 1, history := s.history + [Dropped(gen)])
      else s.(closed := s.closed + {gen})
    case Signal =>
      if s.signals == 0 then s else s.(signals := s.signals - 1, stateChanged := true)
    case Mark(gen, window) =>
      var qe := Queued(gen, TabsChanged(window));
      if !Reading(s, gen) then s
      else if qe in s.queuedTabs then s.(history := s.history + [Coalesced(qe)])
      else s.(queuedTabs := s.queuedTabs + {qe}, emitters := s.emitters[gen := Pushing(qe)])
    case Push(gen) =>
      var e := EmitterOf(s, gen);
      if !e.Pushing? then s
      else if |s.events| < CAPACITY
      then s.(events := s.events + [e.qe], emitters := s.emitters[gen := Idle], history := s.history + [Enqueued(e.qe)])
      else s.(emitters := s.emitters[gen := Unmarking(e.qe)], history := s.history + [Overflowed(e.qe)])
    case Unmark(gen) =>
      var e := EmitterOf(s, gen);
      if !e.Unmarking? then s
      else s.(queuedTabs := s.queuedTabs - {e.qe}, emitters := s.emitters[gen := Idle])
    case EmitOther(gen, kind, window) =>
      var qe := Queued(gen, OtherEvent(kind, window));
      if !Reading(s, gen) then s
      else if |s.events| < CAPACITY then s.(events := s.events + [qe], history := s.history + [Enqueued(qe)])
      else s.(history := s.history + [Overflowed(qe)])
    case Begin =>
      if s.sub != Waiting then s else SyncState(s)
    case Wake =>
      if s.sub != Waiting || !s.stateChanged then s else SyncState(s.(stateChanged := false))
    case Receive =>
      if s.sub != Waiting || s.events == [] then s
      else s.(events := s.events[1..], sub := Received(s.events[0]))
    case Dequeue =>
      if !s.sub.Received? then s
      else s.(queuedTabs := if s.sub.qe.ev.TabsChanged? then s.queuedTabs - {s.sub.qe} else s.queuedTabs,
              sub := Unmarked(s.sub.qe))
    case DrainSignal =>
      if !s.sub.Unmarked? then s else s.(stateChanged := false, sub := Drained(s.sub.qe))
    case Settle =>
      if !s.sub.Drained? then s
      else
        var qe := s.sub.qe;
        var t := SyncState(s.(sub := Waiting));
        if t.deliveredConnected && qe.gen == t.deliveredGen then t.(history := t.history + [Delivered(qe)]) else t
  }

  function Run(steps: seq<Step>): State {
    if steps == [] then INITIAL else Next(Run(steps[..|steps| - 1]), steps[|steps| - 1])
  }

  // --- what a history shows --------------------------------------------------

  /** Generation announced as connected at the end of the history. */
  function Announced(h: seq<Happening>): Option<nat> {
    if h == [] then None
    else match h[|h| - 1]
      case Connected(gen) => Some(gen)
      case Disconnected => None
      case _ => Announced(h[..|h| - 1])
  }

  /** Highest generation announced so far. */
  function Highest(h: seq<Happening>): nat {
    if h == [] then 0
    else
      var before := Highest(h[..|h| - 1]);
      match h[|h| - 1]
      case Connected(gen) => if gen > before then gen else before
      case _ => before
  }

  /** A delivery needs its own generation announced; an announced generation is
      higher than all before. */
  ghost predicate InOrder(past: seq<Happening>, x: Happening) {
    match x
    case Delivered(qe) => Announced(past) == Some(qe.gen)
    case Connected(gen) => gen > Highest(past)
    case _ => true
  }

  ghost predicate Orderly(h: seq<Happening>) {
    h != [] ==> Orderly(h[..|h| - 1]) && InOrder(h[..|h| - 1], h[|h| - 1])
  }

  function OwedAfter(owed: set<Queued>, x: Happening): set<Queued> {
    match x
    case Coalesced(qe) => owed + {qe}
    case Delivered(qe) => owed - {qe}
    case _ => owed
  }

  /** Tab changes that were coalesced away and not delivered since. */
  function Owed(h: seq<Happening>): set<Queued> {
    if h == [] then {} else OwedAfter(Owed(h[..|h| - 1]), h[|h| - 1])
  }

  function EnqueuedBy(h: seq<Happening>, gen: nat): seq<Queued> {
    if h == [] then []
    else
      var past := EnqueuedBy(h[..|h| - 1], gen);
      match h[|h| - 1]
      case Enqueued(qe) => if qe.gen == gen then past + [qe] else past
      case _ => past
  }

  function DeliveredFor(h: seq<Happening>, gen: nat): seq<Queued> {
    if h == [] then []
    else
      var past := DeliveredFor(h[..|h| - 1], gen);
      match h[|h| - 1]
      case Delivered(qe) => if qe.gen == gen then past + [qe] else past
      case _ => past
  }

  function OfGeneration(events: seq<Queued>, gen: nat): seq<Queued> {
    if events == [] then []
    else (if events[0].gen == gen then [events[0]] else []) + OfGeneration(events[1..], gen)
  }

  /** The event the subscriber is about to deliver or discard. */
  function Held(s: State): seq<Queued> {
    if s.sub.Waiting? then [] else [s.sub.qe]
  }

  // --- the invariant ---------------------------------------------------------

  predicate IsTabChange(qe: Queued) {
    qe.ev.TabsChanged?
  }

  /** The event a reader has marked and not yet pushed or unmarked. */
  predicate Emitting(s: State, qe: Queued) {
    EmitterOf(s, qe.gen) in {Pushing(qe), Unmarking(qe)}
  }

  /** No tab change is queued twice. */
  predicate QueuedOnce(events: seq<Queued>) {
    forall i, j :: 0 <= i < j < |events| && IsTabChange(events[i]) ==> events[i] != events[j]
  }

  ghost predicate QueuedMarked(s: State) {
    forall qe :: qe in s.events && IsTabChange(qe) ==> qe in s.queuedTabs && !Emitting(s, qe) && s.sub != Received(qe)
  }

  ghost predicate ReadersMarked(s: State) {
    forall g :: g in s.emitters && s.emitters[g] != Idle ==>
      && s.emitters[g].qe.gen == g && IsTabChange(s.emitters[g].qe)
      && s.emitters[g].qe in s.queuedTabs && s.sub != Received(s.emitters[g].qe)
  }

  ghost predicate MarksPlaced(s: State) {
    && (forall qe :: qe in s.queuedTabs ==>
          IsTabChange(qe) && (qe in s.events || Emitting(s, qe) || s.sub == Received(qe)))
    && (s.sub.Received? && IsTabChange(s.sub.qe) ==> s.sub.qe in s.queuedTabs)
  }

  /** Each mark belongs to exactly one copy: queued, in its reader's hands, or
      just received. */
  ghost predicate Marks(s: State) {
    QueuedOnce(s.events) && QueuedMarked(s) && ReadersMarked(s) && MarksPlaced(s)
  }

  ghost predicate Connections(s: State) {
    && (s.conn.Some? ==> s.conn.value == s.generation && s.generation > 0 && s.generation !in s.closed)
    && (forall g :: g in s.closed ==> g <= s.generation)
    && s.deliveredGen <= s.generation
    && Announced(s.history) == (if s.deliveredConnected then Some(s.deliveredGen) else None)
    && Highest(s.history) == s.deliveredGen
    && (s.conn.Some? && s.deliveredGen == s.generation ==> s.deliveredConnected)
    && Orderly(s.history)
  }

  /** A coalesced tab change of the current connection has a copy on its way. */
  ghost predicate OwedInFlight(s: State) {
    forall qe :: qe in Owed(s.history) && s.conn == Some(qe.gen) ==> qe in s.events || qe in Held(s)
  }

  /** What the current connection enqueued is what was delivered for it,
      followed by what is on its way, in order. */
  ghost predicate InSequence(s: State) {
    s.conn.Some? ==>
      EnqueuedBy(s.history, s.conn.value) ==
      DeliveredFor(s.history, s.conn.value) + OfGeneration(Held(s) + s.events, s.conn.value)
  }

  /** Nothing mentions a generation that does not exist yet. */
  ghost predicate NoFuture(s: State) {
    && (forall qe :: qe in Held(s) + s.events ==> qe.gen <= s.generation)
    && (forall g :: g > s.generation ==> EnqueuedBy(s.history, g) == [] && DeliveredFor(s.history, g) == [])
    && (forall qe :: qe in Owed(s.history) ==> qe.gen <= s.generation)
    && (forall g :: g in s.emitters && s.emitters[g] != Idle ==> s.emitters[g].qe.gen <= s.generation)
  }

  ghost predicate NoLoss(s: State) {
    OwedInFlight(s) && InSequence(s) && NoFuture(s)
  }

  /** The subscriber took the connection as it is. */
  predicate TookConnection(s: State) {
    if s.conn.Some? then s.deliveredConnected && s.deliveredGen == s.conn.value else !s.deliveredConnected
  }

  /** A signal is on its way or waiting, or the subscriber is about to look. */
  predicate LookPending(s: State) {
    s.signals > 0 || s.stateChanged || s.sub.Drained?
  }

  ghost predicate Invariant(s: State) {
    Connections(s) && Marks(s) && NoLoss(s) && (LookPending(s) || TookConnection(s))
  }
}

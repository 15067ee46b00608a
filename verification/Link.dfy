/** Links between browser windows and window-manager windows, made only on an
    unambiguous title or on a single new window. */
module Link {
  import opened BrowserTypes

  type WmId = string

  datatype WmWindow = WmWindow(id: WmId, title: string, workspace: string)

  type Links = map<WindowId, WmId>

  // --- what resolving means ----------------------------------------------

  function Ids(windows: seq<Window>): set<WindowId> {
    set i | 0 <= i < |windows| :: windows[i].id
  }

  function WmIds(wms: seq<WmWindow>): set<WmId> {
    set i | 0 <= i < |wms| :: wms[i].id
  }

  /** The links whose two ends still exist. */
  function Kept(links: Links, windows: seq<Window>, wms: seq<WmWindow>): Links {
    map id | id in links && id in Ids(windows) && links[id] in WmIds(wms) :: links[id]
  }

  /** Entry `i` describes window `id`; a repeated id keeps its last entry. */
  ghost predicate Describes(windows: seq<Window>, id: WindowId, i: nat) {
    i < |windows| && windows[i].id == id && forall j :: i < j < |windows| ==> windows[j].id != id
  }

  /** Entries of unlinked windows among the first `n` that carry title `t`. */
  ghost function Titled(windows: seq<Window>, title: Window -> string, kept: Links, t: string, n: nat): set<nat>
    requires n <= |windows|
  {
    set i: nat | i < n && windows[i].id !in kept && title(windows[i]) == t
  }

  /** Unclaimed window-manager entries among the first `n` titled `t`. */
  ghost function Carrying(wms: seq<WmWindow>, claimed: set<WmId>, t: string, n: nat): set<nat>
    requires n <= |wms|
  {
    set k: nat | k < n && wms[k].id !in claimed && wms[k].title == t
  }

  /** Entry `i` of `id` and window-manager entry `k` of `wm` are the only two
      that carry their non-empty title. */
  ghost predicate Pairs(windows: seq<Window>, title: Window -> string, wms: seq<WmWindow>, kept: Links,
                        id: WindowId, wm: WmId, i: nat, k: nat) {
    && Describes(windows, id, i)
    && k < |wms| && wms[k].id == wm
    && title(windows[i]) != ""
    && Titled(windows, title, kept, title(windows[i]), |windows|) == {i}
    && Carrying(wms, kept.Values, title(windows[i]), |wms|) == {k}
  }

  ghost predicate Unambiguous(windows: seq<Window>, title: Window -> string, wms: seq<WmWindow>, kept: Links,
                              id: WindowId, wm: WmId) {
    exists i, k :: Pairs(windows, title, wms, kept, id, wm, i, k)
  }

  /** `after` is `before` without the dead links, plus a link for exactly the
      wanted windows that can be linked unambiguously. */
  ghost predicate Resolves(before: Links, windows: seq<Window>, title: Window -> string, wms: seq<WmWindow>,
                           want: seq<WindowId>, after: Links) {
    var kept := Kept(before, windows, wms);
    && kept.Keys <= after.Keys
    && (forall id :: id in kept ==> after[id] == kept[id])
    && (forall id :: id in after && id !in kept ==> id in want && Unambiguous(windows, title, wms, kept, id, after[id]))
    && (forall id, wm :: id in want && id !in kept && Unambiguous(windows, title, wms, kept, id, wm) ==>
                           id in after && after[id] == wm)
  }

  ghost predicate Injective(links: Links) {
    forall a, b :: a in links && b in links && a != b ==> links[a] != links[b]
  }

  predicate DistinctWmIds(wms: seq<WmWindow>) {
    forall i, j :: 0 <= i < j < |wms| ==> wms[i].id != wms[j].id
  }

  // --- the linker --------------------------------------------------------

  lemma Singleton<T>(s: set<T>, x: T)
    requires x in s
    ensures |s| == 1 <==> s == {x}
  {
    if |s| == 1 {
      assert |s - {x}| == 0;
      assert s == {x} + (s - {x});
    }
  }

  function Count(counts: map<string, nat>, t: string): nat {
    if t in counts then counts[t] else 0
  }

  lemma TitledStep(windows: seq<Window>, title: Window -> string, kept: Links, t: string, n: nat)
    requires n < |windows|
    ensures |Titled(windows, title, kept, t, n + 1)| ==
            |Titled(windows, title, kept, t, n)| + if windows[n].id !in kept && title(windows[n]) == t then 1 else 0
  {
    var before, after := Titled(windows, title, kept, t, n), Titled(windows, title, kept, t, n + 1);
    if windows[n].id !in kept && title(windows[n]) == t {
      assert after == before + {n};
    } else {
      assert after == before;
    }
  }

  class Linker {
    var links: Links

    constructor ()
      ensures links == map[]
    {
      links := map[];
    }

    method FindEntry(windows: seq<Window>, id: WindowId) returns (i: nat)
      requires id in Ids(windows)
      ensures Describes(windows, id, i)
    {
      i := |windows| - 1;
      while windows[i].id != id
        invariant i < |windows|
        invariant forall j :: i < j < |windows| ==> windows[j].id != id
        invariant exists j :: 0 <= j <= i && windows[j].id == id
        decreases i
      {
        i := i - 1;
      }
    }

    /** How often each title occurs among the unlinked windows. */
    method CountTitles(windows: seq<Window>, title: Window -> string) returns (counts: map<string, nat>)
      ensures forall t :: Count(counts, t) == |Titled(windows, title, links, t, |windows|)|
    {
      counts := map[];
      for n := 0 to |windows|
        invariant forall t :: Count(counts, t) == |Titled(windows, title, links, t, n)|
      {
        ghost var prior := counts;
        if windows[n].id !in links {
          counts := counts[title(windows[n]) := Count(counts, title(windows[n])) + 1];
        }
        forall t ensures Count(counts, t) == |Titled(windows, title, links, t, n + 1)| {
          TitledStep(windows, title, links, t, n);
        }
      }
    }

    /** The only unclaimed window-manager window titled `t`, if there is one. */
    method UniqueCandidate(wms: seq<WmWindow>, claimed: set<WmId>, t: string)
      returns (found: bool, ghost at: nat, wm: WmId)
      ensures found ==> at < |wms| && Carrying(wms, claimed, t, |wms|) == {at} && wms[at].id == wm
      ensures !found ==> |Carrying(wms, claimed, t, |wms|)| != 1
    {
      var matches := 0;
      at, wm := 0, "";
      for k := 0 to |wms|
        invariant matches == |Carrying(wms, claimed, t, k)|
        invariant matches > 0 ==> at < k && at in Carrying(wms, claimed, t, k) && wms[at].id == wm
      {
        assert Carrying(wms, claimed, t, k + 1) ==
               Carrying(wms, claimed, t, k) + if wms[k].id !in claimed && wms[k].title == t then {k} else {};
        if wms[k].id !in claimed && wms[k].title == t {
          matches, at, wm := matches + 1, k, wms[k].id;
        }
      }
      found := matches == 1;
      if found {
        Singleton(Carrying(wms, claimed, t, |wms|), at);
      }
    }

    method Resolve(windows: seq<Window>, title: Window -> string, wms: seq<WmWindow>, want: seq<WindowId>)
      returns (result: map<WindowId, WmId>)
      modifies this
      ensures Resolves(old(links), windows, title, wms, want, links)
      ensures result == map id | id in want && id in links :: links[id]
    {
      links := Kept(links, windows, wms);
      var claimed := links.Values;
      var counts := CountTitles(windows, title);
      ghost var kept := links;
      for n := 0 to |want|
        invariant kept.Keys <= links.Keys
        invariant forall id :: id in kept ==> links[id] == kept[id]
        invariant forall id :: id in links && id !in kept ==>
                                 id in want[..n] && Unambiguous(windows, title, wms, kept, id, links[id])
        invariant forall id, wm :: id in want[..n] && id !in kept && Unambiguous(windows, title, wms, kept, id, wm) ==>
                                     id in links && links[id] == wm
      {
        var id := want[n];
        assert want[..n + 1] == want[..n] + [id];
        if id in links || id !in Ids(windows) {
          assert id !in Ids(windows) ==> forall wm :: !Unambiguous(windows, title, wms, kept, id, wm);
          continue;
        }
        var wm, ok := FindPair(windows, title, wms, counts, claimed, kept, id);
        if ok {
          links := links[id := wm];
        }
      }
      assert want[..|want|] == want;
      result := map id | id in want && id in links :: links[id];
    }

    method FindPair(windows: seq<Window>, title: Window -> string, wms: seq<WmWindow>, counts: map<string, nat>,
                    claimed: set<WmId>, ghost kept: Links, id: WindowId)
      returns (wm: WmId, ok: bool)
      requires claimed == kept.Values && id !in kept && id in Ids(windows)
      requires forall t :: Count(counts, t) == |Titled(windows, title, kept, t, |windows|)|
      ensures ok ==> forall w :: Unambiguous(windows, title, wms, kept, id, w) <==> w == wm
      ensures !ok ==> forall w :: !Unambiguous(windows, title, wms, kept, id, w)
    {
      wm, ok := "", false;
      var i := FindEntry(windows, id);
      var t := title(windows[i]);
      assert forall w, j, k :: Pairs(windows, title, wms, kept, id, w, j, k) ==> j == i;
      assert i in Titled(windows, title, kept, t, |windows|);
      Singleton(Titled(windows, title, kept, t, |windows|), i);
      if t == "" || Count(counts, t) != 1 {
        return;
      }
      ghost var at;
      ok, at, wm := UniqueCandidate(wms, claimed, t);
      if ok {
        assert Pairs(windows, title, wms, kept, id, wm, i, at);
        forall w, j, k | Pairs(windows, title, wms, kept, id, w, j, k) ensures w == wm {
          assert k in {at};
        }
      }
    }

    /** Links a created window when exactly one unknown window-manager window
        appeared. */
    method LinkCreated(windowId: WindowId, before: seq<WmWindow>, after: seq<WmWindow>) returns (linked: bool)
      modifies this
      ensures linked <==> |New(old(links), before, after)| == 1
      ensures linked ==>
                exists k :: New(old(links), before, after) == {k} && links == old(links)[windowId := after[k].id]
      ensures !linked ==> links == old(links)
    {
      var existing := WmIds(before) + links.Values;
      var created := 0;
      var at := 0;
      for k := 0 to |after|
        invariant created == |New(links, before, after[..k])|
        invariant created > 0 ==> at < k && at in New(links, before, after[..k])
        invariant links == old(links)
      {
        assert New(links, before, after[..k + 1]) ==
               New(links, before, after[..k]) + if after[k].id !in existing then {k} else {};
        if after[k].id !in existing {
          created, at := created + 1, k;
        }
      }
      assert after[..|after|] == after;
      if created != 1 {
        return false;
      }
      Singleton(New(links, before, after), at);
      links := links[windowId := after[at].id];
      linked := true;
    }
  }

  /** Entries of `after` that are neither in `before` nor linked. */
  ghost function New(links: Links, before: seq<WmWindow>, after: seq<WmWindow>): (s: set<nat>)
    ensures forall k :: k in s ==> k < |after|
  {
    set k: nat | k < |after| && after[k].id !in WmIds(before) + links.Values
  }
}

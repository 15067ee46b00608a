/** Attribution of processes to the terminal session whose shell is their
    nearest ancestor, by a memoised and depth-bounded search, and the resource
    sampler that reports each session's processes and their totals. */
module Attribution {
  import opened BrowserTypes

  /** `percent`: the processor share as the system reports it; `cpuTime`: the
      processor time used so far. */
  datatype Process = Process(pid: int, ppid: int, rss: int, command: string, percent: real, cpuTime: int)

  // --- the naive walk ----------------------------------------------------

  /** The walk goes on past `pid`: it is no shell and has a parent other than
      the init process. */
  predicate Climbs(parent: map<int, int>, shells: map<int, string>, pid: int) {
    pid !in shells && pid in parent && parent[pid] > 1
  }

  /** The process `k` steps up from `pid`, if the walk gets that far. */
  function Ancestor(parent: map<int, int>, shells: map<int, string>, pid: int, k: nat): Option<int>
    decreases k
  {
    if k == 0 then Some(pid)
    else if Climbs(parent, shells, pid) then Ancestor(parent, shells, parent[pid], k - 1)
    else None
  }

  ghost predicate ShellAt(parent: map<int, int>, shells: map<int, string>, pid: int, k: nat) {
    Ancestor(parent, shells, pid, k).Some? && Ancestor(parent, shells, pid, k).value in shells
  }

  /** Name of the nearest ancestor shell, empty when the walk meets none. It is
      defined for every parent graph, cyclic ones included. */
  ghost function NearestShell(parent: map<int, int>, shells: map<int, string>, pid: int): string {
    if exists k: nat :: ShellAt(parent, shells, pid, k)
    then var k: nat :| ShellAt(parent, shells, pid, k); shells[Ancestor(parent, shells, pid, k).value]
    else ""
  }

  lemma {:induction false} ShellAtUnique(parent: map<int, int>, shells: map<int, string>, pid: int, k: nat, l: nat)
    requires ShellAt(parent, shells, pid, k) && ShellAt(parent, shells, pid, l)
    ensures k == l
    decreases k
  {
    if k > 0 && l > 0 {
      ShellAtUnique(parent, shells, parent[pid], k - 1, l - 1);
    }
  }

  /** A process that is no shell has its parent's owner. */
  lemma NearestShellStep(parent: map<int, int>, shells: map<int, string>, pid: int)
    ensures pid in shells ==> NearestShell(parent, shells, pid) == shells[pid]
    ensures Climbs(parent, shells, pid) ==>
              NearestShell(parent, shells, pid) == NearestShell(parent, shells, parent[pid])
    ensures pid !in shells && !Climbs(parent, shells, pid) ==> NearestShell(parent, shells, pid) == ""
  {
    if pid in shells {
      assert ShellAt(parent, shells, pid, 0);
      forall k: nat | ShellAt(parent, shells, pid, k) ensures k == 0 {
        ShellAtUnique(parent, shells, pid, k, 0);
      }
    } else if Climbs(parent, shells, pid) {
      var up := parent[pid];
      forall k: nat ensures ShellAt(parent, shells, up, k) <==> ShellAt(parent, shells, pid, k + 1) {}
      assert !ShellAt(parent, shells, pid, 0);
      if k: nat :| ShellAt(parent, shells, pid, k) {
        assert ShellAt(parent, shells, up, k - 1);
        forall l: nat | ShellAt(parent, shells, pid, l) ensures l == k {
          ShellAtUnique(parent, shells, pid, k, l);
        }
        forall l: nat | ShellAt(parent, shells, up, l) ensures l == k - 1 {
          ShellAtUnique(parent, shells, up, k - 1, l);
        }
      }
    } else {
      forall k: nat ensures !ShellAt(parent, shells, pid, k) {}
    }
  }

  // --- the depth bound ---------------------------------------------------

  /** A climbed path: each process climbs, to the next one on the path. */
  ghost predicate Path(parent: map<int, int>, shells: map<int, string>, path: seq<int>) {
    (forall i :: 0 <= i < |path| ==> Climbs(parent, shells, path[i])) &&
    (forall i :: 0 <= i < |path| - 1 ==> path[i + 1] == parent[path[i]])
  }

  /** More climbed processes than parents: one of them repeats. */
  lemma {:induction false} Pigeonhole(path: seq<int>, keys: set<int>) returns (i: nat, j: nat)
    requires forall m :: 0 <= m < |path| ==> path[m] in keys
    requires |path| > |keys|
    ensures i < j < |path| && path[i] == path[j]
  {
    var n, last := |path| - 1, path[|path| - 1];
    assert last in path;
    if last in path[..n] {
      i :| 0 <= i < n && path[i] == last;
      j := n;
    } else {
      assert |keys - {last}| == |keys| - 1;
      i, j := Pigeonhole(path[..n], keys - {last});
    }
  }

  /** From a process on a cycle the walk never leaves the cycle. */
  lemma {:induction false} CycleHasNoShell(parent: map<int, int>, shells: map<int, string>, cycle: seq<int>, at: nat,
                                           k: nat)
    requires Path(parent, shells, cycle) && at < |cycle| && parent[cycle[|cycle| - 1]] == cycle[0]
    ensures Ancestor(parent, shells, cycle[at], k).Some? && Ancestor(parent, shells, cycle[at], k).value in cycle
    decreases k
  {
    if k > 0 {
      CycleHasNoShell(parent, shells, cycle, if at == |cycle| - 1 then 0 else at + 1, k - 1);
    }
  }

  /** A climbed path longer than the number of parents leads nowhere. */
  lemma LongPathUnowned(parent: map<int, int>, shells: map<int, string>, path: seq<int>)
    requires Path(parent, shells, path) && |path| > |parent.Keys|
    ensures NearestShell(parent, shells, parent[path[|path| - 1]]) == ""
  {
    var i, j := Pigeonhole(path, parent.Keys);
    var cycle := path[i..j];
    assert forall m :: 0 <= m < |cycle| ==> cycle[m] == path[i + m];
    assert parent[cycle[|cycle| - 1]] == path[j];
    forall k: nat ensures !ShellAt(parent, shells, cycle[0], k) {
      CycleHasNoShell(parent, shells, cycle, 0, k);
    }
    assert NearestShell(parent, shells, path[i]) == "";
    PathSharesOwner(parent, shells, path, i, |path| - 1);
    NearestShellStep(parent, shells, path[|path| - 1]);
  }

  lemma {:induction false} PathSharesOwner(parent: map<int, int>, shells: map<int, string>, path: seq<int>, i: nat,
                                           j: nat)
    requires Path(parent, shells, path) && i <= j < |path|
    ensures NearestShell(parent, shells, path[i]) == NearestShell(parent, shells, path[j])
    decreases j
  {
    if i < j {
      PathSharesOwner(parent, shells, path, i, j - 1);
      NearestShellStep(parent, shells, path[j - 1]);
    }
  }

  // --- the memoised search -----------------------------------------------

  class Attributor {
    const shells: map<int, string>
    const parent: map<int, int>
    const count: nat
    var owner: map<int, string>

    /** Every memo entry agrees with the naive walk. */
    ghost predicate Valid()
      reads this
    {
      |parent.Keys| <= count && forall pid :: pid in owner ==> owner[pid] == NearestShell(parent, shells, pid)
    }

    constructor (procs: seq<Process>, shells: map<int, string>)
      ensures Valid() && fresh(this)
      ensures this.shells == shells && parent == Parents(procs) && count == |procs|
    {
      this.shells := shells;
      this.parent := Parents(procs);
      this.count := |procs|;
      this.owner := map[];
      new;
      ParentsBounded(procs);
    }

    /** The owner of `pid`, reached after climbing `path`. */
    method Resolve(pid: int, depth: nat, ghost path: seq<int>) returns (name: string)
      requires Valid() && depth == |path| && depth <= count + 1
      requires Path(parent, shells, path) && (path != [] ==> parent[path[|path| - 1]] == pid)
      modifies this
      ensures Valid() && name == NearestShell(parent, shells, pid)
      decreases count + 1 - depth
    {
      NearestShellStep(parent, shells, pid);
      if pid in shells {
        return shells[pid];
      }
      if pid in owner {
        return owner[pid];
      }
      if pid !in parent || parent[pid] <= 1 {
        return "";
      }
      if depth > count {
        LongPathUnowned(parent, shells, path);
        return "";
      }
      name := Resolve(parent[pid], depth + 1, path + [pid]);
      owner := owner[pid := name];
    }
  }

  function Parents(procs: seq<Process>): map<int, int> {
    if procs == [] then map[]
    else Parents(procs[..|procs| - 1])[procs[|procs| - 1].pid := procs[|procs| - 1].ppid]
  }

  lemma {:induction false} ParentsBounded(procs: seq<Process>)
    ensures |Parents(procs).Keys| <= |procs|
  {
    if procs != [] {
      var n := |procs| - 1;
      ParentsBounded(procs[..n]);
      assert Parents(procs).Keys == Parents(procs[..n]).Keys + {procs[n].pid};
    }
  }

  /** The owner of each listed process; a process without an owner is absent. */
  method Attribute(procs: seq<Process>, shells: map<int, string>) returns (out: map<int, string>)
    ensures forall pid ::
              pid in out <==>
                (exists p :: p in procs && p.pid == pid) && NearestShell(Parents(procs), shells, pid) != ""
    ensures forall pid :: pid in out ==> out[pid] == NearestShell(Parents(procs), shells, pid)
  {
    var search := new Attributor(procs, shells);
    out := map[];
    for n := 0 to |procs|
      invariant search.Valid() && fresh(search)
      invariant search.shells == shells && search.parent == Parents(procs)
      invariant forall pid ::
                  pid in out <==>
                    (exists p :: p in procs[..n] && p.pid == pid) && NearestShell(Parents(procs), shells, pid) != ""
      invariant forall pid :: pid in out ==> out[pid] == NearestShell(Parents(procs), shells, pid)
    {
      var name := search.Resolve(procs[n].pid, 0, []);
      assert forall p :: p in procs[..n + 1] <==> p in procs[..n] || p == procs[n];
      if name != "" {
        out := out[procs[n].pid := name];
      }
    }
    assert procs[..|procs|] == procs;
  }

  // --- processor shares --------------------------------------------------

  datatype Reading = Reading(cpuTime: int, at: int)

  type Readings = map<int, Reading>

  /** The longest time between two readings that a share is measured over. */
  const MAX_WINDOW := 60_000_000_000

  function ReadingsOf(procs: seq<Process>, now: int): Readings {
    if procs == [] then map[]
    else
      var p := procs[|procs| - 1];
      ReadingsOf(procs[..|procs| - 1], now)[p.pid := Reading(p.cpuTime, now)]
  }

  /** Whether a share can be measured from the earlier reading. */
  predicate Measurable(prev: Readings, p: Process, now: int) {
    p.pid in prev && p.cpuTime >= prev[p.pid].cpuTime && prev[p.pid].at < now <= prev[p.pid].at + MAX_WINDOW
  }

  function Share(prev: Readings, p: Process, now: int): real {
    if Measurable(prev, p, now) then 100.0 * (p.cpuTime - prev[p.pid].cpuTime) as real / (now - prev[p.pid].at) as real
    else p.percent
  }

  function SharesOf(prev: Readings, procs: seq<Process>, now: int): map<int, real> {
    if procs == [] then map[]
    else
      var p := procs[|procs| - 1];
      SharesOf(prev, procs[..|procs| - 1], now)[p.pid := Share(prev, p, now)]
  }

  ghost predicate DistinctPids(procs: seq<Process>) {
    forall i, j :: 0 <= i < j < |procs| ==> procs[i].pid != procs[j].pid
  }

  lemma {:induction false} ReadingFound(procs: seq<Process>, now: int, p: Process)
    requires DistinctPids(procs) && p in procs
    ensures p.pid in ReadingsOf(procs, now) && ReadingsOf(procs, now)[p.pid] == Reading(p.cpuTime, now)
  {
    var n := |procs| - 1;
    if procs[n] != p {
      assert p in procs[..n];
      ReadingFound(procs[..n], now, p);
    }
  }

  lemma {:induction false} ShareFound(prev: Readings, procs: seq<Process>, now: int, p: Process)
    requires DistinctPids(procs) && p in procs
    ensures p.pid in SharesOf(prev, procs, now) && SharesOf(prev, procs, now)[p.pid] == Share(prev, p, now)
  {
    var n := |procs| - 1;
    if procs[n] != p {
      assert p in procs[..n];
      ShareFound(prev, procs[..n], now, p);
    }
  }

  /** Of a process in two samples in a row, at most a minute apart, the second
      reports the processor time it used in between as a share of that time;
      a process id that was given to a new process in between, one that used
      less, is reported as the system says. */
  lemma ShareMeasuresInterval(before: seq<Process>, t: int, after: seq<Process>, t': int, p: Process, q: Process)
    requires DistinctPids(before) && DistinctPids(after) && p in before && q in after && p.pid == q.pid
    ensures var shares := SharesOf(ReadingsOf(before, t), after, t');
            && q.pid in shares
            && shares[q.pid] ==
               if p.cpuTime <= q.cpuTime && t < t' <= t + MAX_WINDOW
               then 100.0 * (q.cpuTime - p.cpuTime) as real / (t' - t) as real
               else q.percent
  {
    ReadingFound(before, t, p);
    ShareFound(ReadingsOf(before, t), after, t', q);
  }

  // --- totals ------------------------------------------------------------

  datatype Load = Load(cpu: real, rss: int, procs: nat)

  datatype ProcessUsage = ProcessUsage(pid: int, command: string, cpu: real, rss: int)

  datatype Usage = Usage(session: string, load: Load, processes: seq<ProcessUsage>)

  const NO_LOAD := Load(0.0, 0, 0)

  function Plus(a: Load, b: Load): Load {
    Load(a.cpu + b.cpu, a.rss + b.rss, a.procs + b.procs)
  }

  function LoadOf(p: Process, cpu: map<int, real>): Load {
    Load(if p.pid in cpu then cpu[p.pid] else 0.0, p.rss, 1)
  }

  function WithoutSlashes(path: string): string {
    if path != "" && path[|path| - 1] == '/' then WithoutSlashes(path[..|path| - 1]) else path
  }

  function AfterSlash(path: string): (r: string)
    ensures '/' !in r
    ensures path == "" || path[|path| - 1] != '/' ==>
              |r| <= |path| && path[|path| - |r|..] == r && (|r| < |path| ==> path[|path| - |r| - 1] == '/')
  {
    if path == "" || path[|path| - 1] == '/' then "" else AfterSlash(path[..|path| - 1]) + [path[|path| - 1]]
  }

  /** The last part of a command's path. */
  function CommandName(command: string): string {
    if command == "" then "?"
    else
      var name := AfterSlash(WithoutSlashes(command));
      if name == "" then "/" else name
  }

  function UsageOf(p: Process, cpu: map<int, real>): ProcessUsage {
    ProcessUsage(p.pid, CommandName(p.command), LoadOf(p, cpu).cpu, p.rss)
  }

  predicate OwnedBy(p: Process, owners: map<int, string>, name: string) {
    p.pid in owners && owners[p.pid] == name
  }

  function SessionLoad(procs: seq<Process>, owners: map<int, string>, cpu: map<int, real>, name: string): Load {
    if procs == [] then NO_LOAD
    else
      var p, rest := procs[|procs| - 1], SessionLoad(procs[..|procs| - 1], owners, cpu, name);
      if OwnedBy(p, owners, name) then Plus(rest, LoadOf(p, cpu)) else rest
  }

  function SessionProcesses(procs: seq<Process>, owners: map<int, string>, cpu: map<int, real>,
                            name: string): seq<ProcessUsage> {
    if procs == [] then []
    else
      var p, rest := procs[|procs| - 1], SessionProcesses(procs[..|procs| - 1], owners, cpu, name);
      if OwnedBy(p, owners, name) then rest + [UsageOf(p, cpu)] else rest
  }

  /** The load of all processes that have an owner. */
  function AttributedLoad(procs: seq<Process>, owners: map<int, string>, cpu: map<int, real>): Load {
    if procs == [] then NO_LOAD
    else
      var p, rest := procs[|procs| - 1], AttributedLoad(procs[..|procs| - 1], owners, cpu);
      if p.pid in owners then Plus(rest, LoadOf(p, cpu)) else rest
  }

  function TotalLoad(usages: seq<Usage>): Load {
    if usages == [] then NO_LOAD else Plus(usages[0].load, TotalLoad(usages[1..]))
  }

  predicate SortedBySession(usages: seq<Usage>) {
    forall i, j :: 0 <= i < j < |usages| ==> StringLess(usages[i].session, usages[j].session)
  }

  /** Every session with an attributed process has one usage record, holding
      exactly its processes, in the order they were listed, and their load. */
  ghost predicate Reports(usages: seq<Usage>, procs: seq<Process>, owners: map<int, string>, cpu: map<int, real>) {
    && SortedBySession(usages)
    && (forall u :: u in usages ==>
          && u.load == SessionLoad(procs, owners, cpu, u.session) && u.load.procs > 0
          && u.processes == SessionProcesses(procs, owners, cpu, u.session))
    && (forall p :: p in procs && p.pid in owners ==> exists u :: u in usages && u.session == owners[p.pid])
  }

  function InsertUsage(u: Usage, usages: seq<Usage>): (r: seq<Usage>)
    requires SortedBySession(usages) && forall v :: v in usages ==> v.session != u.session
    ensures SortedBySession(r)
    ensures forall v :: v in r <==> v == u || v in usages
  {
    if usages == [] then [u]
    else
      StringLessTotal(u.session, usages[0].session);
      assert usages[0] in usages;
      if StringLess(u.session, usages[0].session) then
        assert forall j :: 0 <= j < |usages| ==> StringLess(u.session, usages[j].session) by {
          forall j | 0 <= j < |usages| ensures StringLess(u.session, usages[j].session) {
            if j > 0 { StringLessTransitive(u.session, usages[0].session, usages[j].session); }
          }
        }
        [u] + usages
      else
        var rest := InsertUsage(u, usages[1..]);
        assert forall v :: v in rest ==> StringLess(usages[0].session, v.session) by {
          forall v | v in rest ensures StringLess(usages[0].session, v.session) {
            if v != u {
              var j :| 0 <= j < |usages| - 1 && usages[1..][j] == v;
              assert usages[j + 1] == v;
            }
          }
        }
        assert forall v :: v in usages <==> v == usages[0] || v in usages[1..];
        [usages[0]] + rest
  }

  /** The record of a session after the whole process list. */
  function RecordOf(procs: seq<Process>, owners: map<int, string>, cpu: map<int, real>, name: string): Usage {
    Usage(name, SessionLoad(procs, owners, cpu, name), SessionProcesses(procs, owners, cpu, name))
  }

  /** Usage records by session after the whole process list. */
  ghost predicate Tallies(byName: map<string, Usage>, procs: seq<Process>, owners: map<int, string>, cpu: map<int,
                          real>) {
    && (forall name :: name in byName ==>
          byName[name] == RecordOf(procs, owners, cpu, name) && byName[name].load.procs > 0)
    && (forall name :: name !in byName ==> RecordOf(procs, owners, cpu, name) == Usage(name, NO_LOAD, []))
    && (forall p :: p in procs && p.pid in owners ==> owners[p.pid] in byName)
  }

  lemma OneMoreRecord(procs: seq<Process>, owners: map<int, string>, cpu: map<int, real>, n: nat, name: string)
    requires n < |procs|
    ensures var before, after := RecordOf(procs[..n], owners, cpu, name), RecordOf(procs[..n + 1], owners, cpu, name);
            after == if OwnedBy(procs[n], owners, name)
                     then Usage(name, Plus(before.load, LoadOf(procs[n], cpu)),
                                before.processes + [UsageOf(procs[n], cpu)])
                     else before
  {
    assert procs[..n + 1][..n] == procs[..n];
  }

  method Tally(procs: seq<Process>, owners: map<int, string>, cpu: map<int, real>) returns (byName: map<string, Usage>)
    ensures Tallies(byName, procs, owners, cpu)
  {
    byName := map[];
    for n := 0 to |procs|
      invariant Tallies(byName, procs[..n], owners, cpu)
    {
      var p := procs[n];
      forall name {
        OneMoreRecord(procs, owners, cpu, n, name);
      }
      assert forall q :: q in procs[..n + 1] <==> q in procs[..n] || q == p;
      if p.pid !in owners {
        continue;
      }
      var name := owners[p.pid];
      var u := if name in byName then byName[name] else Usage(name, NO_LOAD, []);
      byName := byName[name := Usage(name, Plus(u.load, LoadOf(p, cpu)), u.processes + [UsageOf(p, cpu)])];
    }
    assert procs[..|procs|] == procs;
  }

  method SortUsages(byName: map<string, Usage>) returns (usages: seq<Usage>)
    requires forall name :: name in byName ==> byName[name].session == name
    ensures SortedBySession(usages)
    ensures forall u :: u in usages <==> u.session in byName && u == byName[u.session]
  {
    usages := [];
    var rest := byName.Keys;
    while rest != {}
      invariant rest <= byName.Keys && SortedBySession(usages)
      invariant forall u :: u in usages <==> u.session in byName.Keys - rest && u == byName[u.session]
      decreases |rest|
    {
      var name :| name in rest;
      usages := InsertUsage(byName[name], usages);
      rest := rest - {name};
    }
  }

  method Summarize(procs: seq<Process>, shells: map<int, string>, cpu: map<int, real>)
    returns (usages: seq<Usage>, owners: map<int, string>)
    ensures forall pid :: pid in owners ==> owners[pid] == NearestShell(Parents(procs), shells, pid)
    ensures forall pid ::
              pid in owners <==>
                (exists p :: p in procs && p.pid == pid) && NearestShell(Parents(procs), shells, pid) != ""
    ensures Reports(usages, procs, owners, cpu)
  {
    owners := Attribute(procs, shells);
    var byName := Tally(procs, owners, cpu);
    usages := SortUsages(byName);
    forall p | p in procs && p.pid in owners ensures exists u :: u in usages && u.session == owners[p.pid] {
      assert byName[owners[p.pid]] in usages;
    }
  }

  /** The sampler remembers the last readings of the listed processes. */
  class Sampler {
    var prev: Readings

    constructor ()
      ensures prev == map[]
    {
      prev := map[];
    }

    /** A sample: what the system lists and which shells the sessions run, if
        both answer. */
    method Sample(listed: Option<seq<Process>>, shells: Option<map<int, string>>, now: int)
      returns (usages: Option<seq<Usage>>, owners: map<int, string>)
      modifies this
      ensures usages.Some? <==> listed.Some? && shells.Some?
      ensures usages.None? ==> prev == old(prev)
      ensures usages.Some? ==> prev == ReadingsOf(listed.value, now)
      ensures usages.Some? ==>
                forall pid :: pid in owners ==> owners[pid] == NearestShell(Parents(listed.value), shells.value, pid)
      ensures usages.Some? ==> forall pid :: pid in owners <==>
                && (exists p :: p in listed.value && p.pid == pid)
                && NearestShell(Parents(listed.value), shells.value, pid) != ""
      ensures usages.Some? ==> Reports(usages.value, listed.value, owners, SharesOf(old(prev), listed.value, now))
    {
      owners := map[];
      if listed.None? || shells.None? {
        return None, map[];
      }
      var procs := listed.value;
      var cpu, next := map[], map[];
      for n := 0 to |procs|
        invariant prev == old(prev) && cpu == SharesOf(prev, procs[..n], now) && next == ReadingsOf(procs[..n], now)
      {
        assert procs[..n + 1][..n] == procs[..n];
        var p := procs[n];
        cpu := cpu[p.pid := Share(prev, p, now)];
        next := next[p.pid := Reading(p.cpuTime, now)];
      }
      assert procs[..|procs|] == procs;
      prev := next;
      var report;
      report, owners := Summarize(procs, shells.value, cpu);
      usages := Some(report);
    }
  }

  // --- conservation ------------------------------------------------------

  /** The sum of the loads that `procs` give the sessions of `usages`. */
  function SumLoad(usages: seq<Usage>, procs: seq<Process>, owners: map<int, string>, cpu: map<int, real>): Load {
    if usages == [] then NO_LOAD
    else Plus(SessionLoad(procs, owners, cpu, usages[0].session), SumLoad(usages[1..], procs, owners, cpu))
  }

  lemma {:induction false} SumOverSessions(usages: seq<Usage>, procs: seq<Process>, owners: map<int, string>,
                                           cpu: map<int, real>, n: nat)
    requires SortedBySession(usages) && n <= |procs|
    requires forall p :: p in procs && p.pid in owners ==> exists u :: u in usages && u.session == owners[p.pid]
    ensures SumLoad(usages, procs[..n], owners, cpu) == AttributedLoad(procs[..n], owners, cpu)
  {
    if n == 0 {
      EmptySums(usages, owners, cpu);
    } else {
      SumOverSessions(usages, procs, owners, cpu, n - 1);
      assert procs[..n][..n - 1] == procs[..n - 1];
      var p := procs[n - 1];
      assert p in procs;
      if p.pid in owners {
        var u :| u in usages && u.session == owners[p.pid];
        var k :| 0 <= k < |usages| && usages[k] == u;
        OneMore(usages, procs[..n], owners, cpu, k);
      } else {
        NoneMore(usages, procs[..n], owners, cpu);
      }
    }
  }

  lemma NothingAdded(a: Load)
    ensures Plus(a, NO_LOAD) == a
  {
  }

  lemma {:induction false} EmptySums(usages: seq<Usage>, owners: map<int, string>, cpu: map<int, real>)
    ensures SumLoad(usages, [], owners, cpu) == NO_LOAD
  {
    if usages != [] {
      EmptySums(usages[1..], owners, cpu);
      NothingAdded(NO_LOAD);
    }
  }

  /** A process nobody in `usages` owns adds nothing to their sum. */
  lemma {:induction false} NoneMore(usages: seq<Usage>, procs: seq<Process>, owners: map<int, string>, cpu: map<int,
                                    real>)
    requires procs != []
    requires procs[|procs| - 1].pid in owners ==>
              forall u :: u in usages ==> u.session != owners[procs[|procs| - 1].pid]
    ensures SumLoad(usages, procs, owners, cpu) == SumLoad(usages, procs[..|procs| - 1], owners, cpu)
  {
    if usages != [] {
      assert usages[0] in usages;
      NoneMore(usages[1..], procs, owners, cpu);
    }
  }

  /** A process owned by exactly one of the sessions adds itself once. */
  lemma {:induction false} OneMore(usages: seq<Usage>, procs: seq<Process>, owners: map<int, string>, cpu: map<int,
                                   real>, k: nat)
    requires procs != [] && procs[|procs| - 1].pid in owners && SortedBySession(usages)
    requires k < |usages| && usages[k].session == owners[procs[|procs| - 1].pid]
    ensures SumLoad(usages, procs, owners, cpu) ==
            Plus(SumLoad(usages, procs[..|procs| - 1], owners, cpu), LoadOf(procs[|procs| - 1], cpu))
  {
    if k == 0 {
      forall u | u in usages[1..] ensures u.session != usages[0].session {
        StringLessIrreflexive(u.session);
      }
      NoneMore(usages[1..], procs, owners, cpu);
    } else {
      StringLessIrreflexive(usages[k].session);
      OneMore(usages[1..], procs, owners, cpu, k - 1);
    }
  }

  lemma {:induction false} TotalsAreSums(usages: seq<Usage>, procs: seq<Process>, owners: map<int, string>,
                                         cpu: map<int, real>)
    requires forall u :: u in usages ==> u.load == SessionLoad(procs, owners, cpu, u.session)
    ensures TotalLoad(usages) == SumLoad(usages, procs, owners, cpu)
  {
    if usages != [] {
      assert usages[0] in usages;
      TotalsAreSums(usages[1..], procs, owners, cpu);
    }
  }

  /** Nothing is lost or counted twice: the sessions' loads add up to the load
      of all attributed processes. */
  lemma TotalsConserved(usages: seq<Usage>, procs: seq<Process>, owners: map<int, string>, cpu: map<int, real>)
    requires Reports(usages, procs, owners, cpu)
    ensures TotalLoad(usages) == AttributedLoad(procs, owners, cpu)
  {
    TotalsAreSums(usages, procs, owners, cpu);
    SumOverSessions(usages, procs, owners, cpu, |procs|);
    assert procs[..|procs|] == procs;
  }
}

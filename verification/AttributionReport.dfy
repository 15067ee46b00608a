/** What the records of a resource sample say, of the processes the system
    listed. */
module AttributionReport {
  import opened BrowserTypes
  import opened Attribution

  /** Positions of the processes of the session, in the order they were listed. */
  ghost predicate OwnedAt(procs: seq<Process>, owners: map<int, string>, name: string, order: seq<nat>) {
    && Increasing(order) && (forall i :: 0 <= i < |order| ==> order[i] < |procs|)
    && forall k :: 0 <= k < |procs| ==> (k in order <==> procs[k].pid in owners && owners[procs[k].pid] == name)
  }

  /** A record shows the process: its id, memory, name and processor share, none
      if there is no share of it. */
  ghost predicate Shows(u: ProcessUsage, p: Process, cpu: map<int, real>) {
    && u.pid == p.pid && u.rss == p.rss && NamedBy(u.command, p.command)
    && u.cpu == if p.pid in cpu then cpu[p.pid] else 0.0
  }

  /** `name` is what follows the last slash of the command, slashes at its end
      aside; a slash when there is nothing else, and "?" for no command. */
  ghost predicate NamedBy(name: string, command: string) {
    if command == "" then name == "?"
    else if AllSlashes(command) then name == "/"
    else exists start, end :: NameAt(name, command, start, end)
  }

  predicate AllSlashes(text: string) {
    forall i :: 0 <= i < |text| ==> text[i] == '/'
  }

  predicate NameAt(name: string, command: string, start: nat, end: nat) {
    && start < end <= |command| && command[start..end] == name
    && '/' !in name && AllSlashes(command[end..]) && (start > 0 ==> command[start - 1] == '/')
  }

  function SumCpu(processes: seq<ProcessUsage>): real {
    if processes == [] then 0.0 else SumCpu(processes[..|processes| - 1]) + processes[|processes| - 1].cpu
  }

  function SumRss(processes: seq<ProcessUsage>): int {
    if processes == [] then 0 else SumRss(processes[..|processes| - 1]) + processes[|processes| - 1].rss
  }

  lemma {:induction false} SlashesGone(path: string) returns (end: nat)
    ensures end <= |path| && WithoutSlashes(path) == path[..end] && AllSlashes(path[end..])
    ensures end > 0 ==> path[end - 1] != '/'
  {
    var n := |path| - 1;
    if path != "" && path[n] == '/' {
      end := SlashesGone(path[..n]);
      assert path[..n][..end] == path[..end];
      assert path[end..] == path[..n][end..] + [path[n]];
    } else {
      end := |path|;
      assert path[..end] == path;
    }
  }

  lemma CommandNameIs(command: string)
    ensures NamedBy(CommandName(command), command)
  {
    var end := SlashesGone(command);
    var stem := WithoutSlashes(command);
    var name := AfterSlash(stem);
    if command != "" {
      if AllSlashes(command) {
        assert end == 0;
        assert stem == "";
      } else {
        assert end == 0 <==> command[end..] == command;
        assert stem[|stem| - 1] != '/';
        var start := |stem| - |name|;
        assert stem[start..] == name;
        NotEmptyName(stem);
        assert command[start..end] == stem[start..];
        assert start > 0 ==> command[start - 1] == stem[start - 1];
        assert NameAt(name, command, start, end);
      }
    }
  }

  lemma NotEmptyName(stem: string)
    requires stem != "" && stem[|stem| - 1] != '/'
    ensures AfterSlash(stem) != ""
  {
  }

  lemma {:induction false} ProcessesInOrder(procs: seq<Process>, owners: map<int, string>, cpu: map<int, real>,
                                            name: string)
    returns (order: seq<nat>)
    ensures OwnedAt(procs, owners, name, order)
    ensures ListsAt(procs, cpu, SessionProcesses(procs, owners, cpu, name), order)
  {
    order := [];
    if procs != [] {
      var n := |procs| - 1;
      var before := ProcessesInOrder(procs[..n], owners, cpu, name);
      order := WithPosition(before, n, OwnedBy(procs[n], owners, name));
      OneMoreOwned(procs, owners, name, before);
      OneMoreListed(procs, cpu, SessionProcesses(procs[..n], owners, cpu, name), before);
    }
  }

  ghost predicate ListsAt(procs: seq<Process>, cpu: map<int, real>, listed: seq<ProcessUsage>, order: seq<nat>) {
    && |order| == |listed|
    && forall i :: 0 <= i < |order| ==> order[i] < |procs| && listed[i] == UsageOf(procs[order[i]], cpu)
  }

  lemma OneMoreOwned(procs: seq<Process>, owners: map<int, string>, name: string, before: seq<nat>)
    requires procs != [] && OwnedAt(procs[..|procs| - 1], owners, name, before)
    ensures OwnedAt(procs, owners, name, WithPosition(before, |procs| - 1, OwnedBy(procs[|procs| - 1], owners, name)))
  {
    var n := |procs| - 1;
    PositionAdded(before, n, OwnedBy(procs[n], owners, name));
    assert forall k :: 0 <= k < n ==> procs[..n][k] == procs[k];
  }

  lemma OneMoreListed(procs: seq<Process>, cpu: map<int, real>, listed: seq<ProcessUsage>, order: seq<nat>)
    requires procs != [] && ListsAt(procs[..|procs| - 1], cpu, listed, order)
    ensures ListsAt(procs, cpu, listed, order)
    ensures ListsAt(procs, cpu, listed + [UsageOf(procs[|procs| - 1], cpu)], order + [|procs| - 1])
  {
  }

  lemma {:induction false} LoadIsSum(procs: seq<Process>, owners: map<int, string>, cpu: map<int, real>, name: string)
    ensures var ps := SessionProcesses(procs, owners, cpu, name);
            SessionLoad(procs, owners, cpu, name) == Load(SumCpu(ps), SumRss(ps), |ps|)
  {
    if procs != [] {
      var n := |procs| - 1;
      LoadIsSum(procs[..n], owners, cpu, name);
      if OwnedBy(procs[n], owners, name) {
        var rest := SessionProcesses(procs[..n], owners, cpu, name);
        assert (rest + [UsageOf(procs[n], cpu)])[..|rest|] == rest;
      }
    }
  }

  /** Each session's record lists its processes as the system did, and its load is
      their number and the sums of their memory and processor shares. */
  lemma RecordShows(usages: seq<Usage>, procs: seq<Process>, owners: map<int, string>, cpu: map<int, real>, u: Usage)
    returns (order: seq<nat>)
    requires Reports(usages, procs, owners, cpu) && u in usages
    ensures OwnedAt(procs, owners, u.session, order) && |order| == |u.processes| > 0
    ensures forall i :: 0 <= i < |order| ==> Shows(u.processes[i], procs[order[i]], cpu)
    ensures u.load == Load(SumCpu(u.processes), SumRss(u.processes), |u.processes|)
  {
    order := ProcessesInOrder(procs, owners, cpu, u.session);
    LoadIsSum(procs, owners, cpu, u.session);
    forall i | 0 <= i < |order| ensures Shows(u.processes[i], procs[order[i]], cpu) {
      CommandNameIs(procs[order[i]].command);
    }
  }

  /** Exactly the sessions that own a listed process have a record, one each. */
  lemma RecordedIff(usages: seq<Usage>, procs: seq<Process>, owners: map<int, string>, cpu: map<int, real>,
                    name: string)
    requires Reports(usages, procs, owners, cpu)
    ensures (exists u :: u in usages && u.session == name) <==>
            exists p :: p in procs && p.pid in owners && owners[p.pid] == name
    ensures forall i, j :: 0 <= i < j < |usages| ==> usages[i].session != usages[j].session
  {
    if u :| u in usages && u.session == name {
      var order := RecordShows(usages, procs, owners, cpu, u);
      assert order[0] in order && procs[order[0]] in procs;
    }
    forall i, j | 0 <= i < j < |usages| ensures usages[i].session != usages[j].session {
      StringLessIrreflexive(usages[i].session);
    }
  }

  /** A parent is what the list says last of the process. */
  lemma {:induction false} ParentIff(procs: seq<Process>, pid: int, ppid: int)
    ensures pid in Parents(procs) && Parents(procs)[pid] == ppid <==>
            exists k :: 0 <= k < |procs| && procs[k].pid == pid && procs[k].ppid == ppid && LastOf(procs, k)
  {
    if procs != [] {
      var n := |procs| - 1;
      ParentIff(procs[..n], pid, ppid);
      assert LastOf(procs, n);
      forall k | 0 <= k < n ensures LastOf(procs, k) <==> LastOf(procs[..n], k) && procs[n].pid != procs[k].pid {
        assert forall j :: 0 <= j < n ==> procs[..n][j] == procs[j];
      }
    }
  }

  predicate LastOf(procs: seq<Process>, k: nat)
    requires k < |procs|
  {
    forall j :: k < j < |procs| ==> procs[j].pid != procs[k].pid
  }
}

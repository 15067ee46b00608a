/** Window placement on workspaces, and what links guarantee over any run:
    they stay injective, live links never change, and placing twice moves
    nothing the second time. */
module Placement {
  import opened BrowserTypes
  import opened Link

  datatype OpenRow = OpenRow(session: SessionId, window: WindowId)

  datatype Layout = Layout(browserWorkspace: string, parkWorkspace: string)

  datatype Move = Move(wm: WmId, workspace: string, ok: bool)

  // --- runs of link changes ----------------------------------------------

  datatype LinkChange =
    | Resolving(windows: seq<Window>, title: Window -> string, wms: seq<WmWindow>, want: seq<WindowId>)
    | Creating(window: WindowId, before: seq<WmWindow>, after: seq<WmWindow>)
    | Dropping(window: WindowId)
    | Clearing

  /** One change of the link map, as the linker and its callers make it. */
  ghost predicate Changes(links: Links, change: LinkChange, links': Links) {
    match change
    case Resolving(windows, title, wms, want) =>
      DistinctWmIds(wms) && Resolves(links, windows, title, wms, want, links')
    case Creating(window, before, after) =>
      if |New(links, before, after)| == 1
      then exists k :: New(links, before, after) == {k} && links' == links[window := after[k].id]
      else links' == links
    case Dropping(window) => links' == links - {window}
    case Clearing => links' == map[]
  }

  lemma KeptInjective(links: Links, windows: seq<Window>, wms: seq<WmWindow>)
    requires Injective(links)
    ensures Injective(Kept(links, windows, wms))
  {}

  /** A new link never reuses a kept link's window-manager window. */
  lemma NewLinkUnclaimed(windows: seq<Window>, title: Window -> string, wms: seq<WmWindow>, kept: Links, id: WindowId,
                         wm: WmId)
    requires Unambiguous(windows, title, wms, kept, id, wm)
    ensures wm !in kept.Values && wm in WmIds(wms) && id in Ids(windows)
  {
    var i: nat, k: nat :| Pairs(windows, title, wms, kept, id, wm, i, k);
    assert k in Carrying(wms, kept.Values, title(windows[i]), |wms|);
  }

  lemma SameSingleton(i: nat, j: nat)
    requires {i} == {j}
    ensures i == j
  {
    assert i in {j};
  }

  /** Two windows linked in one pass get two window-manager windows. */
  lemma NewLinksDiffer(windows: seq<Window>, title: Window -> string, wms: seq<WmWindow>, kept: Links,
                       a: WindowId, b: WindowId, wm: WmId, wm': WmId)
    requires DistinctWmIds(wms) && a != b
    requires Unambiguous(windows, title, wms, kept, a, wm) && Unambiguous(windows, title, wms, kept, b, wm')
    ensures wm != wm'
  {
    var i: nat, k: nat :| Pairs(windows, title, wms, kept, a, wm, i, k);
    var j: nat, l: nat :| Pairs(windows, title, wms, kept, b, wm', j, l);
    if title(windows[i]) == title(windows[j]) {
      SameSingleton(i, j);
    } else {
      assert k in Carrying(wms, kept.Values, title(windows[i]), |wms|);
      assert l in Carrying(wms, kept.Values, title(windows[j]), |wms|);
    }
  }

  /** Every change keeps the links injective. */
  lemma ChangeKeepsInjective(links: Links, change: LinkChange, links': Links)
    requires Injective(links) && Changes(links, change, links')
    ensures Injective(links')
  {
    match change
    case Resolving(windows, title, wms, want) =>
      var kept := Kept(links, windows, wms);
      KeptInjective(links, windows, wms);
      forall a, b | a in links' && b in links' && a != b ensures links'[a] != links'[b] {
        if a !in kept {
          NewLinkUnclaimed(windows, title, wms, kept, a, links'[a]);
          if b !in kept {
            NewLinksDiffer(windows, title, wms, kept, a, b, links'[a], links'[b]);
          }
        } else if b !in kept {
          NewLinkUnclaimed(windows, title, wms, kept, b, links'[b]);
        }
      }
    case Creating(window, before, after) =>
      if |New(links, before, after)| == 1 {
        var k :| New(links, before, after) == {k} && links' == links[window := after[k].id];
        assert k in New(links, before, after);
      }
    case Dropping(window) =>
    case Clearing =>
  }

  /** In every run that starts without links, the links stay injective. */
  lemma {:induction false} RunKeepsInjective(trace: seq<Links>, changes: seq<LinkChange>, n: nat)
    requires |trace| == |changes| + 1 && trace[0] == map[]
    requires forall i :: 0 <= i < |changes| ==> Changes(trace[i], changes[i], trace[i + 1])
    requires n < |trace|
    ensures Injective(trace[n])
  {
    if n > 0 {
      RunKeepsInjective(trace, changes, n - 1);
      ChangeKeepsInjective(trace[n - 1], changes[n - 1], trace[n]);
    }
  }

  /** Resolving never changes a link whose two ends still exist. */
  lemma LiveLinkUnchanged(links: Links, windows: seq<Window>, title: Window -> string, wms: seq<WmWindow>,
                          want: seq<WindowId>, links': Links, id: WindowId)
    requires Resolves(links, windows, title, wms, want, links')
    requires id in links && id in Ids(windows) && links[id] in WmIds(wms)
    ensures id in links' && links'[id] == links[id]
  {
    assert id in Kept(links, windows, wms);
  }

  /** A window linked by resolving is the only unlinked one with its non-empty
      title, and it is linked to the only unclaimed window-manager window with
      that title. */
  lemma NoAmbiguousTitleLinked(links: Links, windows: seq<Window>, title: Window -> string, wms: seq<WmWindow>,
                               want: seq<WindowId>, links': Links, id: WindowId)
    returns (i: nat, k: nat)
    requires Resolves(links, windows, title, wms, want, links')
    requires id in links' && id !in Kept(links, windows, wms)
    ensures i < |windows| && windows[i].id == id && title(windows[i]) != ""
    ensures forall j :: 0 <= j < |windows| && windows[j].id !in Kept(links, windows, wms) ==>
              title(windows[j]) == title(windows[i]) ==> j == i
    ensures k < |wms| && wms[k].id == links'[id] && wms[k].title == title(windows[i])
    ensures forall l ::
              0 <= l < |wms| && wms[l].id !in Kept(links, windows, wms).Values && wms[l].title == title(windows[i]) ==>
                l == k
    ensures id in want
  {
    var kept := Kept(links, windows, wms);
    i, k :| Pairs(windows, title, wms, kept, id, links'[id], i, k);
    assert k in Carrying(wms, kept.Values, title(windows[i]), |wms|);
    forall j: nat | j < |windows| && windows[j].id !in kept && title(windows[j]) == title(windows[i]) ensures j == i {
      assert j in Titled(windows, title, kept, title(windows[i]), |windows|);
    }
    forall l: nat | l < |wms| && wms[l].id !in kept.Values && wms[l].title == title(windows[i]) ensures l == k {
      assert l in Carrying(wms, kept.Values, title(windows[i]), |wms|);
    }
  }

  /** A link whose window and window-manager window are both still listed. */
  ghost predicate Live(links: Links, windows: seq<Window>, wms: seq<WmWindow>, id: WindowId) {
    && id in links && (exists i :: 0 <= i < |windows| && windows[i].id == id)
    && exists k :: 0 <= k < |wms| && wms[k].id == links[id]
  }

  lemma KeptIsLive(links: Links, windows: seq<Window>, wms: seq<WmWindow>, id: WindowId)
    ensures id in Kept(links, windows, wms) <==> Live(links, windows, wms, id)
    ensures id in Kept(links, windows, wms) ==> Kept(links, windows, wms)[id] == links[id]
  {
  }

  /** Resolving leaves no link with an end that is gone. */
  lemma ResolvedIsLive(links: Links, windows: seq<Window>, title: Window -> string, wms: seq<WmWindow>,
                       want: seq<WindowId>, links': Links, id: WindowId)
    requires Resolves(links, windows, title, wms, want, links') && id in links'
    ensures Live(links', windows, wms, id)
  {
    KeptIsLive(links, windows, wms, id);
    if !Live(links, windows, wms, id) {
      var i, k := NoAmbiguousTitleLinked(links, windows, title, wms, want, links', id);
    }
  }

  /** Nobody else is without a live link and carries the title. */
  ghost predicate OnlyTitled(links: Links, windows: seq<Window>, title: Window -> string, wms: seq<WmWindow>, i: nat)
    requires i < |windows|
  {
    && title(windows[i]) != ""
    && forall j :: 0 <= j < |windows| && title(windows[j]) == title(windows[i]) && j != i ==>
         Live(links, windows, wms, windows[j].id)
  }

  /** Every other window-manager window of that title has a live link. */
  ghost predicate OnlyCarrier(links: Links, windows: seq<Window>, wms: seq<WmWindow>, t: string, k: nat)
    requires k < |wms|
  {
    && wms[k].title == t && !Claimed(links, windows, wms, wms[k].id)
    && forall l :: 0 <= l < |wms| && wms[l].title == t && l != k ==> Claimed(links, windows, wms, wms[l].id)
  }

  ghost predicate Claimed(links: Links, windows: seq<Window>, wms: seq<WmWindow>, wm: WmId) {
    exists id :: Live(links, windows, wms, id) && links[id] == wm
  }

  lemma ClaimedIff(links: Links, windows: seq<Window>, wms: seq<WmWindow>, wm: WmId)
    ensures Claimed(links, windows, wms, wm) <==> wm in Kept(links, windows, wms).Values
  {
    var kept := Kept(links, windows, wms);
    if id :| Live(links, windows, wms, id) && links[id] == wm {
      KeptIsLive(links, windows, wms, id);
    }
    if id :| id in kept && kept[id] == wm {
      KeptIsLive(links, windows, wms, id);
    }
  }

  /** A wanted window without a live link gets linked when nobody else without
      one carries its title and one unclaimed window-manager window does. */
  lemma UniqueTitleIsLinked(links: Links, windows: seq<Window>, title: Window -> string, wms: seq<WmWindow>,
                            want: seq<WindowId>, links': Links, i: nat, k: nat)
    requires Resolves(links, windows, title, wms, want, links') && DistinctIds(windows)
    requires i < |windows| && windows[i].id in want && !Live(links, windows, wms, windows[i].id)
    requires k < |wms| && OnlyTitled(links, windows, title, wms, i)
    requires OnlyCarrier(links, windows, wms, title(windows[i]), k)
    ensures windows[i].id in links' && links'[windows[i].id] == wms[k].id
  {
    var kept, t := Kept(links, windows, wms), title(windows[i]);
    forall j: nat | j < |windows| ensures windows[j].id in kept <==> Live(links, windows, wms, windows[j].id) {
      KeptIsLive(links, windows, wms, windows[j].id);
    }
    forall l: nat | l < |wms| ensures wms[l].id in kept.Values <==> Claimed(links, windows, wms, wms[l].id) {
      ClaimedIff(links, windows, wms, wms[l].id);
    }
    assert Titled(windows, title, kept, t, |windows|) == {i};
    assert Carrying(wms, kept.Values, t, |wms|) == {k};
    assert Pairs(windows, title, wms, kept, windows[i].id, wms[k].id, i, k);
    assert windows[i].id !in kept && Unambiguous(windows, title, wms, kept, windows[i].id, wms[k].id);
  }

  // --- placement ---------------------------------------------------------

  /** The attached session's windows belong on the browser workspace, every
      other session's on the park workspace. */
  function Target(layout: Layout, attached: SessionId, r: OpenRow): string {
    if attached != 0 && r.session == attached then layout.browserWorkspace else layout.parkWorkspace
  }

  ghost predicate OnWorkspace(wms: seq<WmWindow>, wm: WmId, workspace: string) {
    forall k :: 0 <= k < |wms| && wms[k].id == wm ==> wms[k].workspace == workspace
  }

  function WorkspaceOf(wms: seq<WmWindow>, wm: WmId): (workspace: string)
    ensures DistinctWmIds(wms) && wm in WmIds(wms) ==>
              exists k :: 0 <= k < |wms| && wms[k].id == wm && wms[k].workspace == workspace
  {
    if wms == [] then ""
    else
      var n := |wms| - 1;
      if wms[n].id == wm then wms[n].workspace else WorkspaceOf(wms[..n], wm)
  }

  lemma {:induction false} WorkspaceOfOnWorkspace(wms: seq<WmWindow>, wm: WmId)
    requires DistinctWmIds(wms)
    ensures OnWorkspace(wms, wm, WorkspaceOf(wms, wm))
  {
    if wms != [] && wms[|wms| - 1].id != wm {
      WorkspaceOfOnWorkspace(wms[..|wms| - 1], wm);
      assert forall k :: 0 <= k < |wms| - 1 ==> wms[..|wms| - 1][k] == wms[k];
    }
  }

  function MovesFor(rows: seq<OpenRow>, result: map<WindowId, WmId>, wms: seq<WmWindow>, layout: Layout,
                    attached: SessionId, fails: set<WmId>): seq<Move>
  {
    if rows == [] then []
    else
      MovesFor(rows[..|rows| - 1], result, wms, layout, attached, fails) +
      MoveOf(rows[|rows| - 1], result, wms, layout, attached, fails)
  }

  /** The move a row needs: none when its window is not linked or already on
      its target workspace. */
  function MoveOf(r: OpenRow, result: map<WindowId, WmId>, wms: seq<WmWindow>, layout: Layout, attached: SessionId,
                  fails: set<WmId>): seq<Move>
  {
    if r.window !in result || WorkspaceOf(wms, result[r.window]) == Target(layout, attached, r) then []
    else [Move(result[r.window], Target(layout, attached, r), result[r.window] !in fails)]
  }

  function Wanted(rows: seq<OpenRow>): seq<WindowId> {
    seq(|rows|, i requires 0 <= i < |rows| => rows[i].window)
  }

  /** Places the windows of the open rows; `fails` names the window-manager
      windows whose move is refused. */
  method Place(linker: Linker, windows: seq<Window>, title: Window -> string, wms: seq<WmWindow>, rows: seq<OpenRow>,
               layout: Layout, attached: SessionId, fails: set<WmId>)
    returns (moves: seq<Move>)
    modifies linker
    ensures Resolves(old(linker.links), windows, title, wms, Wanted(rows), linker.links)
    ensures moves == MovesFor(rows, Result(rows, linker.links), wms, layout, attached, fails)
  {
    var result := linker.Resolve(windows, title, wms, Wanted(rows));
    assert result == Result(rows, linker.links);
    moves := [];
    for n := 0 to |rows|
      invariant moves == MovesFor(rows[..n], result, wms, layout, attached, fails)
    {
      var r := rows[n];
      assert rows[..n + 1][..n] == rows[..n];
      if r.window !in result {
        continue;
      }
      var wm, target := result[r.window], Target(layout, attached, r);
      if WorkspaceOf(wms, wm) == target {
        continue;
      }
      moves := moves + [Move(wm, target, wm !in fails)];
    }
    assert rows[..|rows|] == rows;
  }

  function Result(rows: seq<OpenRow>, links: Links): map<WindowId, WmId> {
    map id | id in Wanted(rows) && id in links :: links[id]
  }

  /** What the successful moves leave behind. */
  function AfterMoves(wms: seq<WmWindow>, moves: seq<Move>): (after: seq<WmWindow>)
    ensures |after| == |wms|
    ensures forall k :: 0 <= k < |wms| ==> after[k].id == wms[k].id && after[k].title == wms[k].title
  {
    if moves == [] then wms
    else
      ApplyMove(AfterMoves(wms, moves[..|moves| - 1]), moves[|moves| - 1])
  }

  /** Placement moves only windows an open row owns, to that row's target. */
  lemma {:induction false} MovesOnlyOwned(rows: seq<OpenRow>, links: Links, wms: seq<WmWindow>, layout: Layout,
                                          attached: SessionId, fails: set<WmId>, m: Move)
    requires m in MovesFor(rows, Result(rows, links), wms, layout, attached, fails)
    ensures exists r ::
              r in rows && r.window in links && links[r.window] == m.wm && Target(layout, attached, r) == m.workspace
  {
    MoveHasRow(rows, Result(rows, links), wms, layout, attached, fails, m);
  }

  lemma {:induction false} MoveHasRow(rows: seq<OpenRow>, result: map<WindowId, WmId>, wms: seq<WmWindow>,
                                      layout: Layout, attached: SessionId, fails: set<WmId>, m: Move)
    requires m in MovesFor(rows, result, wms, layout, attached, fails)
    ensures exists r :: r in rows && r.window in result && result[r.window] == m.wm &&
                        Target(layout, attached, r) == m.workspace &&
                        WorkspaceOf(wms, m.wm) != m.workspace
  {
    var n := |rows| - 1;
    if m in MovesFor(rows[..n], result, wms, layout, attached, fails) {
      MoveHasRow(rows[..n], result, wms, layout, attached, fails, m);
      var r :| r in rows[..n] && r.window in result && result[r.window] == m.wm &&
               Target(layout, attached, r) == m.workspace &&
               WorkspaceOf(wms, m.wm) != m.workspace;
      assert r in rows;
    } else {
      assert rows[n] in rows;
    }
  }

  /** With injective links, a linked window no open row owns is never moved. */
  lemma UnownedNeverMoved(rows: seq<OpenRow>, links: Links, wms: seq<WmWindow>, layout: Layout, attached: SessionId,
                          fails: set<WmId>, id: WindowId)
    requires Injective(links) && id in links && id !in Wanted(rows)
    ensures forall m :: m in MovesFor(rows, Result(rows, links), wms, layout, attached, fails) ==> m.wm != links[id]
  {
    forall m | m in MovesFor(rows, Result(rows, links), wms, layout, attached, fails) ensures m.wm != links[id] {
      MovesOnlyOwned(rows, links, wms, layout, attached, fails, m);
      var r :| r in rows && r.window in links && links[r.window] == m.wm;
      var k :| 0 <= k < |rows| && rows[k] == r;
      assert Wanted(rows)[k] == r.window;
    }
  }

  // --- placing twice -----------------------------------------------------

  lemma ResolvedKept(links: Links, windows: seq<Window>, title: Window -> string, wms: seq<WmWindow>,
                     want: seq<WindowId>, links': Links)
    requires Resolves(links, windows, title, wms, want, links')
    ensures Kept(links', windows, wms) == links'
  {
    var kept := Kept(links, windows, wms);
    forall id | id in links' ensures id in Ids(windows) && links'[id] in WmIds(wms) {
      if id !in kept {
        NewLinkUnclaimed(windows, title, wms, kept, id, links'[id]);
      }
    }
  }

  predicate DistinctIds(windows: seq<Window>) {
    forall i, j :: 0 <= i < j < |windows| ==> windows[i].id != windows[j].id
  }

  /** An unlinked window keeps its title to itself: were a window with the
      same title linked meanwhile, it would have been the only one. */
  lemma TitledUnchanged(links: Links, windows: seq<Window>, title: Window -> string, wms: seq<WmWindow>,
                        want: seq<WindowId>, links': Links, i: nat)
    requires DistinctIds(windows) && Resolves(links, windows, title, wms, want, links')
    requires i < |windows| && windows[i].id !in links'
    ensures Titled(windows, title, Kept(links, windows, wms), title(windows[i]), |windows|) ==
            Titled(windows, title, links', title(windows[i]), |windows|)
  {
    var kept := Kept(links, windows, wms);
    forall j: nat | j < |windows| && windows[j].id !in kept && title(windows[j]) == title(windows[i])
      ensures windows[j].id !in links'
    {
      if windows[j].id in links' {
        var m, k := NoAmbiguousTitleLinked(links, windows, title, wms, want, links', windows[j].id);
        OnlyEntry(windows, m, j);
      }
    }
  }

  lemma OnlyEntry(windows: seq<Window>, m: nat, j: nat)
    requires DistinctIds(windows) && m < |windows| && j < |windows| && windows[m].id == windows[j].id
    ensures m == j
  {}

  /** Nor does its title's window-manager window get claimed. */
  lemma CarryingUnchanged(links: Links, windows: seq<Window>, title: Window -> string, wms: seq<WmWindow>,
                          want: seq<WindowId>, links': Links, i: nat)
    requires DistinctIds(windows) && DistinctWmIds(wms) && Resolves(links, windows, title, wms, want, links')
    requires i < |windows| && windows[i].id !in links'
    ensures Carrying(wms, Kept(links, windows, wms).Values, title(windows[i]), |wms|) ==
            Carrying(wms, links'.Values, title(windows[i]), |wms|)
  {
    var kept := Kept(links, windows, wms);
    forall l: nat | l < |wms| && wms[l].id !in kept.Values && wms[l].title == title(windows[i])
      ensures wms[l].id !in links'.Values
    {
      if other :| other in links' && links'[other] == wms[l].id {
        assert other !in kept;
        var m, k := NoAmbiguousTitleLinked(links, windows, title, wms, want, links', other);
      }
    }
    forall a | a in kept.Values ensures a in links'.Values {
      var x :| x in kept && kept[x] == a;
      assert links'[x] == a;
    }
  }

  /** Linking some windows makes no other window linkable. */
  lemma StillAmbiguous(links: Links, windows: seq<Window>, title: Window -> string, wms: seq<WmWindow>,
                       want: seq<WindowId>, links': Links, id: WindowId, wm: WmId)
    requires DistinctIds(windows) && DistinctWmIds(wms) && Resolves(links, windows, title, wms, want, links')
    requires id !in links' && Unambiguous(windows, title, wms, links', id, wm)
    ensures Unambiguous(windows, title, wms, Kept(links, windows, wms), id, wm)
  {
    var i: nat, k: nat :| Pairs(windows, title, wms, links', id, wm, i, k);
    TitledUnchanged(links, windows, title, wms, want, links', i);
    CarryingUnchanged(links, windows, title, wms, want, links', i);
    assert Pairs(windows, title, wms, Kept(links, windows, wms), id, wm, i, k);
  }

  /** Resolving again with the same titles changes nothing. */
  lemma ResolveAgain(links: Links, windows: seq<Window>, title: Window -> string, wms: seq<WmWindow>,
                     want: seq<WindowId>, links': Links, links'': Links)
    requires DistinctIds(windows) && DistinctWmIds(wms)
    requires Resolves(links, windows, title, wms, want, links') && Resolves(links', windows, title, wms, want, links'')
    ensures links'' == links'
  {
    ResolvedKept(links, windows, title, wms, want, links');
    forall id | id in links'' ensures id in links' {
      if id !in links' {
        StillAmbiguous(links, windows, title, wms, want, links', id, links''[id]);
      }
    }
    assert links''.Keys == links'.Keys;
  }

  /** Moving windows between workspaces does not affect resolving. */
  lemma MovesDoNotAffectResolving(links: Links, windows: seq<Window>, title: Window -> string, wms: seq<WmWindow>,
                                  wms': seq<WmWindow>, want: seq<WindowId>, links': Links)
    requires |wms'| == |wms| && forall k :: 0 <= k < |wms| ==> wms'[k].id == wms[k].id && wms'[k].title == wms[k].title
    requires Resolves(links, windows, title, wms', want, links')
    ensures Resolves(links, windows, title, wms, want, links')
  {
    assert WmIds(wms) == WmIds(wms');
    var kept := Kept(links, windows, wms);
    assert kept == Kept(links, windows, wms');
    forall t ensures Carrying(wms, kept.Values, t, |wms|) == Carrying(wms', kept.Values, t, |wms|) {}
    forall id, wm
      ensures Unambiguous(windows, title, wms, kept, id, wm) <==> Unambiguous(windows, title, wms', kept, id, wm)
    {
      if Unambiguous(windows, title, wms, kept, id, wm) {
        var i: nat, k: nat :| Pairs(windows, title, wms, kept, id, wm, i, k);
        assert Pairs(windows, title, wms', kept, id, wm, i, k);
      }
      if Unambiguous(windows, title, wms', kept, id, wm) {
        var i: nat, k: nat :| Pairs(windows, title, wms', kept, id, wm, i, k);
        assert Pairs(windows, title, wms, kept, id, wm, i, k);
      }
    }
  }

  function ApplyMove(wms: seq<WmWindow>, m: Move): (after: seq<WmWindow>)
    ensures |after| == |wms|
    ensures forall k :: 0 <= k < |wms| ==> after[k].id == wms[k].id && after[k].title == wms[k].title
  {
    seq(|wms|,
        k requires 0 <= k < |wms| => if m.ok && wms[k].id == m.wm then wms[k].(workspace := m.workspace) else wms[k])
  }

  lemma {:induction false} WorkspaceAfterMove(wms: seq<WmWindow>, m: Move, wm: WmId)
    requires wm in WmIds(wms)
    ensures WorkspaceOf(ApplyMove(wms, m), wm) == if m.ok && m.wm == wm then m.workspace else WorkspaceOf(wms, wm)
  {
    var n := |wms| - 1;
    if wms[n].id != wm {
      assert ApplyMove(wms, m)[..n] == ApplyMove(wms[..n], m);
      var k :| 0 <= k < |wms| && wms[k].id == wm;
      assert wms[..n][k].id == wm;
      WorkspaceAfterMove(wms[..n], m, wm);
    }
  }

  ghost predicate DistinctTargets(rows: seq<OpenRow>, result: map<WindowId, WmId>) {
    forall i, j :: 0 <= i < j < |rows| && rows[i].window in result && rows[j].window in result ==>
                     result[rows[i].window] != result[rows[j].window]
  }

  lemma AfterMovesSplit(wms: seq<WmWindow>, before: seq<Move>, one: seq<Move>)
    requires |one| <= 1
    ensures AfterMoves(wms, before + one) ==
            if one == [] then AfterMoves(wms, before) else ApplyMove(AfterMoves(wms, before), one[0])
  {
    if one == [] {
      assert before + one == before;
    } else {
      assert (before + one)[..|before|] == before;
    }
  }

  lemma RetriesSplit(before: seq<Move>, one: seq<Move>, fails: set<WmId>)
    requires |one| <= 1
    ensures Retries(before + one, fails) ==
            Retries(before, fails) + if one == [] || one[0].ok then [] else [one[0].(ok := one[0].wm !in fails)]
  {
    if one == [] {
      assert before + one == before;
    } else {
      assert (before + one)[..|before|] == before;
    }
  }

  /** Where row `k`'s window is after the moves of the first `n` rows. */
  lemma {:induction false} WorkspaceAfterMoves(rows: seq<OpenRow>, n: nat, result: map<WindowId, WmId>,
                                               wms: seq<WmWindow>, layout: Layout, attached: SessionId,
                                               fails: set<WmId>, k: nat)
    requires n <= |rows| && k < |rows| && rows[k].window in result && result[rows[k].window] in WmIds(wms)
    requires DistinctTargets(rows, result)
    ensures var wm := result[rows[k].window];
            WorkspaceOf(AfterMoves(wms, MovesFor(rows[..n], result, wms, layout, attached, fails)), wm) ==
            if k < n && wm !in fails then Target(layout, attached, rows[k]) else WorkspaceOf(wms, wm)
  {
    if n > 0 {
      var before := MovesFor(rows[..n - 1], result, wms, layout, attached, fails);
      WorkspaceAfterMoves(rows, n - 1, result, wms, layout, attached, fails, k);
      SameIdsAfter(wms, before);
      OneRowPlaced(rows, n - 1, result, wms, AfterMoves(wms, before), layout, attached, fails, k);
      OneMoreMove(rows, n, result, wms, layout, attached, fails);
    }
  }

  lemma {:induction false} SameIdsAfter(wms: seq<WmWindow>, moves: seq<Move>)
    ensures WmIds(AfterMoves(wms, moves)) == WmIds(wms)
  {
    if moves != [] {
      SameIdsAfter(wms, moves[..|moves| - 1]);
    }
  }

  lemma OneMoreMove(rows: seq<OpenRow>, n: nat, result: map<WindowId, WmId>, wms: seq<WmWindow>, layout: Layout,
                    attached: SessionId, fails: set<WmId>)
    requires 0 < n <= |rows|
    ensures var placed := AfterMoves(wms, MovesFor(rows[..n - 1], result, wms, layout, attached, fails));
            var one := MoveOf(rows[n - 1], result, wms, layout, attached, fails);
            AfterMoves(wms, MovesFor(rows[..n], result, wms, layout, attached, fails)) ==
            if one == [] then placed else ApplyMove(placed, one[0])
  {
    assert rows[..n][..n - 1] == rows[..n - 1];
    AfterMovesSplit(wms, MovesFor(rows[..n - 1], result, wms, layout, attached, fails),
                    MoveOf(rows[n - 1], result, wms, layout, attached, fails));
  }

  lemma OneRowPlaced(rows: seq<OpenRow>, n: nat, result: map<WindowId, WmId>, wms: seq<WmWindow>, placed: seq<WmWindow>,
                     layout: Layout, attached: SessionId, fails: set<WmId>, k: nat)
    requires n < |rows| && k < |rows| && rows[k].window in result && result[rows[k].window] in WmIds(placed)
    requires DistinctTargets(rows, result)
    requires var wm := result[rows[k].window];
             WorkspaceOf(placed, wm) ==
             if k < n && wm !in fails then Target(layout, attached, rows[k]) else WorkspaceOf(wms, wm)
    ensures var wm := result[rows[k].window];
            var one := MoveOf(rows[n], result, wms, layout, attached, fails);
            WorkspaceOf(if one == [] then placed else ApplyMove(placed, one[0]), wm) ==
            if k < n + 1 && wm !in fails then Target(layout, attached, rows[k]) else WorkspaceOf(wms, wm)
  {
    var one := MoveOf(rows[n], result, wms, layout, attached, fails);
    if one != [] {
      WorkspaceAfterMove(placed, one[0], result[rows[k].window]);
    }
  }

  /** The refused moves of a placement, as the next placement attempts them. */
  function Retries(moves: seq<Move>, fails: set<WmId>): seq<Move> {
    if moves == [] then []
    else
      var m := moves[|moves| - 1];
      Retries(moves[..|moves| - 1], fails) + if m.ok then [] else [m.(ok := m.wm !in fails)]
  }

  lemma {:induction false} MovesAgain(rows: seq<OpenRow>, n: nat, result: map<WindowId, WmId>, wms: seq<WmWindow>,
                                      wms': seq<WmWindow>, layout: Layout, attached: SessionId, fails: set<WmId>,
                                      fails': set<WmId>)
    requires n <= |rows|
    requires forall k :: 0 <= k < |rows| && rows[k].window in result ==>
                           WorkspaceOf(wms', result[rows[k].window]) ==
                           if result[rows[k].window] !in fails then Target(layout, attached, rows[k])
                           else WorkspaceOf(wms, result[rows[k].window])
    ensures MovesFor(rows[..n], result, wms', layout, attached, fails') ==
            Retries(MovesFor(rows[..n], result, wms, layout, attached, fails), fails')
  {
    if n > 0 {
      MovesAgain(rows, n - 1, result, wms, wms', layout, attached, fails, fails');
      assert rows[..n][..n - 1] == rows[..n - 1];
      var before := MovesFor(rows[..n - 1], result, wms, layout, attached, fails);
      RetriesSplit(before, MoveOf(rows[n - 1], result, wms, layout, attached, fails), fails');
    }
  }

  /** A second placement with unchanged windows, titles, rows and attached
      session keeps the links and attempts exactly the moves that were refused;
      when none was refused it moves nothing. */
  lemma SecondPlacement(links: Links, windows: seq<Window>, title: Window -> string, wms: seq<WmWindow>,
                        rows: seq<OpenRow>, layout: Layout, attached: SessionId, fails: set<WmId>, fails': set<WmId>,
                        links': Links, links'': Links)
    requires Injective(links) && DistinctIds(windows) && DistinctWmIds(wms)
    requires forall i, j :: 0 <= i < j < |rows| ==> rows[i].window != rows[j].window
    requires Resolves(links, windows, title, wms, Wanted(rows), links')
    requires var moves := MovesFor(rows, Result(rows, links'), wms, layout, attached, fails);
             Resolves(links', windows, title, AfterMoves(wms, moves), Wanted(rows), links'')
    ensures links'' == links'
    ensures var moves := MovesFor(rows, Result(rows, links'), wms, layout, attached, fails);
            var again := MovesFor(rows, Result(rows, links''), AfterMoves(wms, moves), layout, attached, fails');
            again == Retries(moves, fails') && (fails == {} ==> again == [])
  {
    var result := Result(rows, links');
    var moves := MovesFor(rows, result, wms, layout, attached, fails);
    var wms' := AfterMoves(wms, moves);
    MovesDoNotAffectResolving(links', windows, title, wms, wms', Wanted(rows), links'');
    ResolveAgain(links, windows, title, wms, Wanted(rows), links', links'');
    ChangeKeepsInjective(links, Resolving(windows, title, wms, Wanted(rows)), links');
    ResolvedKept(links, windows, title, wms, Wanted(rows), links');
    assert rows[..|rows|] == rows;
    forall k | 0 <= k < |rows| && rows[k].window in result
      ensures WorkspaceOf(wms', result[rows[k].window]) ==
              if result[rows[k].window] !in fails then Target(layout, attached, rows[k])
              else WorkspaceOf(wms, result[rows[k].window])
    {
      assert links'[rows[k].window] == Kept(links', windows, wms)[rows[k].window];
      WorkspaceAfterMoves(rows, |rows|, result, wms, layout, attached, fails, k);
    }
    MovesAgain(rows, |rows|, result, wms, wms', layout, attached, fails, fails');
    if fails == {} {
      AllOkNoRetries(rows, result, wms, layout, attached, fails');
    }
  }

  lemma {:induction false} AllOkNoRetries(rows: seq<OpenRow>, result: map<WindowId, WmId>, wms: seq<WmWindow>,
                                          layout: Layout, attached: SessionId, fails': set<WmId>)
    ensures Retries(MovesFor(rows, result, wms, layout, attached, {}), fails') == []
  {
    if rows != [] {
      var n := |rows| - 1;
      AllOkNoRetries(rows[..n], result, wms, layout, attached, fails');
      var before := MovesFor(rows[..n], result, wms, layout, attached, {});
      RetriesSplit(before, MoveOf(rows[n], result, wms, layout, attached, {}), fails');
    }
  }

  // --- where a placement leaves the windows --------------------------------

  lemma WorkspaceAt(wms: seq<WmWindow>, i: nat)
    requires DistinctWmIds(wms) && i < |wms|
    ensures WorkspaceOf(wms, wms[i].id) == wms[i].workspace
  {
    WorkspaceOfOnWorkspace(wms, wms[i].id);
  }

  lemma DistinctAfter(wms: seq<WmWindow>, moves: seq<Move>)
    requires DistinctWmIds(wms)
    ensures DistinctWmIds(AfterMoves(wms, moves))
  {}

  lemma {:induction false} NotMoved(wms: seq<WmWindow>, moves: seq<Move>, i: nat)
    requires i < |wms| && forall m :: m in moves && m.wm == wms[i].id ==> !m.ok
    ensures AfterMoves(wms, moves)[i] == wms[i]
  {
    if moves != [] {
      var n := |moves| - 1;
      assert moves[n] in moves;
      NotMoved(wms, moves[..n], i);
    }
  }

  /** After a placement the linked window of every row is on the browser
      workspace if its session is the attached one, and on the park workspace if
      not; only a window whose move was refused is where it was. A window that no
      row is linked to stays as it is. */
  lemma PlacementPutsRight(rows: seq<OpenRow>, links: Links, wms: seq<WmWindow>, layout: Layout, attached: SessionId,
                           fails: set<WmId>, i: nat)
    requires Injective(links) && DistinctWmIds(wms) && i < |wms|
    requires forall j, k :: 0 <= j < k < |rows| ==> rows[j].window != rows[k].window
    ensures var after := AfterMoves(wms, MovesFor(rows, Result(rows, links), wms, layout, attached, fails));
            && after[i].id == wms[i].id && after[i].title == wms[i].title
            && (forall r :: r in rows && r.window in links && links[r.window] == wms[i].id ==>
                  after[i].workspace ==
                  if wms[i].id in fails then wms[i].workspace
                  else if attached != 0 && r.session == attached then layout.browserWorkspace
                  else layout.parkWorkspace)
            && ((forall r :: r in rows && r.window in links ==> links[r.window] != wms[i].id) ==> after[i] == wms[i])
  {
    var result := Result(rows, links);
    var moves := MovesFor(rows, result, wms, layout, attached, fails);
    assert rows[..|rows|] == rows;
    WorkspaceAt(wms, i);
    DistinctAfter(wms, moves);
    WorkspaceAt(AfterMoves(wms, moves), i);
    forall r | r in rows && r.window in links && links[r.window] == wms[i].id
      ensures WorkspaceOf(AfterMoves(wms, moves), wms[i].id) ==
              if wms[i].id in fails then wms[i].workspace else Target(layout, attached, r)
    {
      var k :| 0 <= k < |rows| && rows[k] == r;
      assert Wanted(rows)[k] == r.window;
      WorkspaceAfterMoves(rows, |rows|, result, wms, layout, attached, fails, k);
    }
    if forall r :: r in rows && r.window in links ==> links[r.window] != wms[i].id {
      forall m | m in moves ensures m.wm != wms[i].id {
        MovesOnlyOwned(rows, links, wms, layout, attached, fails, m);
      }
      NotMoved(wms, moves, i);
    }
  }

  /** Attempted are exactly the moves of linked windows that are not where they
      belong. */
  lemma {:induction false} AttemptedIff(rows: seq<OpenRow>, result: map<WindowId, WmId>, wms: seq<WmWindow>,
                                        layout: Layout, attached: SessionId, fails: set<WmId>, i: nat,
                                        workspace: string, ok: bool)
    requires DistinctWmIds(wms) && i < |wms|
    ensures Move(wms[i].id, workspace, ok) in MovesFor(rows, result, wms, layout, attached, fails) <==>
              && workspace != wms[i].workspace && ok == (wms[i].id !in fails)
              && exists r ::
                   && r in rows && r.window in result && result[r.window] == wms[i].id
                   && workspace == if attached != 0 && r.session == attached then layout.browserWorkspace
                                   else layout.parkWorkspace
  {
    if rows != [] {
      var n := |rows| - 1;
      AttemptedIff(rows[..n], result, wms, layout, attached, fails, i, workspace, ok);
      WorkspaceAt(wms, i);
      assert forall r :: r in rows <==> r in rows[..n] || r == rows[n];
    }
  }
}

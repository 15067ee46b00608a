/** The plan of a session setup: a list of steps with dependencies on earlier
    positions, built from the session's workspaces and their actions. */
module SetupPlan {
  import opened BrowserTypes

  datatype StepKind = CreateSessionDir | SetupWorktree | CopyFile | InstallDeps | ApplyClaude | SetupMux

  datatype ActionType = CopyAction | InstallAction | OtherAction

  datatype Action = Action(kind: ActionType, settings: string)

  datatype Workspace = Workspace(id: nat, name: string)

  /** `action`: the configured action a copy or install step carries out. */
  datatype StepDef = StepDef(kind: StepKind, workspace: Option<nat>, dependsOn: Option<nat>, background: bool,
                             action: Option<Action>)

  type Configs = map<nat, seq<Action>>

  const SESSION_DIR_STEP := StepDef(CreateSessionDir, None, None, false, None)
  const APPLY_CLAUDE_STEP := StepDef(ApplyClaude, None, None, false, None)

  // --- the plan, position by position --------------------------------------

  function Only(actions: seq<Action>, kind: ActionType): seq<Action> {
    if actions == [] then []
    else Only(actions[..|actions| - 1], kind) +
         if actions[|actions| - 1].kind == kind then [actions[|actions| - 1]] else []
  }

  function ActionsOf(configs: Configs, ws: Workspace): seq<Action> {
    if ws.id in configs then configs[ws.id] else []
  }

  /** The steps of one workspace placed at position `base`: its worktree, then
      its copies, then its installs, each waiting for the one before. */
  function WorkspaceSteps(ws: Workspace, actions: seq<Action>, base: nat): seq<StepDef> {
    var copies, installs := Only(actions, CopyAction), Only(actions, InstallAction);
    [WorktreeStep(ws)] + CopySteps(ws, copies, base) + InstallSteps(ws, installs, base + |copies|)
  }

  function WorktreeStep(ws: Workspace): StepDef {
    StepDef(SetupWorktree, Some(ws.id), Some(0), false, None)
  }

  function CopySteps(ws: Workspace, copies: seq<Action>, base: nat): seq<StepDef> {
    seq(|copies|,
        j requires 0 <= j < |copies| => StepDef(CopyFile, Some(ws.id), Some(base + j), false, Some(copies[j])))
  }

  function InstallSteps(ws: Workspace, installs: seq<Action>, base: nat): seq<StepDef> {
    seq(|installs|,
        j requires 0 <= j < |installs| => StepDef(InstallDeps, Some(ws.id), Some(base + j), true, Some(installs[j])))
  }

  function StepsBeforeClaude(workspaces: seq<Workspace>, configs: Configs): seq<StepDef> {
    if workspaces == [] then [SESSION_DIR_STEP]
    else
      var before := StepsBeforeClaude(workspaces[..|workspaces| - 1], configs);
      var ws := workspaces[|workspaces| - 1];
      before + WorkspaceSteps(ws, ActionsOf(configs, ws), |before|)
  }

  function WorkspacePlan(workspaces: seq<Workspace>, configs: Configs): seq<StepDef> {
    StepsBeforeClaude(workspaces, configs) + [APPLY_CLAUDE_STEP]
  }

  function SessionPlan(workspaces: seq<Workspace>, configs: Configs): seq<StepDef> {
    var defs := WorkspacePlan(workspaces, configs);
    defs + [StepDef(SetupMux, None, Some(|defs| - 1), false, None)]
  }

  // --- the builders --------------------------------------------------------

  lemma OneMoreStep(ws: Workspace, chosen: seq<Action>, a: Action, base: nat)
    ensures CopySteps(ws, chosen + [a], base) ==
            CopySteps(ws, chosen, base) + [StepDef(CopyFile, Some(ws.id), Some(base + |chosen|), false, Some(a))]
    ensures InstallSteps(ws, chosen + [a], base) ==
            InstallSteps(ws, chosen, base) + [StepDef(InstallDeps, Some(ws.id), Some(base + |chosen|), true, Some(a))]
  {}

  /** Going one action further adds at most one step, at the next position. */
  lemma OneMoreAction(ws: Workspace, actions: seq<Action>, n: nat, base: nat)
    requires n < |actions|
    ensures var before, after := Only(actions[..n], CopyAction), Only(actions[..n + 1], CopyAction);
            if actions[n].kind == CopyAction
            then |after| == |before| + 1 && CopySteps(ws, after, base) ==
                   CopySteps(ws, before, base) +
                   [StepDef(CopyFile, Some(ws.id), Some(base + |before|), false, Some(actions[n]))]
            else after == before
    ensures var before, after := Only(actions[..n], InstallAction), Only(actions[..n + 1], InstallAction);
            if actions[n].kind == InstallAction
            then |after| == |before| + 1 && InstallSteps(ws, after, base) ==
                   InstallSteps(ws, before, base) +
                   [StepDef(InstallDeps, Some(ws.id), Some(base + |before|), true, Some(actions[n]))]
            else after == before
  {
    assert actions[..n + 1][..n] == actions[..n];
    OneMoreStep(ws, Only(actions[..n], CopyAction), actions[n], base);
    OneMoreStep(ws, Only(actions[..n], InstallAction), actions[n], base);
  }

  lemma Assoc<T>(a: seq<T>, b: seq<T>, c: seq<T>)
    ensures a + b + c == a + (b + c)
  {}

  method AppendActionSteps(defs: seq<StepDef>, ws: Workspace, actions: seq<Action>) returns (all: seq<StepDef>)
    requires |defs| > 0
    ensures var copies, installs := Only(actions, CopyAction), Only(actions, InstallAction);
            all == defs + CopySteps(ws, copies, |defs| - 1) + InstallSteps(ws, installs, |defs| + |copies| - 1)
  {
    all := defs;
    var lastPos := |defs| - 1;
    ghost var copied := [];
    for n := 0 to |actions|
      invariant lastPos == |all| - 1 && all == defs + copied
      invariant copied == CopySteps(ws, Only(actions[..n], CopyAction), |defs| - 1)
    {
      OneMoreAction(ws, actions, n, |defs| - 1);
      if actions[n].kind == CopyAction {
        var step := StepDef(CopyFile, Some(ws.id), Some(lastPos), false, Some(actions[n]));
        Assoc(defs, copied, [step]);
        all, copied := all + [step], copied + [step];
        lastPos := |all| - 1;
      }
    }
    assert actions[..|actions|] == actions;
    ghost var start, installed := all, [];
    for n := 0 to |actions|
      invariant lastPos == |all| - 1 && all == start + installed
      invariant installed == InstallSteps(ws, Only(actions[..n], InstallAction), |start| - 1)
    {
      OneMoreAction(ws, actions, n, |start| - 1);
      if actions[n].kind == InstallAction {
        var step := StepDef(InstallDeps, Some(ws.id), Some(lastPos), true, Some(actions[n]));
        Assoc(start, installed, [step]);
        all, installed := all + [step], installed + [step];
        lastPos := |all| - 1;
      }
    }
    assert actions[..|actions|] == actions;
  }

  method BuildWorkspaceSetupSteps(workspaces: seq<Workspace>, configs: Configs) returns (defs: seq<StepDef>)
    ensures defs == WorkspacePlan(workspaces, configs) && IsPlan(defs, workspaces, configs, false)
  {
    defs := [SESSION_DIR_STEP];
    for n := 0 to |workspaces|
      invariant defs == StepsBeforeClaude(workspaces[..n], configs) && |defs| > 0
    {
      var ws := workspaces[n];
      assert workspaces[..n + 1][..n] == workspaces[..n];
      defs := AppendWorkspace(defs, ws, if ws.id in configs then configs[ws.id] else []);
    }
    assert workspaces[..|workspaces|] == workspaces;
    defs := defs + [APPLY_CLAUDE_STEP];
    PlansSetUp(workspaces, configs);
  }

  method AppendWorkspace(defs: seq<StepDef>, ws: Workspace, actions: seq<Action>) returns (all: seq<StepDef>)
    requires |defs| > 0
    ensures all == defs + WorkspaceSteps(ws, actions, |defs|)
  {
    all := AppendActionSteps(defs + [WorktreeStep(ws)], ws, actions);
  }

  method BuildSetupSteps(workspaces: seq<Workspace>, configs: Configs) returns (defs: seq<StepDef>)
    ensures defs == SessionPlan(workspaces, configs) && IsPlan(defs, workspaces, configs, true)
  {
    defs := BuildWorkspaceSetupSteps(workspaces, configs);
    defs := defs + [StepDef(SetupMux, None, Some(|defs| - 1), false, None)];
    PlansSetUp(workspaces, configs);
  }

  // --- what the plan is to do -------------------------------------------------

  /** The step carries out action `a` of the workspace, once the step at
      position `after` is done. */
  predicate CarriesOut(d: StepDef, ws: Workspace, a: Action, after: nat) {
    && d.workspace == Some(ws.id) && d.action == Some(a) && d.dependsOn == Some(after)
    && match d.kind
       case CopyFile => a.kind == CopyAction && !d.background
       case InstallDeps => a.kind == InstallAction && d.background
       case _ => false
  }

  /** The steps, the first of which waits for position `lo` and each other for
      the one before it, carry out actions `order` of the workspace: all its
      copies, as configured, and then all its installs. */
  ghost predicate InOrder(steps: seq<StepDef>, lo: nat, ws: Workspace, actions: seq<Action>, order: seq<nat>) {
    && |order| == |steps|
    && (forall k :: 0 <= k < |order| ==> order[k] < |actions| && CarriesOut(steps[k], ws, actions[order[k]], lo + k))
    && (forall i, j :: 0 <= i < j < |order| ==>
          if steps[i].kind == steps[j].kind then order[i] < order[j] else steps[i].kind == CopyFile)
    && (forall a :: 0 <= a < |actions| && !actions[a].kind.OtherAction? ==> a in order)
  }

  ghost predicate CarryOutAll(steps: seq<StepDef>, lo: nat, ws: Workspace, actions: seq<Action>) {
    exists order :: InOrder(steps, lo, ws, actions, order)
  }

  /** The steps from `lo` on and before `hi` set the workspace up: its worktree,
      once there is a session directory, and then its actions. */
  ghost predicate SetsUp(defs: seq<StepDef>, lo: nat, hi: nat, ws: Workspace, actions: seq<Action>) {
    && lo < hi <= |defs|
    && defs[lo].kind == SetupWorktree && defs[lo].workspace == Some(ws.id) && defs[lo].dependsOn == Some(0)
    && !defs[lo].background && defs[lo].action == None
    && CarryOutAll(defs[lo + 1..hi], lo, ws, actions)
  }

  /** After the session directory the workspaces are set up one after the other,
      in their order and nothing else; each begins at one of `starts`. */
  ghost predicate SetsUpAll(defs: seq<StepDef>, workspaces: seq<Workspace>, configs: Configs, starts: seq<nat>) {
    && |starts| == |workspaces| + 1 && starts[0] == 1 && starts[|workspaces|] == |defs|
    && defs != [] && defs[0] == StepDef(CreateSessionDir, None, None, false, None)
    && forall n :: 0 <= n < |workspaces| ==>
         SetsUp(defs, starts[n], starts[n + 1], workspaces[n],
                if workspaces[n].id in configs then configs[workspaces[n].id] else [])
  }

  /** The plan sets the workspaces up, applies the settings and, if asked to,
      starts the terminal session once these are applied. */
  ghost predicate IsPlan(defs: seq<StepDef>, workspaces: seq<Workspace>, configs: Configs, terminal: bool) {
    exists starts :: |starts| > 0 && starts[|starts| - 1] < |defs| &&
      var claude := starts[|starts| - 1];
      && SetsUpAll(defs[..claude], workspaces, configs, starts)
      && |defs| == claude + (if terminal then 2 else 1)
      && defs[claude] == StepDef(ApplyClaude, None, None, false, None)
      && (terminal ==> defs[claude + 1] == StepDef(SetupMux, None, Some(claude), false, None))
  }

  /** The positions of the actions of one kind, in order. */
  ghost predicate Picks(actions: seq<Action>, kind: ActionType, order: seq<nat>) {
    && Increasing(order) && (forall a :: 0 <= a < |actions| ==> (a in order <==> actions[a].kind == kind))
    && TakenAt(actions, Only(actions, kind), order)
  }

  lemma {:induction false} OnlyInOrder(actions: seq<Action>, kind: ActionType) returns (order: seq<nat>)
    ensures Picks(actions, kind, order)
  {
    order := [];
    if actions != [] {
      var n := |actions| - 1;
      var before := OnlyInOrder(actions[..n], kind);
      order := WithPosition(before, n, actions[n].kind == kind);
      PositionAdded(before, n, actions[n].kind == kind);
      TakenOneMore(actions, Only(actions[..n], kind), before);
      forall a | 0 <= a < n ensures a in order <==> actions[a].kind == kind {
        assert actions[..n][a] == actions[a];
      }
    }
  }

  function ActionSteps(ws: Workspace, actions: seq<Action>, lo: nat): seq<StepDef> {
    var copies, installs := Only(actions, CopyAction), Only(actions, InstallAction);
    CopySteps(ws, copies, lo) + InstallSteps(ws, installs, lo + |copies|)
  }

  lemma ActionAt(ws: Workspace, actions: seq<Action>, lo: nat, copies: seq<nat>, installs: seq<nat>, k: nat)
    requires Picks(actions, CopyAction, copies) && Picks(actions, InstallAction, installs)
    requires k < |copies + installs|
    ensures var steps, order := ActionSteps(ws, actions, lo), copies + installs;
            && |steps| == |order| && order[k] < |actions| && CarriesOut(steps[k], ws, actions[order[k]], lo + k)
            && steps[k].kind == if k < |copies| then CopyFile else InstallDeps
  {
  }

  lemma ActionsAreCarriedOut(ws: Workspace, actions: seq<Action>, lo: nat)
    ensures CarryOutAll(ActionSteps(ws, actions, lo), lo, ws, actions)
  {
    var copies := OnlyInOrder(actions, CopyAction);
    var installs := OnlyInOrder(actions, InstallAction);
    var steps, order := ActionSteps(ws, actions, lo), copies + installs;
    forall k | 0 <= k < |order|
      ensures |steps| == |order| && order[k] < |actions| && CarriesOut(steps[k], ws, actions[order[k]], lo + k)
      ensures steps[k].kind == if k < |copies| then CopyFile else InstallDeps
    {
      ActionAt(ws, actions, lo, copies, installs, k);
    }
    forall i, j | |copies| <= i < j < |order| ensures order[i] < order[j] {
      assert order[i] == installs[i - |copies|] && order[j] == installs[j - |copies|];
    }
    assert InOrder(steps, lo, ws, actions, order);
  }

  lemma WorkspaceIsSetUp(before: seq<StepDef>, ws: Workspace, actions: seq<Action>)
    ensures var defs := before + WorkspaceSteps(ws, actions, |before|); SetsUp(defs, |before|, |defs|, ws, actions)
  {
    var defs, steps := before + WorkspaceSteps(ws, actions, |before|), ActionSteps(ws, actions, |before|);
    ActionsAreCarriedOut(ws, actions, |before|);
    Assoc([WorktreeStep(ws)], CopySteps(ws, Only(actions, CopyAction), |before|),
          InstallSteps(ws, Only(actions, InstallAction), |before| + |Only(actions, CopyAction)|));
    MiddleAndTail(before, WorktreeStep(ws), steps);
  }

  lemma MiddleAndTail<T>(before: seq<T>, x: T, tail: seq<T>)
    ensures var all := before + ([x] + tail); all[|before|] == x && all[|before| + 1..|all|] == tail
  {}

  /** Steps behind the end of the workspace do not matter. */
  lemma SetUpStays(defs: seq<StepDef>, more: seq<StepDef>, lo: nat, hi: nat, ws: Workspace, actions: seq<Action>)
    requires SetsUp(defs, lo, hi, ws, actions)
    ensures SetsUp(defs + more, lo, hi, ws, actions)
  {
    assert (defs + more)[lo + 1..hi] == defs[lo + 1..hi];
  }

  lemma {:induction false} AllAreSetUp(workspaces: seq<Workspace>, configs: Configs) returns (starts: seq<nat>)
    ensures SetsUpAll(StepsBeforeClaude(workspaces, configs), workspaces, configs, starts)
  {
    if workspaces == [] {
      starts := [1];
    } else {
      var n := |workspaces| - 1;
      var before, ws := StepsBeforeClaude(workspaces[..n], configs), workspaces[n];
      var earlier := AllAreSetUp(workspaces[..n], configs);
      starts := earlier + [|before + WorkspaceSteps(ws, ActionsOf(configs, ws), |before|)|];
      OneMoreIsSetUp(before, workspaces, configs, earlier);
    }
  }

  lemma OneMoreIsSetUp(before: seq<StepDef>, workspaces: seq<Workspace>, configs: Configs, starts: seq<nat>)
    requires workspaces != [] && SetsUpAll(before, workspaces[..|workspaces| - 1], configs, starts)
    ensures var ws := workspaces[|workspaces| - 1];
            var defs := before + WorkspaceSteps(ws, ActionsOf(configs, ws), |before|);
            SetsUpAll(defs, workspaces, configs, starts + [|defs|])
  {
    var n := |workspaces| - 1;
    var steps := WorkspaceSteps(workspaces[n], ActionsOf(configs, workspaces[n]), |before|);
    WorkspaceIsSetUp(before, workspaces[n], ActionsOf(configs, workspaces[n]));
    forall i | 0 <= i < n
      ensures SetsUp(before + steps, starts[i], starts[i + 1], workspaces[i], ActionsOf(configs, workspaces[i]))
    {
      assert workspaces[..n][i] == workspaces[i];
      SetUpStays(before, steps, starts[i], starts[i + 1], workspaces[i], ActionsOf(configs, workspaces[i]));
    }
  }

  /** The plans do that: the worktree steps carry the ids of the workspaces in
      order, and the copies and installs between one and the next carry its id
      and its configured actions in order, and nothing else. */
  lemma PlansSetUp(workspaces: seq<Workspace>, configs: Configs)
    ensures IsPlan(WorkspacePlan(workspaces, configs), workspaces, configs, false)
    ensures IsPlan(SessionPlan(workspaces, configs), workspaces, configs, true)
  {
    var before := StepsBeforeClaude(workspaces, configs);
    var starts := AllAreSetUp(workspaces, configs);
    CompletesPlan(before, workspaces, configs, starts);
  }

  lemma CompletesPlan(before: seq<StepDef>, workspaces: seq<Workspace>, configs: Configs, starts: seq<nat>)
    requires SetsUpAll(before, workspaces, configs, starts)
    ensures IsPlan(before + [APPLY_CLAUDE_STEP], workspaces, configs, false)
    ensures IsPlan(before + [APPLY_CLAUDE_STEP] + [StepDef(SetupMux, None, Some(|before|), false, None)],
                   workspaces, configs, true)
  {
    var mux := StepDef(SetupMux, None, Some(|before|), false, None);
    assert (before + [APPLY_CLAUDE_STEP])[..|before|] == before;
    assert (before + [APPLY_CLAUDE_STEP] + [mux])[..|before|] == before;
  }

  // --- what every plan looks like ------------------------------------------

  /** A step that belongs to a workspace. */
  predicate WorkspaceStep(d: StepDef) {
    d.kind in {SetupWorktree, CopyFile, InstallDeps} && d.workspace.Some?
  }

  /** A plan whose Claude step is at `claude`: the session directory first,
      workspace steps in between, optionally the terminal session last. Every
      dependency points back, and no foreground step waits for a background
      one. */
  ghost predicate Shape(defs: seq<StepDef>, claude: nat) {
    && 0 < claude < |defs| <= claude + 2
    && defs[0].kind == CreateSessionDir && defs[0].workspace == None && !defs[0].background
    && defs[claude] == APPLY_CLAUDE_STEP
    && (forall i :: 0 < i < claude ==>
          && WorkspaceStep(defs[i]) && defs[i].dependsOn.Some? && defs[i].dependsOn.value < i
          && (defs[i].background ==> defs[i].kind == InstallDeps)
          && (!defs[i].background ==> !defs[defs[i].dependsOn.value].background))
    && (|defs| == claude + 2 ==> defs[claude + 1] == StepDef(SetupMux, None, Some(claude), false, None))
  }

  ghost predicate PrefixShape(defs: seq<StepDef>) {
    && |defs| > 0 && defs[0] == SESSION_DIR_STEP
    && (forall i :: 0 < i < |defs| ==>
          && WorkspaceStep(defs[i]) && defs[i].dependsOn.Some? && defs[i].dependsOn.value < i
          && (defs[i].background <==> defs[i].kind == InstallDeps)
          && (!defs[i].background ==> !defs[defs[i].dependsOn.value].background))
  }

  lemma {:induction false} PrefixHasShape(workspaces: seq<Workspace>, configs: Configs)
    ensures PrefixShape(StepsBeforeClaude(workspaces, configs))
  {
    if workspaces != [] {
      var before := StepsBeforeClaude(workspaces[..|workspaces| - 1], configs);
      var ws := workspaces[|workspaces| - 1];
      PrefixHasShape(workspaces[..|workspaces| - 1], configs);
      ExtendShape(before, ws, ActionsOf(configs, ws));
    }
  }

  lemma ExtendShape(before: seq<StepDef>, ws: Workspace, actions: seq<Action>)
    requires PrefixShape(before)
    ensures PrefixShape(before + WorkspaceSteps(ws, actions, |before|))
  {
    var steps := WorkspaceSteps(ws, actions, |before|);
    var copies := |Only(actions, CopyAction)|;
    var defs := before + steps;
    forall i | |before| <= i < |defs|
      ensures WorkspaceStep(defs[i]) && defs[i].dependsOn.Some? && defs[i].dependsOn.value < i
      ensures defs[i].background <==> defs[i].kind == InstallDeps
      ensures !defs[i].background ==> !defs[defs[i].dependsOn.value].background
    {
      assert defs[i] == steps[i - |before|];
      if |before| < i <= |before| + copies {
        assert defs[i - 1] == steps[i - 1 - |before|];
      }
    }
  }

  /** Every plan the builders produce, with or without the background flags
      cleared, has the shape the scheduler relies on. */
  lemma PlansHaveShape(workspaces: seq<Workspace>, configs: Configs)
    ensures var claude := |StepsBeforeClaude(workspaces, configs)|;
            && Shape(WorkspacePlan(workspaces, configs), claude)
            && Shape(SessionPlan(workspaces, configs), claude)
            && Shape(InForeground(WorkspacePlan(workspaces, configs)), claude)
            && Shape(InForeground(SessionPlan(workspaces, configs)), claude)
  {
    PrefixHasShape(workspaces, configs);
    CompletesShape(StepsBeforeClaude(workspaces, configs));
    var before := StepsBeforeClaude(workspaces, configs);
    ForegroundShape(WorkspacePlan(workspaces, configs), |before|);
    ForegroundShape(SessionPlan(workspaces, configs), |before|);
  }

  lemma CompletesShape(before: seq<StepDef>)
    requires PrefixShape(before)
    ensures Shape(before + [APPLY_CLAUDE_STEP], |before|)
    ensures Shape(before + [APPLY_CLAUDE_STEP] + [StepDef(SetupMux, None, Some(|before|), false, None)], |before|)
  {}

  lemma ForegroundShape(defs: seq<StepDef>, claude: nat)
    requires Shape(defs, claude)
    ensures Shape(InForeground(defs), claude)
  {}

  // --- background steps behind background steps -----------------------------

  /** No background step waits for another background step. */
  ghost predicate Unchained(defs: seq<StepDef>) {
    forall i :: 0 <= i < |defs| && defs[i].background && defs[i].dependsOn.Some? && defs[i].dependsOn.value < |defs| ==>
      !defs[defs[i].dependsOn.value].background
  }

  /** No workspace configures two install actions. */
  predicate OneInstallEach(workspaces: seq<Workspace>, configs: Configs) {
    forall ws :: ws in workspaces ==> |Only(ActionsOf(configs, ws), InstallAction)| <= 1
  }

  lemma {:induction false} PrefixIsUnchained(workspaces: seq<Workspace>, configs: Configs)
    requires workspaces != []
    ensures Unchained(StepsBeforeClaude(workspaces, configs)) <==>
              && Unchained(StepsBeforeClaude(workspaces[..|workspaces| - 1], configs))
              && |Only(ActionsOf(configs, workspaces[|workspaces| - 1]), InstallAction)| <= 1
  {
    var init, ws := workspaces[..|workspaces| - 1], workspaces[|workspaces| - 1];
    PrefixHasShape(init, configs);
    WorkspaceUnchained(StepsBeforeClaude(init, configs), ws, ActionsOf(configs, ws));
  }

  lemma WorkspaceUnchained(before: seq<StepDef>, ws: Workspace, actions: seq<Action>)
    requires PrefixShape(before)
    ensures Unchained(before + WorkspaceSteps(ws, actions, |before|)) <==>
            Unchained(before) && |Only(actions, InstallAction)| <= 1
  {
    var steps := WorkspaceSteps(ws, actions, |before|);
    var defs := before + steps;
    var first := |before| + 1 + |Only(actions, CopyAction)|;
    forall i | |before| <= i < |defs| ensures defs[i].background <==> first <= i {
      assert defs[i] == steps[i - |before|];
    }
    forall i | first <= i < |defs| ensures defs[i].dependsOn == Some(i - 1) {
      assert defs[i] == steps[i - |before|];
    }
    forall i | 0 <= i < |before| ensures defs[i] == before[i] {}
    if |Only(actions, InstallAction)| > 1 {
      assert defs[first + 1].background && defs[first + 1].dependsOn == Some(first);
    }
    if !Unchained(before) {
      var i :| 0 <= i < |before| && before[i].background
               && before[i].dependsOn.Some? && before[i].dependsOn.value < |before|
               && before[before[i].dependsOn.value].background;
      assert defs[i].background && defs[defs[i].dependsOn.value].background;
    }
  }

  lemma {:induction false} PrefixUnchained(workspaces: seq<Workspace>, configs: Configs)
    ensures Unchained(StepsBeforeClaude(workspaces, configs)) <==> OneInstallEach(workspaces, configs)
  {
    if workspaces != [] {
      PrefixUnchained(workspaces[..|workspaces| - 1], configs);
      PrefixIsUnchained(workspaces, configs);
      OneMoreWorkspace(workspaces, configs);
    }
  }

  lemma OneMoreWorkspace(workspaces: seq<Workspace>, configs: Configs)
    requires workspaces != []
    ensures OneInstallEach(workspaces, configs) <==>
              && OneInstallEach(workspaces[..|workspaces| - 1], configs)
              && |Only(ActionsOf(configs, workspaces[|workspaces| - 1]), InstallAction)| <= 1
  {
    assert workspaces == workspaces[..|workspaces| - 1] + [workspaces[|workspaces| - 1]];
  }

  /** In both plans a background step waits for another exactly if some
      workspace configures two installs. */
  lemma UnchainedIff(workspaces: seq<Workspace>, configs: Configs)
    ensures Unchained(WorkspacePlan(workspaces, configs)) <==> OneInstallEach(workspaces, configs)
    ensures Unchained(SessionPlan(workspaces, configs)) <==> OneInstallEach(workspaces, configs)
  {
    PrefixHasShape(workspaces, configs);
    PrefixUnchained(workspaces, configs);
    TailsUnchained(StepsBeforeClaude(workspaces, configs));
  }

  lemma TailsUnchained(before: seq<StepDef>)
    requires PrefixShape(before)
    ensures Unchained(before + [APPLY_CLAUDE_STEP]) <==> Unchained(before)
    ensures Unchained(before + [APPLY_CLAUDE_STEP] + [StepDef(SetupMux, None, Some(|before|), false, None)]) <==>
            Unchained(before)
  {
    var mux := StepDef(SetupMux, None, Some(|before|), false, None);
    TailUnchained(before, [APPLY_CLAUDE_STEP]);
    TailUnchained(before, [APPLY_CLAUDE_STEP] + [mux]);
    Assoc(before, [APPLY_CLAUDE_STEP], [mux]);
  }

  lemma TailUnchained(before: seq<StepDef>, tail: seq<StepDef>)
    requires PrefixShape(before) && forall i :: 0 <= i < |tail| ==> !tail[i].background
    ensures Unchained(before + tail) <==> Unchained(before)
  {
    var defs := before + tail;
    forall i | 0 <= i < |before| ensures defs[i] == before[i] {}
    if !Unchained(before) {
      var i :| 0 <= i < |before| && before[i].background
               && before[i].dependsOn.Some? && before[i].dependsOn.value < |before|
               && before[before[i].dependsOn.value].background;
      assert defs[i].background && defs[defs[i].dependsOn.value].background;
    }
  }

  /** It is the same plan, step by step, with nothing left in the background. */
  lemma ForegroundIsSamePlan(defs: seq<StepDef>, i: nat)
    requires i < |defs|
    ensures |InForeground(defs)| == |defs| && !InForeground(defs)[i].background
    ensures InForeground(defs)[i].(background := defs[i].background) == defs[i]
  {
  }

  /** The plan of a daemon that runs setups in the foreground. */
  function InForeground(defs: seq<StepDef>): seq<StepDef> {
    seq(|defs|, i requires 0 <= i < |defs| => defs[i].(background := false))
  }
}

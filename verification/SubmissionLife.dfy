/** The life of a submission: it gives its lock back, it ends, and what it leaves is free again. */
module SubmissionLife {
  import opened Basics
  import opened Files
  import opened Paths
  import opened WorkspacePaths
  import opened SessionSpec
  import opened TaskRegistry
  import opened Submissions
  import opened Isolation

  ghost predicate NoStepLeft(root: Path, s: State, t: nat) {
    forall a :: !Enabled(root, s, t, a)
  }

  // ----- giving the lock back

  lemma ReleaseStep(root: Path, s: State, t: nat, key: string)
    requires IsRoot(root) && Enabled(root, s, t, Release) && Holds(s.tasks[t], key)
    ensures var n := Step(root, s, t, Release);
            && n.locked == s.locked - {key}
            && n.tasks == s.tasks[t := n.tasks[t]]
            && n.tasks[t].phase.Gone? && n.tasks[t].guard == s.tasks[t].guard.(key := None)
  {
  }

  lemma GoneIsOver(root: Path, s: State, t: nat)
    requires t in s.tasks && s.tasks[t].phase.Gone?
    ensures NoStepLeft(root, s, t)
  {
  }

  /** A submission that releases its workspace frees it: the key leaves the lock set, nobody holds it,
      and the submission holds nothing and has no step left. */
  lemma ReleaseFrees(root: Path, s: State, t: nat, key: string)
    requires IsRoot(root) && Inv(root, s) && Enabled(root, s, t, Release) && Holds(s.tasks[t], key)
    ensures var n := Step(root, s, t, Release);
            && n.locked == s.locked - {key} && key !in n.locked
            && (forall u :: u in n.tasks ==> !Holds(n.tasks[u], key))
            && n.tasks[t].guard == Guard(None, None)
            && NoStepLeft(root, n, t)
  {
    assert TaskOk(root, s.tasks[t]);
    ReleaseStep(root, s, t, key);
    var n := Step(root, s, t, Release);
    GoneIsOver(root, n, t);
    forall u | u in n.tasks ensures !Holds(n.tasks[u], key) {
      if u != t {
        assert u in s.tasks && n.tasks[u] == s.tasks[u] && !Holds(s.tasks[u], key);
      }
    }
  }

  // ----- every submission ends

  /** How many steps, uploads apart, a submission still has ahead of it at most. */
  function StepsAhead(task: Task): nat {
    match task.phase
    case Receiving => if task.paths.None? then 9 else 8
    case Executing => 7
    case Forked => 6
    case Running => 5
    case Exited => 4
    case Destructing => 2
    case Unlocking => 1
    case Gone => 0
  }

  lemma StepsCountDown(root: Path, s: State, t: nat, a: Action)
    requires IsRoot(root) && Enabled(root, s, t, a) && t in s.tasks
    ensures var n := Step(root, s, t, a);
            if a.Upload? then n.tasks[t] == s.tasks[t] else StepsAhead(n.tasks[t]) < StepsAhead(s.tasks[t])
  {
    if a.Configure? { ConfigureCountsDown(root, s, t, a.workspaceSubdir, a.outputSubdir); }
  }

  lemma ConfigureCountsDown(root: Path, s: State, t: nat, workspaceSubdir: string, outputSubdir: string)
    requires IsRoot(root) && t in s.tasks && s.tasks[t].phase.Receiving?
    ensures var n := Step(root, s, t, Configure(workspaceSubdir, outputSubdir));
            StepsAhead(n.tasks[t]) < StepsAhead(s.tasks[t])
  {
  }

  /** The steps of one submission in a run, uploads apart. */
  function StepsTaken(t: nat, steps: seq<(nat, Action)>): nat {
    if steps == [] then 0
    else (if steps[0].0 == t && !steps[0].1.Upload? then 1 else 0) + StepsTaken(t, steps[1..])
  }

  lemma {:induction false} StepsAreBounded(root: Path, s: State, t: nat, steps: seq<(nat, Action)>)
    requires IsRoot(root) && Inv(root, s) && Run(root, s, steps)
    ensures t in s.tasks ==> StepsTaken(t, steps) <= StepsAhead(s.tasks[t])
    ensures t !in s.tasks ==> StepsTaken(t, steps) <= 10
    decreases |steps|
  {
    if steps != [] {
      var u, a := steps[0].0, steps[0].1;
      StepKeepsInv(root, s, u, a);
      OnlyOneTask(root, s, u, a);
      if u in s.tasks { StepsCountDown(root, s, u, a); }
      StepsAreBounded(root, Step(root, s, u, a), t, steps[1..]);
    }
  }

  /** However many submissions there are and however they interleave, each takes at most ten steps
      besides its uploads. */
  lemma SubmissionsEnd(root: Path, fs: FileSystem, t: nat, steps: seq<(nat, Action)>)
    requires IsRoot(root) && Run(root, Initial(fs), steps)
    ensures StepsTaken(t, steps) <= 10
  {
    StepsAreBounded(root, Initial(fs), t, steps);
  }

  /** A submission that has arrived can go on until it has given everything back; one that can go no
      further holds no lock and owes no cleanup. */
  lemma StuckIffGone(root: Path, s: State, t: nat)
    requires IsRoot(root) && Inv(root, s) && t in s.tasks
    ensures NoStepLeft(root, s, t) <==> s.tasks[t].phase.Gone?
    ensures s.tasks[t].phase.Gone? ==> s.tasks[t].guard == Guard(None, None)
  {
    assert TaskOk(root, s.tasks[t]);
    match s.tasks[t].phase
    case Receiving => assert Enabled(root, s, t, EndReceive(false));
    case Executing => assert Enabled(root, s, t, Fork(0));
    case Forked => assert Enabled(root, s, t, Register);
    case Running => assert Enabled(root, s, t, MonitorReturns);
    case Exited => assert Enabled(root, s, t, Unregister);
    case Destructing => assert Enabled(root, s, t, Cleanup);
    case Unlocking => assert Enabled(root, s, t, Release);
    case Gone =>
  }

  ghost predicate AllEnded(root: Path, s: State) {
    forall t :: t in s.tasks ==> NoStepLeft(root, s, t)
  }

  /** When every submission that has arrived can go no further, no lock and no registration is left. */
  lemma AllEndedLeavesNothing(root: Path, fs: FileSystem, steps: seq<(nat, Action)>)
    requires IsRoot(root) && Run(root, Initial(fs), steps)
    requires AllEnded(root, After(root, Initial(fs), steps))
    ensures After(root, Initial(fs), steps).locked == {} && After(root, Initial(fs), steps).pgids == map[]
  {
    var s := After(root, Initial(fs), steps);
    RunKeepsInv(root, Initial(fs), steps);
    forall t | t in s.tasks ensures s.tasks[t].phase.Gone? && s.tasks[t].guard.key == None {
      assert NoStepLeft(root, s, t);
      StuckIffGone(root, s, t);
    }
    assert s.locked == {} && s.pgids.Keys == {};
  }

  // ----- a workspace can be used again

  /** After a release, a new submission that asks for the same workspace gets it. */
  lemma ReleasedWorkspaceGoesLiveAgain(root: Path, s: State, t: nat, a: Action, u: nat)
    requires IsRoot(root) && Inv(root, s) && Enabled(root, s, t, Release)
    requires a.Configure? && ResolveTaskPaths(root, a.workspaceSubdir, a.outputSubdir).Accepted?
    requires Holds(s.tasks[t], ResolveTaskPaths(root, a.workspaceSubdir, a.outputSubdir).paths.workspaceKey)
    requires u !in s.tasks
    ensures var p := ResolveTaskPaths(root, a.workspaceSubdir, a.outputSubdir).paths;
            var steps := [(t, Release), (u, Arrive), (u, a)];
            && Run(root, s, steps)
            && Live(After(root, s, steps), u) && Holds(After(root, s, steps).tasks[u], p.workspaceKey)
            && After(root, s, steps).tasks[u].paths == Some(p)
  {
    var key := ResolveTaskPaths(root, a.workspaceSubdir, a.outputSubdir).paths.workspaceKey;
    ReleaseFrees(root, s, t, key);
    var n := Step(root, s, t, Release);
    ConfigureGoesLive(root, n, u, a);
    StepKeepsInv(root, s, t, Release);
    OneStep(root, s, t, Release);
    RunAppend(root, s, [(t, Release)], [(u, Arrive), (u, a)]);
    RunKeepsInv(root, n, [(u, Arrive), (u, a)]);
    assert [(t, Release)] + [(u, Arrive), (u, a)] == [(t, Release), (u, Arrive), (u, a)];
    assert TaskOk(root, After(root, n, [(u, Arrive), (u, a)]).tasks[u]);
  }

  // ----- whose process is registered

  /** The process the submission's own fork returned last. */
  function ForkedBy(t: nat, steps: seq<(nat, Action)>): int {
    if steps == [] then 0
    else
      var last := steps[|steps| - 1];
      if last.0 == t && last.1.Fork? then last.1.child else ForkedBy(t, steps[..|steps| - 1])
  }

  ghost predicate HasChild(task: Task, child: int) {
    task.phase.Forked? || InRegistry(task) ==> task.pid == child > 0
  }

  lemma {:induction false} RunSplitsLast(root: Path, s: State, steps: seq<(nat, Action)>)
    requires IsRoot(root) && steps != [] && Run(root, s, steps)
    ensures var front, last := steps[..|steps| - 1], steps[|steps| - 1];
            && Run(root, s, front) && Enabled(root, After(root, s, front), last.0, last.1)
            && After(root, s, steps) == Step(root, After(root, s, front), last.0, last.1)
    decreases |steps|
  {
    var front := steps[..|steps| - 1];
    if |steps| == 1 {
      assert front == [] && steps[1..] == [];
    } else {
      RunSplitsLast(root, Step(root, s, steps[0].0, steps[0].1), steps[1..]);
      assert steps[1..][..|steps| - 2] == front[1..];
      assert steps[1..][|steps| - 2] == steps[|steps| - 1];
    }
  }

  lemma {:induction false} ChildIsOwn(root: Path, fs: FileSystem, t: nat, steps: seq<(nat, Action)>)
    requires IsRoot(root) && Run(root, Initial(fs), steps)
    ensures var s := After(root, Initial(fs), steps);
            t in s.tasks ==> HasChild(s.tasks[t], ForkedBy(t, steps))
    decreases |steps|
  {
    if steps != [] {
      var front, last := steps[..|steps| - 1], steps[|steps| - 1];
      RunSplitsLast(root, Initial(fs), steps);
      ChildIsOwn(root, fs, t, front);
      ChildStep(root, After(root, Initial(fs), front), last.0, last.1);
    }
  }

  lemma ChildStep(root: Path, s: State, t: nat, a: Action)
    requires IsRoot(root) && Enabled(root, s, t, a)
    ensures var n := Step(root, s, t, a);
            && t in n.tasks
            && (forall u :: u != t ==> (u in n.tasks <==> u in s.tasks))
            && (forall u :: u != t && u in s.tasks ==> n.tasks[u] == s.tasks[u])
            && (a.Fork? ==> HasChild(n.tasks[t], a.child) && (a.child > 0 <==> n.tasks[t].phase.Forked?))
            && (!a.Fork? && (n.tasks[t].phase.Forked? || InRegistry(n.tasks[t])) ==>
                  && t in s.tasks && (s.tasks[t].phase.Forked? || InRegistry(s.tasks[t]))
                  && n.tasks[t].pid == s.tasks[t].pid)
  {
  }

  /** After any interleaving, the group registered for a workspace is the process that the submission
      holding the workspace started itself. */
  lemma RegisteredGroupIsOwnChild(root: Path, fs: FileSystem, steps: seq<(nat, Action)>, key: string)
    requires IsRoot(root) && Run(root, Initial(fs), steps) && key in After(root, Initial(fs), steps).pgids
    ensures var s := After(root, Initial(fs), steps);
            exists t :: t in s.tasks && Holds(s.tasks[t], key) && s.pgids[key] == ForkedBy(t, steps) > 0
  {
    var s := After(root, Initial(fs), steps);
    RunKeepsInv(root, Initial(fs), steps);
    var t :| t in s.tasks && InRegistry(s.tasks[t]) && Holds(s.tasks[t], key);
    ChildIsOwn(root, fs, t, steps);
  }

  // ----- the registry's two operations

  /** Registering and unregistering touch one key; the second undoes the first, and a group that is not
      registered for the key takes nothing away. */
  lemma RegistryRoundTrip(pgids: map<string, int>, key: string, pgid: int, other: int)
    requires key != "" && pgid > 0
    ensures Registered(pgids, key, pgid).Keys == pgids.Keys + {key} && Registered(pgids, key, pgid)[key] == pgid
    ensures Unregistered(Registered(pgids, key, pgid), key, pgid) == pgids - {key}
    ensures other > 0 && other != pgid ==>
              Unregistered(Registered(pgids, key, pgid), key, other) == Registered(pgids, key, pgid)
    ensures other <= 0 ==> Unregistered(Registered(pgids, key, pgid), key, other) == pgids - {key}
    ensures Registered(pgids, "", pgid) == Unregistered(pgids, "", pgid) == pgids
    ensures other <= 0 ==> Registered(pgids, key, other) == pgids
  {
    assert Registered(pgids, key, pgid) - {key} == pgids - {key};
  }
}

/** Any number of submissions at once, each going through lock, upload, execution and cleanup, over
    the shared lock set, process-group registry and disk. Each critical section is one step, so a
    list of `Action`s is one interleaving of all the submissions. */
module Submissions {
  import opened Basics
  import opened Files
  import opened Paths
  import opened WorkspacePaths
  import opened ChunkWriter
  import opened SessionSpec
  import opened TaskRegistry

  datatype Phase = Receiving | Executing | Forked | Running | Exited | Destructing | Unlocking | Gone

  datatype Task = Task(phase: Phase, guard: Guard, paths: Option<Resolved>, pid: int)

  datatype State = State(tasks: map<nat, Task>, locked: set<string>, pgids: map<string, int>, fs: FileSystem)

  datatype Action =
    | Arrive
    | Configure(workspaceSubdir: string, outputSubdir: string)
    | Upload(file: Names, data: seq<Byte>)  // what an accepted chunk leaves in its file
    | EndReceive(ok: bool)
    | Fork(child: int)  // any process id the system picks; zero or less if no child could be started
    | Register
    | MonitorReturns
    | Unregister
    | Cleanup
    | Release

  function SessionOf(s: State, task: Task): Session {
    Session(task.paths, Writer(false, NO_PATH, s.fs), task.guard, s.locked)
  }

  predicate Enabled(root: Path, s: State, t: nat, a: Action) {
    if a.Arrive? then t !in s.tasks
    else
      && t in s.tasks
      && var task := s.tasks[t];
         match a
         case Arrive => false
         case Configure(_, _) => task.phase.Receiving?
         case Upload(f, _) => task.phase.Receiving? && task.paths.Some? && task.paths.value.workspace.names <= f
         case EndReceive(ok) => task.phase.Receiving? && (ok ==> task.paths.Some?)
         case Fork(_) => task.phase.Executing?
         case Register => task.phase.Forked?
         case MonitorReturns => task.phase.Running?
         case Unregister => task.phase.Exited?
         case Cleanup => task.phase.Destructing?
         case Release => task.phase.Unlocking?
  }

  function Put(s: State, t: nat, task: Task): State {
    s.(tasks := s.tasks[t := task])
  }

  /** The workspace key the executor was configured with. */
  function ConfiguredKey(task: Task): string {
    if task.paths.Some? then task.paths.value.workspaceKey else ""
  }

  function Step(root: Path, s: State, t: nat, a: Action): State
    requires IsRoot(root)
    requires if a.Arrive? then t !in s.tasks else t in s.tasks
  {
    match a
    case Arrive => Put(s, t, Task(Receiving, Guard(None, None), None, 0))
    case Configure(w, o) =>
      var task := s.tasks[t];
      var (session, status) := HandleConfig(root, SessionOf(s, task), w, o);
      var next := Task(if status == Ok then Receiving else Destructing, session.guard, session.paths, 0);
      Put(s, t, next).(locked := session.locked)
    case Upload(f, data) => s.(fs := s.fs.(files := s.fs.files[f := data]))
    case EndReceive(ok) => Put(s, t, s.tasks[t].(phase := if ok then Executing else Destructing))
    case Fork(child) =>
      Put(s, t, if child > 0 then s.tasks[t].(phase := Forked, pid := child) else s.tasks[t].(phase := Destructing))
    case Register =>
      var task := s.tasks[t];
      Put(s, t, task.(phase := Running)).(pgids := Registered(s.pgids, ConfiguredKey(task), task.pid))
    case MonitorReturns => Put(s, t, s.tasks[t].(phase := Exited))
    case Unregister =>
      var task := s.tasks[t];
      Put(s, t, task.(phase := Destructing)).(pgids := Unregistered(s.pgids, ConfiguredKey(task), task.pid))
    case Cleanup =>
      var task := s.tasks[t];
      Put(s, t, task.(phase := Unlocking, guard := task.guard.(cleanup := None)))
        .(fs := Cleaned(root, task.guard, s.fs))
    case Release =>
      var task := s.tasks[t];
      Put(s, t, task.(phase := Gone, guard := task.guard.(key := None)))
        .(locked := s.locked - (if task.guard.key.Some? then {task.guard.key.value} else {}))
  }

  function Initial(fs: FileSystem): State {
    State(map[], {}, map[], fs)
  }

  /** A run: which submission takes which step. */
  ghost predicate Run(root: Path, s: State, steps: seq<(nat, Action)>)
    requires IsRoot(root)
    decreases |steps|
  {
    steps == [] ||
    (Enabled(root, s, steps[0].0, steps[0].1) && Run(root, Step(root, s, steps[0].0, steps[0].1), steps[1..]))
  }

  ghost function After(root: Path, s: State, steps: seq<(nat, Action)>): State
    requires IsRoot(root) && Run(root, s, steps)
    decreases |steps|
  {
    if steps == [] then s else After(root, Step(root, s, steps[0].0, steps[0].1), steps[1..])
  }

  // ----- the invariant

  ghost predicate Holds(task: Task, key: string) {
    task.guard.key == Some(key)
  }

  /** The lock set is exactly the keys of the live locked guards, no two of which share a key. */
  ghost predicate LocksCoherent(s: State) {
    && (forall t, k :: t in s.tasks && Holds(s.tasks[t], k) ==> k in s.locked)
    && (forall k :: k in s.locked ==> exists t :: t in s.tasks && Holds(s.tasks[t], k))
    && (forall t, u, k :: t in s.tasks && u in s.tasks && Holds(s.tasks[t], k) && Holds(s.tasks[u], k) ==> t == u)
  }

  ghost predicate InRegistry(task: Task) {
    task.phase.Running? || task.phase.Exited?
  }

  /** The registry has exactly the running submissions, each with its own process group. */
  ghost predicate RegistryCoherent(s: State) {
    && (forall t, k :: t in s.tasks && InRegistry(s.tasks[t]) && Holds(s.tasks[t], k) ==>
          k in s.pgids && s.pgids[k] == s.tasks[t].pid)
    && (forall k :: k in s.pgids ==>
          exists t :: t in s.tasks && InRegistry(s.tasks[t]) && Holds(s.tasks[t], k))
  }

  /** What one submission holds at each phase. */
  ghost predicate TaskOk(root: Path, task: Task) {
    && (task.paths.Some? ==>
          && Below(root, task.paths.value.workspace) && Below(root, task.paths.value.output)
          && task.paths.value.workspaceKey == KeyOf(root, task.paths.value.workspace) != ""
          && task.paths.value.outputKey == KeyOf(root, task.paths.value.output))
    && (task.phase.Executing? || task.phase.Forked? || InRegistry(task) ==> task.paths.Some?)
    && (!task.phase.Gone? ==> task.guard.key == if task.paths.Some? then Some(task.paths.value.workspaceKey) else None)
    && (task.phase.Gone? ==> task.guard.key == None)
    && (task.guard.cleanup.Some? ==>
          task.paths.Some? && task.guard.cleanup == Some((task.paths.value.workspaceKey, task.paths.value.outputKey)))
    && (!task.phase.Unlocking? && !task.phase.Gone? && task.paths.Some? ==> task.guard.cleanup.Some?)
    && (task.phase.Unlocking? || task.phase.Gone? ==> task.guard.cleanup == None)
    && (task.phase.Forked? || InRegistry(task) ==> task.pid > 0)
  }

  ghost predicate Inv(root: Path, s: State) {
    && LocksCoherent(s)
    && RegistryCoherent(s)
    && (forall t :: t in s.tasks ==> TaskOk(root, s.tasks[t]))
  }

  lemma ConfigureKeepsOk(root: Path, s: State, t: nat, workspaceSubdir: string, outputSubdir: string)
    requires IsRoot(root) && t in s.tasks && s.tasks[t].phase.Receiving? && TaskOk(root, s.tasks[t])
    ensures TaskOk(root, Step(root, s, t, Configure(workspaceSubdir, outputSubdir)).tasks[t])
  {
    if ResolveTaskPaths(root, workspaceSubdir, outputSubdir).Accepted? {
      AcceptedIsBelow(root, workspaceSubdir, outputSubdir);
      KeyNotEmpty(root, ResolveTaskPaths(root, workspaceSubdir, outputSubdir).paths.workspace);
    }
  }

  lemma TaskStaysOk(root: Path, s: State, t: nat, a: Action)
    requires IsRoot(root) && Enabled(root, s, t, a)
    requires t in s.tasks ==> TaskOk(root, s.tasks[t])
    ensures TaskOk(root, Step(root, s, t, a).tasks[t])
  {
    if a.Configure? {
      ConfigureKeepsOk(root, s, t, a.workspaceSubdir, a.outputSubdir);
    }
  }

  /** The guard's key changes only by taking a free key, or by giving one back. */
  lemma KeyChange(root: Path, s: State, t: nat, a: Action)
    requires IsRoot(root) && Enabled(root, s, t, a)
    requires t in s.tasks ==> TaskOk(root, s.tasks[t])
    ensures var before := if t in s.tasks then s.tasks[t].guard.key else None;
            var n := Step(root, s, t, a);
            var after := n.tasks[t].guard.key;
            || (after == before && n.locked == s.locked)
            || (before == None && after.Some? && after.value !in s.locked && n.locked == s.locked + {after.value})
            || (a.Release? && before.Some? && after == None && n.locked == s.locked - {before.value})
  {
  }

  lemma OnlyOneTask(root: Path, s: State, t: nat, a: Action)
    requires IsRoot(root) && Enabled(root, s, t, a)
    ensures var n := Step(root, s, t, a); t in n.tasks && n.tasks == s.tasks[t := n.tasks[t]]
  {
  }

  /** Taking a free key or giving one back keeps the lock set coherent. */
  lemma LocksKept(s: State, n: State, t: nat)
    requires LocksCoherent(s) && t in n.tasks && n.tasks == s.tasks[t := n.tasks[t]]
    requires var before := if t in s.tasks then s.tasks[t].guard.key else None;
             var after := n.tasks[t].guard.key;
             || (after == before && n.locked == s.locked)
             || (before == None && after.Some? && after.value !in s.locked && n.locked == s.locked + {after.value})
             || (before.Some? && after == None && n.locked == s.locked - {before.value})
    ensures LocksCoherent(n)
  {
    forall k | k in n.locked
      ensures exists u :: u in n.tasks && Holds(n.tasks[u], k)
    {
      if !Holds(n.tasks[t], k) {
        var u :| u in s.tasks && Holds(s.tasks[u], k);
        assert u != t && Holds(n.tasks[u], k);
      }
    }
  }

  /** No registered group can be under the key of a submission that is not running. */
  lemma NotRegistered(s: State, t: nat, k: string)
    requires LocksCoherent(s) && RegistryCoherent(s)
    requires t in s.tasks && Holds(s.tasks[t], k) && !InRegistry(s.tasks[t])
    ensures k !in s.pgids
  {
  }

  /** Register finds its key free and Unregister finds its own entry, in every interleaving and
      whatever process ids the system hands out. */
  lemma RegistryStep(root: Path, s: State, t: nat, a: Action)
    requires IsRoot(root) && LocksCoherent(s) && RegistryCoherent(s) && Enabled(root, s, t, a)
    requires t in s.tasks ==> TaskOk(root, s.tasks[t])
    ensures var n := Step(root, s, t, a);
            match a
            case Register => var k := ConfiguredKey(s.tasks[t]);
              k !in s.pgids && n.pgids == s.pgids[k := s.tasks[t].pid]
            case Unregister => var k := ConfiguredKey(s.tasks[t]);
              k in s.pgids && s.pgids[k] == s.tasks[t].pid && n.pgids == s.pgids - {k}
            case _ => n.pgids == s.pgids
  {
    if a.Register? {
      NotRegistered(s, t, ConfiguredKey(s.tasks[t]));
    }
  }

  /** Phases and keys of the submission that moved, as far as the registry is concerned. */
  lemma RegistryPhases(root: Path, s: State, t: nat, a: Action)
    requires IsRoot(root) && Enabled(root, s, t, a)
    requires t in s.tasks ==> TaskOk(root, s.tasks[t])
    ensures var task := Step(root, s, t, a).tasks[t];
            match a
            case Register =>
              InRegistry(task) && task == s.tasks[t].(phase := Running) && Holds(task, ConfiguredKey(task))
            case Unregister => !InRegistry(task) && Holds(s.tasks[t], ConfiguredKey(s.tasks[t]))
            case MonitorReturns => InRegistry(task) && InRegistry(s.tasks[t]) && task == s.tasks[t].(phase := Exited)
            case _ => (!InRegistry(task) && (t in s.tasks ==> !InRegistry(s.tasks[t])))
                      || (t in s.tasks && task == s.tasks[t])
  {
  }

  lemma RegistryKept(s: State, n: State, t: nat)
    requires LocksCoherent(s) && RegistryCoherent(s) && t in n.tasks && n.tasks == s.tasks[t := n.tasks[t]]
    requires n.pgids == s.pgids
    requires t in s.tasks && InRegistry(s.tasks[t]) ==>
               n.tasks[t] == s.tasks[t].(phase := n.tasks[t].phase) && InRegistry(n.tasks[t])
    requires InRegistry(n.tasks[t]) ==> t in s.tasks && InRegistry(s.tasks[t])
    ensures RegistryCoherent(n)
  {
    forall k | k in n.pgids
      ensures exists u :: u in n.tasks && InRegistry(n.tasks[u]) && Holds(n.tasks[u], k)
    {
      var u :| u in s.tasks && InRegistry(s.tasks[u]) && Holds(s.tasks[u], k);
      assert InRegistry(n.tasks[u]) && Holds(n.tasks[u], k);
    }
  }

  lemma RegistryEntered(s: State, n: State, t: nat, k: string)
    requires RegistryCoherent(s) && t in n.tasks && n.tasks == s.tasks[t := n.tasks[t]]
    requires k !in s.pgids && n.pgids == s.pgids[k := n.tasks[t].pid]
    requires InRegistry(n.tasks[t]) && Holds(n.tasks[t], k)
    requires t in s.tasks && !InRegistry(s.tasks[t])
    ensures RegistryCoherent(n)
  {
    forall j | j in n.pgids
      ensures exists u :: u in n.tasks && InRegistry(n.tasks[u]) && Holds(n.tasks[u], j)
    {
      if j != k {
        var u :| u in s.tasks && InRegistry(s.tasks[u]) && Holds(s.tasks[u], j);
        assert u != t && InRegistry(n.tasks[u]) && Holds(n.tasks[u], j);
      }
    }
  }

  lemma RegistryLeft(s: State, n: State, t: nat, k: string)
    requires LocksCoherent(s) && RegistryCoherent(s) && t in n.tasks && n.tasks == s.tasks[t := n.tasks[t]]
    requires t in s.tasks && Holds(s.tasks[t], k) && !InRegistry(n.tasks[t])
    requires n.pgids == s.pgids - {k}
    ensures RegistryCoherent(n)
  {
    forall j | j in n.pgids
      ensures exists u :: u in n.tasks && InRegistry(n.tasks[u]) && Holds(n.tasks[u], j)
    {
      var u :| u in s.tasks && InRegistry(s.tasks[u]) && Holds(s.tasks[u], j);
      assert u != t && InRegistry(n.tasks[u]) && Holds(n.tasks[u], j);
    }
  }

  lemma StepKeepsInv(root: Path, s: State, t: nat, a: Action)
    requires IsRoot(root) && Inv(root, s) && Enabled(root, s, t, a)
    ensures Inv(root, Step(root, s, t, a))
  {
    var n := Step(root, s, t, a);
    TaskStaysOk(root, s, t, a);
    OnlyOneTask(root, s, t, a);
    KeyChange(root, s, t, a);
    LocksKept(s, n, t);
    RegistryStep(root, s, t, a);
    RegistryPhases(root, s, t, a);
    match a
    case Register => RegistryEntered(s, n, t, ConfiguredKey(s.tasks[t]));
    case Unregister => RegistryLeft(s, n, t, ConfiguredKey(s.tasks[t]));
    case _ => RegistryKept(s, n, t);
  }

  lemma {:induction false} RunKeepsInv(root: Path, s: State, steps: seq<(nat, Action)>)
    requires IsRoot(root) && Inv(root, s) && Run(root, s, steps)
    ensures Inv(root, After(root, s, steps))
    decreases |steps|
  {
    if steps != [] {
      StepKeepsInv(root, s, steps[0].0, steps[0].1);
      RunKeepsInv(root, Step(root, s, steps[0].0, steps[0].1), steps[1..]);
    }
  }

  /** The group registered for the key is that of the running submission which holds the key. */
  ghost predicate Serves(s: State, t: nat, k: string)
    requires k in s.pgids
  {
    t in s.tasks && InRegistry(s.tasks[t]) && Holds(s.tasks[t], k) && s.tasks[t].pid == s.pgids[k]
  }

  /** After any interleaving of any number of submissions: the lock set is exactly the keys of the
      submissions holding one, all different; every registered group belongs to the running
      submission that holds the workspace, so a utilization update looks up the holder's group. */
  lemma LocksAndRegistryAgree(root: Path, fs: FileSystem, steps: seq<(nat, Action)>)
    requires IsRoot(root) && Run(root, Initial(fs), steps)
    ensures var s := After(root, Initial(fs), steps);
            && LocksCoherent(s) && RegistryCoherent(s)
            && (forall k :: k in s.pgids ==> k in s.locked && exists t :: Serves(s, t, k))
  {
    var s := After(root, Initial(fs), steps);
    RunKeepsInv(root, Initial(fs), steps);
    forall k | k in s.pgids
      ensures k in s.locked && exists t :: Serves(s, t, k)
    {
      HolderServes(root, s, k);
    }
  }

  lemma HolderServes(root: Path, s: State, k: string)
    requires Inv(root, s) && k in s.pgids
    ensures k in s.locked && exists t :: Serves(s, t, k)
  {
    var t :| t in s.tasks && InRegistry(s.tasks[t]) && Holds(s.tasks[t], k);
    assert Serves(s, t, k);
  }

  /** A running submission that holds this workspace and runs in this process group. */
  ghost predicate RunsIn(s: State, t: nat, key: string, pgid: int) {
    t in s.tasks && InRegistry(s.tasks[t]) && Holds(s.tasks[t], key) && s.tasks[t].pid == pgid
  }

  /** After any interleaving, a utilization update finds a process group if and only if its value is
      in range and that is the group of a submission running in the workspace it names; with a value
      in range it finds nothing if and only if none is running there. */
  lemma LookupFindsRunning(root: Path, fs: FileSystem, steps: seq<(nat, Action)>, key: string, utilization: int)
    requires IsRoot(root) && Run(root, Initial(fs), steps)
    ensures var s := After(root, Initial(fs), steps);
            && (forall pgid :: Lookup(s.pgids, key, utilization) == Found(pgid) <==>
                  0 <= utilization <= 100 && exists t :: RunsIn(s, t, key, pgid))
            && (Lookup(s.pgids, key, utilization) == NoTask <==>
                  key != "" && 0 <= utilization <= 100 && !exists t, pgid :: RunsIn(s, t, key, pgid))
            && (Lookup(s.pgids, key, utilization) == EmptyWorkspace <==> key == "")
            && (Lookup(s.pgids, key, utilization) == BadUtilization <==> key != "" && !(0 <= utilization <= 100))
  {
    var s := After(root, Initial(fs), steps);
    RunKeepsInv(root, Initial(fs), steps);
    forall t, pgid | RunsIn(s, t, key, pgid) ensures key != "" && key in s.pgids && s.pgids[key] == pgid {
      assert TaskOk(root, s.tasks[t]);
    }
    if key in s.pgids {
      var t :| t in s.tasks && InRegistry(s.tasks[t]) && Holds(s.tasks[t], key);
      assert RunsIn(s, t, key, s.pgids[key]);
    }
  }
}

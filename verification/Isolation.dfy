/** Which files a submission can touch, and when one submission's cleanup spares another's files. */
module Isolation {
  import opened Basics
  import opened Files
  import opened Paths
  import opened WorkspacePaths
  import opened ChunkWriter
  import opened SessionSpec
  import opened Submissions

  /** The files at or below a directory are the same. */
  ghost predicate SameBelow(fs: FileSystem, later: FileSystem, dir: Names) {
    forall f: Names :: dir <= f ==>
      (f in fs.files <==> f in later.files) && (f in fs.files ==> later.files[f] == fs.files[f])
  }

  // ----- what cleanup removes

  /** Cleanup reaches, through the stored keys, exactly the two directories that were accepted, with
      all files and directories at or below them. */
  lemma CleanupRemoves(root: Path, task: Task, fs: FileSystem)
    requires IsRoot(root) && TaskOk(root, task) && task.guard.cleanup.Some?
    ensures var w, o := task.paths.value.workspace.names, task.paths.value.output.names;
            var later := Cleaned(root, task.guard, fs);
            && (forall f: Names ::
                  (f in later.files <==> f in fs.files && !(w <= f) && !(o <= f)) &&
                  (f in later.files ==> later.files[f] == fs.files[f]))
            && (forall d: Names :: d in later.dirs <==> d in fs.dirs && !(w <= d) && !(o <= d))
  {
    var p := task.paths.value;
    RejoinedKey(root, p.workspace);
    RejoinedKey(root, p.output);
    KeyNotEmpty(root, p.output);
    if p.workspaceKey == p.outputKey {
      SameKeyIff(root, p.workspace, p.output);
    }
  }

  /** A submission that holds no lock, because it was refused one or never asked, removes nothing;
      one that does still holds its key when it has removed its directories. */
  lemma OnlyHoldersRemove(root: Path, s: State, t: nat)
    requires IsRoot(root) && Inv(root, s) && Enabled(root, s, t, Cleanup)
    ensures var n := Step(root, s, t, Cleanup);
            && (s.tasks[t].guard.key == None ==> n.fs == s.fs)
            && n.tasks[t].guard.key == s.tasks[t].guard.key && n.locked == s.locked
            && (n.fs != s.fs ==> n.tasks[t].guard.key.Some? && n.tasks[t].guard.key.value in n.locked)
  {
    assert TaskOk(root, s.tasks[t]);
    if s.tasks[t].guard.key.Some? {
      assert Holds(s.tasks[t], s.tasks[t].guard.key.value);
    }
  }

  lemma CleanupSpares(root: Path, task: Task, fs: FileSystem, dir: Names)
    requires IsRoot(root) && TaskOk(root, task) && task.guard.cleanup.Some?
    requires Apart(task.paths.value.workspace.names, dir) && Apart(task.paths.value.output.names, dir)
    ensures SameBelow(fs, Cleaned(root, task.guard, fs), dir)
  {
    var w, o := task.paths.value.workspace.names, task.paths.value.output.names;
    CleanupRemoves(root, task, fs);
    forall f | f in fs.files && dir <= f ensures !(w <= f) && !(o <= f) {
      if w <= f { Comparable(w, dir, f); }
      if o <= f { Comparable(o, dir, f); }
    }
  }

  /** One file is enough to see a cleanup reach a directory above or below what it removes. */
  lemma CleanupReaches(root: Path, task: Task, target: Names, dir: Names) returns (fs: FileSystem)
    requires IsRoot(root) && TaskOk(root, task) && task.guard.cleanup.Some?
    requires target == task.paths.value.workspace.names || target == task.paths.value.output.names
    requires !Apart(target, dir)
    ensures !SameBelow(fs, Cleaned(root, task.guard, fs), dir)
  {
    var f := if target <= dir then dir else target;
    fs := FileSystem(map[f := []], {});
    CleanupRemoves(root, task, fs);
    assert dir <= f && f in fs.files;
  }

  /** Cleanup spares a directory, whatever is on disk, exactly when that directory lies neither
      above nor below the workspace nor the output directory being removed. */
  lemma CleanupSparesIff(root: Path, task: Task, dir: Names)
    requires IsRoot(root) && TaskOk(root, task) && task.guard.cleanup.Some?
    ensures (forall fs :: SameBelow(fs, Cleaned(root, task.guard, fs), dir))
            <==> Apart(task.paths.value.workspace.names, dir) && Apart(task.paths.value.output.names, dir)
  {
    var w, o := task.paths.value.workspace.names, task.paths.value.output.names;
    if !Apart(w, dir) {
      var fs := CleanupReaches(root, task, w, dir);
    } else if !Apart(o, dir) {
      var fs := CleanupReaches(root, task, o, dir);
    } else {
      forall fs ensures SameBelow(fs, Cleaned(root, task.guard, fs), dir) {
        CleanupSpares(root, task, fs, dir);
      }
    }
  }

  // ----- isolation over whole runs

  ghost predicate Live(s: State, t: nat) {
    t in s.tasks && s.tasks[t].guard.key.Some? && s.tasks[t].paths.Some?
  }

  ghost function WorkspaceOf(s: State, t: nat): Names
    requires Live(s, t)
  {
    s.tasks[t].paths.value.workspace.names
  }

  /** No live workspace lies inside another, and each output directory is inside its workspace. */
  ghost predicate Separate(s: State) {
    && (forall t, u :: Live(s, t) && Live(s, u) && t != u ==> Apart(WorkspaceOf(s, t), WorkspaceOf(s, u)))
    && (forall t :: Live(s, t) ==> WorkspaceOf(s, t) <= s.tasks[t].paths.value.output.names)
  }

  lemma PrefixOfPrefix(a: Names, b: Names, c: Names)
    requires a <= b <= c
    ensures a <= c
  {
  }

  lemma OthersSpare(root: Path, s: State, t: nat, a: Action, u: nat)
    requires IsRoot(root) && Inv(root, s) && Separate(s) && Enabled(root, s, t, a)
    requires u != t && Live(s, u)
    ensures SameBelow(s.fs, Step(root, s, t, a).fs, WorkspaceOf(s, u))
    ensures u in Step(root, s, t, a).tasks && Step(root, s, t, a).tasks[u] == s.tasks[u]
  {
    var dir := WorkspaceOf(s, u);
    if a.Upload? {
      assert TaskOk(root, s.tasks[t]);
      assert Live(s, t);
      if dir <= a.file { Comparable(WorkspaceOf(s, t), dir, a.file); }
    } else if a.Cleanup? && s.tasks[t].guard.cleanup.Some? {
      assert TaskOk(root, s.tasks[t]);
      assert Live(s, t);
      var w, o := WorkspaceOf(s, t), s.tasks[t].paths.value.output.names;
      if o <= dir { PrefixOfPrefix(w, o, dir); }
      if dir <= o { Comparable(w, dir, o); }
      CleanupSparesIff(root, s.tasks[t], dir);
    }
  }

  /** A run in which the live workspaces stay separate and submission u does not move. */
  ghost predicate SeparateRunOfOthers(root: Path, s: State, steps: seq<(nat, Action)>, u: nat)
    requires IsRoot(root) && Run(root, s, steps)
    decreases |steps|
  {
    Separate(s) &&
    (steps != [] ==>
       steps[0].0 != u && SeparateRunOfOthers(root, Step(root, s, steps[0].0, steps[0].1), steps[1..], u))
  }

  /** Whatever the other submissions do in the meantime, a live submission finds every file of its
      workspace as it left it. */
  lemma {:induction false} WorkspacesAreIsolated(root: Path, s: State, steps: seq<(nat, Action)>, u: nat)
    requires IsRoot(root) && Inv(root, s) && Run(root, s, steps) && Live(s, u)
    requires SeparateRunOfOthers(root, s, steps, u)
    ensures SameBelow(s.fs, After(root, s, steps).fs, WorkspaceOf(s, u))
    decreases |steps|
  {
    if steps != [] {
      var n := Step(root, s, steps[0].0, steps[0].1);
      OthersSpare(root, s, steps[0].0, steps[0].1, u);
      StepKeepsInv(root, s, steps[0].0, steps[0].1);
      WorkspacesAreIsolated(root, n, steps[1..], u);
    }
  }

  /** A configuration with a free key makes a new submission live. */
  lemma ConfigureGoesLive(root: Path, s: State, t: nat, a: Action)
    requires IsRoot(root) && a.Configure? && ResolveTaskPaths(root, a.workspaceSubdir, a.outputSubdir).Accepted?
    requires t !in s.tasks
    requires ResolveTaskPaths(root, a.workspaceSubdir, a.outputSubdir).paths.workspaceKey !in s.locked
    ensures var p := ResolveTaskPaths(root, a.workspaceSubdir, a.outputSubdir).paths;
            var steps := [(t, Arrive), (t, a)];
            && Run(root, s, steps)
            && var n := After(root, s, steps);
               && n.locked == s.locked + {p.workspaceKey}
               && n.tasks.Keys == s.tasks.Keys + {t}
               && Live(n, t) && n.tasks[t].paths == Some(p) && n.tasks[t].phase.Receiving? && n.fs == s.fs
               && forall u :: u in s.tasks ==> n.tasks[u] == s.tasks[u]
  {
    var steps: seq<(nat, Action)> := [(t, Arrive), (t, a)];
    AcceptedIsBelow(root, a.workspaceSubdir, a.outputSubdir);
    KeyNotEmpty(root, ResolveTaskPaths(root, a.workspaceSubdir, a.outputSubdir).paths.workspace);
    var s1 := Step(root, s, t, Arrive);
    assert steps[1..] == [(t, a)] && steps[1..][1..] == [];
    var s2 := Step(root, s1, t, a);
    assert Run(root, s2, []) && After(root, s2, []) == s2;
    assert Run(root, s1, steps[1..]) && After(root, s1, steps[1..]) == s2;
  }

  lemma OneStep(root: Path, s: State, t: nat, a: Action)
    requires IsRoot(root) && Enabled(root, s, t, a)
    ensures Run(root, s, [(t, a)]) && After(root, s, [(t, a)]) == Step(root, s, t, a)
  {
    var steps: seq<(nat, Action)> := [(t, a)];
    var n := Step(root, s, t, a);
    assert steps[0] == (t, a) && steps[1..] == [];
    assert Run(root, n, []) && After(root, n, []) == n;
  }

  lemma {:induction false} RunAppend(root: Path, s: State, a: seq<(nat, Action)>, b: seq<(nat, Action)>)
    requires IsRoot(root) && Run(root, s, a) && Run(root, After(root, s, a), b)
    ensures Run(root, s, a + b) && After(root, s, a + b) == After(root, After(root, s, a), b)
    decreases |a|
  {
    if a == [] {
      assert a + b == b;
    } else {
      assert (a + b)[0] == a[0] && (a + b)[1..] == a[1..] + b;
      RunAppend(root, Step(root, s, a[0].0, a[0].1), a[1..], b);
    }
  }

  /** The lock alone does not keep workspaces separate: any two accepted configurations with
      different keys, nested ones too, are live together. */
  lemma DifferentKeysCoexist(root: Path, fs: FileSystem, a: Action, b: Action) returns (steps: seq<(nat, Action)>)
    requires IsRoot(root) && a.Configure? && b.Configure?
    requires ResolveTaskPaths(root, a.workspaceSubdir, a.outputSubdir).Accepted?
    requires ResolveTaskPaths(root, b.workspaceSubdir, b.outputSubdir).Accepted?
    requires ResolveTaskPaths(root, a.workspaceSubdir, a.outputSubdir).paths.workspaceKey
             != ResolveTaskPaths(root, b.workspaceSubdir, b.outputSubdir).paths.workspaceKey
    ensures Run(root, Initial(fs), steps)
    ensures var s := After(root, Initial(fs), steps);
            && Live(s, 0) && Live(s, 1)
            && s.tasks[0].paths.value == ResolveTaskPaths(root, a.workspaceSubdir, a.outputSubdir).paths
            && s.tasks[1].paths.value == ResolveTaskPaths(root, b.workspaceSubdir, b.outputSubdir).paths
            && s.tasks[0].phase.Receiving? && s.tasks[1].phase.Receiving? && s.fs == fs
  {
    ConfigureGoesLive(root, Initial(fs), 0, a);
    var first := [(0, Arrive), (0, a)];
    var s := After(root, Initial(fs), first);
    ConfigureGoesLive(root, s, 1, b);
    RunAppend(root, Initial(fs), first, [(1, Arrive), (1, b)]);
    steps := first + [(1, Arrive), (1, b)];
  }
}

/** Workspaces inside one another: the lock keeps their keys apart, but not their files. */
module NestedWorkspaces {
  import opened Basics
  import opened Files
  import opened Paths
  import opened WorkspacePaths
  import opened SessionSpec
  import opened Submissions
  import opened Isolation
  import opened Spellings

  // ----- when one submission's cleanup can take another's files

  /** A run after which the first submission's cleanup removes a file of the second, which is live. */
  ghost predicate CleanupTakesFile(root: Path, a: Action, b: Action, fs: FileSystem,
                                   steps: seq<(nat, Action)>, f: Names)
    requires IsRoot(root) && BothAccepted(root, a, b)
  {
    && Run(root, Initial(fs), steps)
    && var s := After(root, Initial(fs), steps);
       && Live(s, 0) && s.tasks[0].paths.value == Requested(root, a)
       && Live(s, 1) && s.tasks[1].paths.value == Requested(root, b)
       && Enabled(root, s, 0, Cleanup)
       && WorkspaceOf(s, 1) <= f && f in s.fs.files && f !in Step(root, s, 0, Cleanup).fs.files
  }

  ghost predicate BothAccepted(root: Path, a: Action, b: Action)
    requires IsRoot(root)
  {
    && a.Configure? && ResolveTaskPaths(root, a.workspaceSubdir, a.outputSubdir).Accepted?
    && b.Configure? && ResolveTaskPaths(root, b.workspaceSubdir, b.outputSubdir).Accepted?
  }

  ghost function Requested(root: Path, a: Action): Resolved
    requires IsRoot(root) && a.Configure?
    requires ResolveTaskPaths(root, a.workspaceSubdir, a.outputSubdir).Accepted?
  {
    ResolveTaskPaths(root, a.workspaceSubdir, a.outputSubdir).paths
  }

  ghost predicate Reaches(p: Resolved, dir: Names) {
    !Apart(p.workspace.names, dir) || !Apart(p.output.names, dir)
  }

  lemma LeavingStep(root: Path, s: State, t: nat)
    requires IsRoot(root) && Inv(root, s) && t in s.tasks && s.tasks[t].phase.Receiving?
    ensures var step: (nat, Action) := (t, EndReceive(false));
            && Run(root, s, [step])
            && var n := After(root, s, [step]);
               && Inv(root, n) && n.fs == s.fs && n.tasks == s.tasks[t := s.tasks[t].(phase := Destructing)]
  {
    OneStep(root, s, t, EndReceive(false));
    StepKeepsInv(root, s, t, EndReceive(false));
  }

  /** Both live, the first already on its way out. */
  lemma FirstLeaves(root: Path, a: Action, b: Action, fs: FileSystem) returns (steps: seq<(nat, Action)>)
    requires IsRoot(root) && BothAccepted(root, a, b)
    requires Requested(root, a).workspaceKey != Requested(root, b).workspaceKey
    ensures Run(root, Initial(fs), steps)
    ensures var s := After(root, Initial(fs), steps);
            && Live(s, 0) && s.tasks[0].paths.value == Requested(root, a)
            && Live(s, 1) && s.tasks[1].paths.value == Requested(root, b)
            && Enabled(root, s, 0, Cleanup) && s.fs == fs && Inv(root, s)
  {
    var first := DifferentKeysCoexist(root, fs, a, b);
    var s := After(root, Initial(fs), first);
    RunKeepsInv(root, Initial(fs), first);
    LeavingStep(root, s, 0);
    RunAppend(root, Initial(fs), first, [(0, EndReceive(false))]);
    steps := first + [(0, EndReceive(false))];
  }

  lemma CleanupTakes(root: Path, s: State, t: nat, f: Names)
    requires IsRoot(root) && Inv(root, s) && Enabled(root, s, t, Cleanup) && Live(s, t)
    ensures f in s.fs.files && f !in Step(root, s, t, Cleanup).fs.files <==>
            f in s.fs.files && (s.tasks[t].paths.value.workspace.names <= f || s.tasks[t].paths.value.output.names <= f)
  {
    assert TaskOk(root, s.tasks[t]);
    CleanupRemoves(root, s.tasks[t], s.fs);
  }

  /** For any two accepted configurations with different keys: some disk and some run have the first
      one's cleanup remove a file from the second one's live workspace, if and only if the first
      one's workspace or output directory lies above or below that workspace. */
  lemma CleanupTakesFileIff(root: Path, a: Action, b: Action)
    requires IsRoot(root) && BothAccepted(root, a, b)
    requires Requested(root, a).workspaceKey != Requested(root, b).workspaceKey
    ensures (exists fs, steps, f :: CleanupTakesFile(root, a, b, fs, steps, f))
            <==> Reaches(Requested(root, a), Requested(root, b).workspace.names)
  {
    var w, o := Requested(root, a).workspace.names, Requested(root, a).output.names;
    var dir := Requested(root, b).workspace.names;
    if Reaches(Requested(root, a), dir) {
      var above := if !Apart(w, dir) then w else o;
      var f := if above <= dir then dir else above;
      var fs := FileSystem(map[f := []], {});
      var steps := FirstLeaves(root, a, b, fs);
      CleanupTakes(root, After(root, Initial(fs), steps), 0, f);
      assert CleanupTakesFile(root, a, b, fs, steps, f);
    } else {
      forall fs, steps, f | CleanupTakesFile(root, a, b, fs, steps, f) ensures false {
        var s := After(root, Initial(fs), steps);
        RunKeepsInv(root, Initial(fs), steps);
        CleanupTakes(root, s, 0, f);
        if w <= f { Comparable(w, dir, f); } else { Comparable(o, dir, f); }
      }
    }
  }

  // ----- such configurations exist

  lemma AcceptedKeys(root: Path, workspaceSubdir: string, outputSubdir: string, r: Resolved)
    requires IsRoot(root) && ResolveTaskPaths(root, workspaceSubdir, outputSubdir) == Accepted(r)
    ensures Below(root, r.workspace) && r.workspaceKey == KeyOf(root, r.workspace)
    ensures r.workspace.names == WalkFrom(root, WorkspaceSuffix(workspaceSubdir))
    ensures r.output.names == WalkFrom(root, OutputSuffix(workspaceSubdir, outputSubdir))
  {
    AcceptedIsBelow(root, workspaceSubdir, outputSubdir);
    NormalizedIsWalk(root, WorkspaceSuffix(workspaceSubdir));
    NormalizedIsWalk(root, OutputSuffix(workspaceSubdir, outputSubdir));
  }

  /** A subdirectory asked for by its plain names is accepted as it is, with its output inside. */
  lemma PlainSubdir(root: Path, names: Names) returns (r: Resolved)
    requires IsRoot(root) && PlainNames(names)
    ensures AskedPlainly(root, names, r)
    ensures Below(root, r.workspace) && r.workspaceKey == KeyOf(root, r.workspace)
    ensures r.workspace.names == root.names + names && r.output.names == root.names + names + ["output"]
  {
    var s := Render(names, false);
    RenderedNames(names, false);
    ParseRender(names, false);
    assert WorkspaceSuffix(s) == Path(false, names, false);
    assert OutputSuffix(s, "") == Path(false, names + ["output"], false);
    SpelledWalk(root, false, names, false);
    SpelledWalk(root, false, names + ["output"], false);
    assert root.names + (names + ["output"]) == root.names + names + ["output"];
    AcceptedIff(root, s, "");
    r := ResolveTaskPaths(root, s, "").paths;
    AcceptedKeys(root, s, "", r);
  }

  lemma LongerHasOtherKey(root: Path, p: Resolved, q: Resolved, inner: Names)
    requires IsRoot(root) && Below(root, p.workspace) && Below(root, q.workspace)
    requires p.workspaceKey == KeyOf(root, p.workspace) && q.workspaceKey == KeyOf(root, q.workspace)
    requires inner != [] && q.workspace.names == p.workspace.names + inner
    ensures p.workspaceKey != q.workspaceKey && Reaches(p, q.workspace.names)
  {
    SameKeyIff(root, p.workspace, q.workspace);
    assert |p.workspace.names| < |q.workspace.names|;
    assert p.workspace.names <= q.workspace.names;
  }

  lemma PlainAppend(root: Names, outer: Names, inner: Names)
    requires PlainNames(outer) && PlainNames(inner)
    ensures PlainNames(outer + inner) && root + (outer + inner) == (root + outer) + inner
  {
  }

  ghost predicate AskedPlainly(root: Path, names: Names, r: Resolved)
    requires IsRoot(root)
  {
    ResolveTaskPaths(root, Render(names, false), "") == Accepted(r)
  }

  lemma NestedAreAccepted(root: Path, outer: Names, inner: Names) returns (p: Resolved, q: Resolved)
    requires IsRoot(root) && PlainNames(outer) && PlainNames(inner)
    ensures AskedPlainly(root, outer, p) && AskedPlainly(root, outer + inner, q)
    ensures p.workspaceKey != q.workspaceKey && Reaches(p, q.workspace.names)
  {
    PlainAppend(root.names, outer, inner);
    p := PlainSubdir(root, outer);
    q := PlainSubdir(root, outer + inner);
    LongerHasOtherKey(root, p, q, inner);
  }

  /** A workspace and any plain directory inside it: both are accepted, and the outer one's cleanup
      can take files of the inner one. */
  lemma NestedWorkspacesLoseFiles(root: Path, outer: Names, inner: Names)
    requires IsRoot(root) && PlainNames(outer) && PlainNames(inner)
    ensures var a, b := Configure(Render(outer, false), ""), Configure(Render(outer + inner, false), "");
            BothAccepted(root, a, b) && exists fs, steps, f :: CleanupTakesFile(root, a, b, fs, steps, f)
  {
    var p, q := NestedAreAccepted(root, outer, inner);
    CleanupTakesFileIff(root, Configure(Render(outer, false), ""), Configure(Render(outer + inner, false), ""));
  }
}

/** Where a submission's workspace, output directory and uploaded files are, given what the client
    asked for. The workspace root is an absolute normal path without symbolic links below it, so
    that `fs::relative` strips the root lexically. */
module WorkspacePaths {
  import opened Paths

  datatype Resolved = Resolved(workspaceKey: string, outputKey: string, workspace: Path, output: Path)

  datatype Resolution = Accepted(paths: Resolved) | Escapes

  const DEFAULT_WORKSPACE := "uploaded_task"
  const DEFAULT_OUTPUT := Path(false, ["output"], false)

  function LexicallyNormalized(base: Path, suffix: Path): Path {
    Normal(Join(base, suffix))
  }

  ghost predicate IsRoot(root: Path) {
    root.absolute && !root.trailing && AllNames(root.names) && Place(true, root.names)
  }

  /** `fs::relative(path, root).generic_string()` for a path at or below the root. */
  function KeyOf(root: Path, path: Path): string
    requires root.names <= path.names
  {
    if |path.names| == |root.names| then DOT else Render(path.names[|root.names|..], path.trailing)
  }

  function WorkspaceSuffix(workspaceSubdir: string): Path {
    Parse(if workspaceSubdir == "" then DEFAULT_WORKSPACE else workspaceSubdir)
  }

  function OutputSuffix(workspaceSubdir: string, outputSubdir: string): Path {
    if outputSubdir == "" then Join(WorkspaceSuffix(workspaceSubdir), DEFAULT_OUTPUT) else Parse(outputSubdir)
  }

  /** The task's directories, or a refusal if either escapes the root. */
  function ResolveTaskPaths(root: Path, workspaceSubdir: string, outputSubdir: string): Resolution
    requires IsRoot(root)
  {
    var workspace := LexicallyNormalized(root, WorkspaceSuffix(workspaceSubdir));
    var output := LexicallyNormalized(root, OutputSuffix(workspaceSubdir, outputSubdir));
    NormalWellFormed(root, WorkspaceSuffix(workspaceSubdir));
    NormalWellFormed(root, OutputSuffix(workspaceSubdir, outputSubdir));
    if !SubPath(root, workspace) || !SubPath(root, output) then Escapes
    else
      SubPathNames(root, workspace);
      SubPathNames(root, output);
      Accepted(Resolved(KeyOf(root, workspace), KeyOf(root, output), workspace, output))
  }

  // ----- well-formedness

  lemma NormalWellFormed(base: Path, suffix: Path)
    requires base.absolute && AllNames(base.names) && WellFormed(suffix)
    ensures WellFormed(LexicallyNormalized(base, suffix)) && LexicallyNormalized(base, suffix).absolute
  {
    var p := Join(base, suffix);
    assert forall n :: n in NormalNames(p) ==> n in p.names;
  }

  // ----- the prefix test accepts what stays at or below the base

  /** On absolute paths the iterator-wise test compares names; a base with a trailing separator is
      a prefix of nothing but itself. */
  lemma SubPathNames(base: Path, candidate: Path)
    requires base.absolute && candidate.absolute && WellFormed(base) && WellFormed(candidate)
    ensures SubPath(base, candidate) <==>
            base.names <= candidate.names && (base.trailing ==> base == candidate)
  {
    var b, c := Elements(base), Elements(candidate);
    assert b == ["/"] + base.names + (if base.trailing then [""] else []);
    assert c == ["/"] + candidate.names + (if candidate.trailing then [""] else []);
    forall i | 0 <= i < |base.names| ensures b[i + 1] == base.names[i] && b[i + 1] != "" {
      assert base.names[i] in base.names;
    }
    forall i | 0 <= i < |candidate.names| ensures c[i + 1] == candidate.names[i] && c[i + 1] != "" {
      assert candidate.names[i] in candidate.names;
    }
    if b <= c {
      forall i | 0 <= i < |base.names| ensures i < |candidate.names| && base.names[i] == candidate.names[i] {
        assert b[i + 1] == c[i + 1];
      }
      if base.names != [] { assert b[|base.names|] == c[|base.names|] == base.names[|base.names| - 1]; }
      assert base.names == candidate.names[..|base.names|];
      if base.trailing {
        assert c[|base.names| + 1] == "";
        assert base.names == candidate.names;
      }
    }
    if base.names <= candidate.names && !base.trailing {
      assert b == c[..|b|];
    }
  }

  /** Where a walk from the base along the suffix ends. */
  ghost function WalkFrom(base: Path, suffix: Path): seq<string> {
    Walk(true, if suffix.absolute then [] else base.names, suffix.names)
  }

  lemma NormalizedIsWalk(base: Path, suffix: Path)
    requires base.absolute && Place(true, base.names)
    ensures LexicallyNormalized(base, suffix).names == WalkFrom(base, suffix)
    ensures Place(true, WalkFrom(base, suffix))
  {
    NormalIsWalk(Join(base, suffix));
    if !suffix.absolute {
      WalkAppend(true, [], base.names, suffix.names);
      PlaceWalks(true, base.names);
    }
    WalkKeepsPlace(true, [], Join(base, suffix).names);
  }

  /** A configuration is accepted exactly when walking its two directories component by component,
      dot-dots and absolute spellings included, ends at or below the root. */
  lemma AcceptedIff(root: Path, workspaceSubdir: string, outputSubdir: string)
    requires IsRoot(root)
    ensures ResolveTaskPaths(root, workspaceSubdir, outputSubdir).Accepted? <==>
            && root.names <= WalkFrom(root, WorkspaceSuffix(workspaceSubdir))
            && root.names <= WalkFrom(root, OutputSuffix(workspaceSubdir, outputSubdir))
  {
    var w, o := WorkspaceSuffix(workspaceSubdir), OutputSuffix(workspaceSubdir, outputSubdir);
    NormalWellFormed(root, w);
    NormalWellFormed(root, o);
    SubPathNames(root, LexicallyNormalized(root, w));
    SubPathNames(root, LexicallyNormalized(root, o));
    NormalizedIsWalk(root, w);
    NormalizedIsWalk(root, o);
  }

  // ----- stored keys

  lemma {:induction false} SplitAtSlash(n: string, rest: string)
    requires '/' !in n
    ensures Split(n + "/" + rest) == [n] + Split(rest)
    decreases |n|
  {
    var s := n + "/" + rest;
    if n == "" {
      assert s[0] == '/' && s[1..] == rest;
    } else {
      assert s[0] == n[0] && s[1..] == n[1..] + "/" + rest;
      SplitAtSlash(n[1..], rest);
      assert [n[0]] + n[1..] == n;
    }
  }

  lemma {:induction false} SplitName(n: string)
    requires '/' !in n
    ensures Split(n) == [n]
    decreases |n|
  {
    if n != "" {
      SplitName(n[1..]);
      assert [n[0]] + n[1..] == n;
    }
  }

  lemma DropEmptyAppend(n: string, rest: seq<string>)
    requires n != ""
    ensures DropEmpty([n] + rest) == [n] + DropEmpty(rest)
  {
    assert ([n] + rest)[1..] == rest;
  }

  lemma {:induction false} RenderedNames(names: seq<string>, trailing: bool)
    requires AllNames(names) && names != []
    ensures var s := Render(names, trailing);
            && s != "" && s[0] != '/' && (s[|s| - 1] == '/' <==> trailing)
            && DropEmpty(Split(s)) == names
    decreases |names|
  {
    var n := names[0];
    assert IsName(n) && n[0] in n && n[|n| - 1] in n;
    if |names| > 1 {
      forall m | m in names[1..] ensures IsName(m) { assert m in names; }
      var rest := Render(names[1..], trailing);
      RenderedNames(names[1..], trailing);
      SplitAtSlash(n, rest);
      DropEmptyAppend(n, Split(rest));
    } else if trailing {
      SplitAtSlash(n, "");
      assert n + "/" + "" == n + "/";
      DropEmptyAppend(n, [""]);
    } else {
      SplitName(n);
      DropEmptyAppend(n, []);
      assert [n] + [] == [n] && n + "" == n;
    }
  }

  lemma ParseRender(names: seq<string>, trailing: bool)
    requires AllNames(names) && names != []
    ensures Parse(Render(names, trailing)) == Path(false, names, trailing)
  {
    RenderedNames(names, trailing);
  }

  lemma ParseDot()
    ensures Parse(DOT) == Path(false, [DOT], false)
  {
    SplitName(DOT);
  }

  /** A path the service has accepted below the root. */
  ghost predicate Below(root: Path, p: Path) {
    p.absolute && WellFormed(p) && Place(true, p.names) && root.names <= p.names
  }

  lemma RejoinedRoot(root: Path)
    requires IsRoot(root)
    ensures LexicallyNormalized(root, Parse(DOT)) == Path(true, root.names, root.names != [])
  {
    var suffix := Parse(DOT);
    ParseDot();
    NormalizedIsWalk(root, suffix);
    assert WalkFrom(root, suffix) == root.names;
    assert forall i :: 0 <= i < |root.names| ==> root.names[i] != DOTDOT;
  }

  lemma PlaceIsNormal(p: Path)
    requires p.absolute && WellFormed(p) && Place(true, p.names)
    ensures Normal(p) == p
  {
    NormalIsWalk(p);
    PlaceWalks(true, p.names);
    assert forall i :: 0 <= i < |p.names| ==> p.names[i] != DOTDOT && p.names[i] != DOT;
  }

  /** Cleanup and execution re-join the stored key to the root: they reach the same directory, and
      the same spelling unless the path is the root written without a separator. */
  lemma RejoinedKey(root: Path, p: Path)
    requires IsRoot(root) && Below(root, p)
    ensures var q := LexicallyNormalized(root, Parse(KeyOf(root, p)));
            && q.absolute && q.names == p.names
            && (q == p <==> (p.names == root.names && p.names != [] ==> p.trailing))
  {
    var rel := p.names[|root.names|..];
    assert root.names + rel == p.names;
    if rel == [] {
      RejoinedRoot(root);
    } else {
      forall n | n in rel ensures IsName(n) { assert n in p.names; }
      ParseRender(rel, p.trailing);
      PlaceIsNormal(p);
    }
  }

  /** Two workspaces have the same lock key exactly when they are the same directory, spelled alike
      as to a trailing separator; the root has one key. */
  lemma SameKeyIff(root: Path, p: Path, q: Path)
    requires IsRoot(root) && Below(root, p) && Below(root, q)
    ensures KeyOf(root, p) == KeyOf(root, q) <==>
            p.names == q.names && (p.names == root.names || p.trailing == q.trailing)
  {
    var a, b := p.names[|root.names|..], q.names[|root.names|..];
    assert p.names == root.names + a && q.names == root.names + b;
    ParseDot();
    if a != [] {
      forall n | n in a ensures IsName(n) { assert n in p.names; }
      ParseRender(a, p.trailing);
      assert a[0] in p.names;
    }
    if b != [] {
      forall n | n in b ensures IsName(n) { assert n in q.names; }
      ParseRender(b, q.trailing);
      assert b[0] in q.names;
    }
  }

  /** `fs::relative` looks up what exists: the key of a directory that is already on the disk has no
      trailing separator. */
  function StoredKey(root: Path, p: Path, onDisk: bool): string
    requires root.names <= p.names
  {
    KeyOf(root, if onDisk then p.(trailing := false) else p)
  }

  /** Whether or not the directories exist: two keys are the same exactly when the directories are,
      and both or neither still carry a separator. The same directory asked for with a separator
      before it exists, and again afterwards, has two keys. */
  lemma SameStoredKeyIff(root: Path, p: Path, pOnDisk: bool, q: Path, qOnDisk: bool)
    requires IsRoot(root) && Below(root, p) && Below(root, q)
    ensures StoredKey(root, p, pOnDisk) == StoredKey(root, q, qOnDisk) <==>
            && p.names == q.names
            && (p.names == root.names || (p.trailing && !pOnDisk) == (q.trailing && !qOnDisk))
  {
    SameKeyIff(root, if pOnDisk then p.(trailing := false) else p, if qOnDisk then q.(trailing := false) else q);
  }

  lemma AcceptedIsBelow(root: Path, workspaceSubdir: string, outputSubdir: string)
    requires IsRoot(root) && ResolveTaskPaths(root, workspaceSubdir, outputSubdir).Accepted?
    ensures Below(root, ResolveTaskPaths(root, workspaceSubdir, outputSubdir).paths.workspace)
    ensures Below(root, ResolveTaskPaths(root, workspaceSubdir, outputSubdir).paths.output)
  {
    var w, o := WorkspaceSuffix(workspaceSubdir), OutputSuffix(workspaceSubdir, outputSubdir);
    NormalWellFormed(root, w);
    NormalWellFormed(root, o);
    NormalizedIsWalk(root, w);
    NormalizedIsWalk(root, o);
    SubPathNames(root, LexicallyNormalized(root, w));
    SubPathNames(root, LexicallyNormalized(root, o));
  }

  lemma KeyNotEmpty(root: Path, p: Path)
    requires IsRoot(root) && Below(root, p)
    ensures KeyOf(root, p) != ""
  {
    var rel := p.names[|root.names|..];
    if rel != [] {
      forall n | n in rel ensures IsName(n) { assert n in p.names; }
      RenderedNames(rel, p.trailing);
    }
  }

  // ----- uploaded files

  function FileTarget(workspace: Path, relativePath: string): Path {
    LexicallyNormalized(workspace, Parse(relativePath))
  }

  /** A chunk's path is accepted exactly when its walk ends at or below the workspace, provided the
      workspace was not spelled with a trailing separator; if it was, only the workspace directory
      itself is accepted, so no file can be uploaded. */
  lemma FileAcceptedIff(root: Path, workspace: Path, relativePath: string)
    requires IsRoot(root) && Below(root, workspace)
    ensures var target := FileTarget(workspace, relativePath);
            && WellFormed(target) && target.absolute
            && target.names == WalkFrom(workspace, Parse(relativePath))
            && (SubPath(workspace, target) <==>
                  if workspace.trailing then target == workspace else workspace.names <= target.names)
  {
    var suffix := Parse(relativePath);
    NormalWellFormed(workspace, suffix);
    NormalizedIsWalk(workspace, suffix);
    SubPathNames(workspace, FileTarget(workspace, relativePath));
  }

  /** Which workspaces are spelled with a trailing separator: those asked for with one, or ending in
      a dot or a dot-dot. */
  lemma TrailingWorkspaceIff(root: Path, workspaceSubdir: string)
    requires IsRoot(root) && root.names != []
    requires root.names <= WalkFrom(root, WorkspaceSuffix(workspaceSubdir))
    ensures var suffix := WorkspaceSuffix(workspaceSubdir);
            LexicallyNormalized(root, suffix).trailing <==>
            suffix.trailing || (suffix.names != [] && suffix.names[|suffix.names| - 1] in [DOT, DOTDOT])
  {
    var suffix := WorkspaceSuffix(workspaceSubdir);
    NormalizedIsWalk(root, suffix);
    var names := WalkFrom(root, suffix);
    assert names[|names| - 1] in names;
  }
}

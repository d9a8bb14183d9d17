/** What a submission leaves of its workspace: nothing, so that it can be filled again. */
module CleanSlate {
  import opened Basics
  import opened Files
  import opened Paths
  import opened WorkspacePaths
  import opened SessionSpec
  import opened Submissions
  import opened Isolation
  import opened UploadClient
  import opened FileBlocks
  import opened RoundTrip

  /** No file stands where one of the directory's own parents should be. */
  ghost predicate ParentsFree(fs: FileSystem, dir: Names) {
    forall p: Names :: p in fs.files ==> !(p <= dir && p != dir)
  }

  lemma ShorterIsAbove(p: Names, dir: Names, f: Names)
    requires p <= f && dir <= f && !(dir <= p)
    ensures p <= dir && p != dir
  {
    assert dir == f[..|dir|] && p == f[..|p|];
  }

  lemma ParentsFreeFits(fs: FileSystem, dir: Names, f: Names)
    requires dir != [] && dir <= f
    requires forall g: Names :: g in fs.files ==> !(dir <= g)
    requires forall d: Names :: d in fs.dirs ==> !(dir <= d)
    ensures Fits(fs, f) <==> ParentsFree(fs, dir)
  {
    var above := Prefixes(f[..|f| - 1]);
    forall p | p in fs.files && p in above ensures p <= dir && p != dir {
      ShorterIsAbove(p, dir, f);
    }
    forall p: Names | p <= dir && p != dir ensures p in above {
      assert p <= f;
      assert p == f[..|f| - 1][..|p|];
    }
  }

  /** After a submission's cleanup, whatever it and its command left there: any file at or below its
      workspace can be created if and only if no file stands where a parent of the workspace should be. */
  lemma CleanedCanBeFilled(root: Path, task: Task, fs: FileSystem, f: Names)
    requires IsRoot(root) && TaskOk(root, task) && task.guard.cleanup.Some?
    requires task.paths.value.workspace.names != [] && task.paths.value.workspace.names <= f
    ensures Fits(Cleaned(root, task.guard, fs), f)
            <==> ParentsFree(Cleaned(root, task.guard, fs), task.paths.value.workspace.names)
  {
    CleanupRemoves(root, task, fs);
    ParentsFreeFits(Cleaned(root, task.guard, fs), task.paths.value.workspace.names, f);
  }

  /** So the next upload into the workspace conflicts with nothing the last submission left. */
  lemma NextUploadFindsNothing(root: Path, task: Task, fs: FileSystem, files: seq<UploadFile>)
    requires IsRoot(root) && TaskOk(root, task) && task.guard.cleanup.Some?
    requires task.paths.value.workspace.names != []
    requires ParentsFree(Cleaned(root, task.guard, fs), task.paths.value.workspace.names)
    ensures NoConflict(Cleaned(root, task.guard, fs), task.paths.value.workspace.names, files)
  {
    var workspace := task.paths.value.workspace.names;
    forall i | 0 <= i < |files|
      ensures Fits(Cleaned(root, task.guard, fs), workspace + NamesOf(files[i]))
    {
      CleanedCanBeFilled(root, task, fs, workspace + NamesOf(files[i]));
    }
  }
}

/** The part of the server's file system the upload touches: regular files with their bytes, and
    directories. Only conflicts between files and directories make an operation fail. */
module Files {
  import opened Basics

  type Names = seq<string>

  /** Neither path is at or below the other. */
  ghost predicate Apart(a: Names, b: Names) {
    !(a <= b) && !(b <= a)
  }

  lemma Comparable(a: Names, b: Names, f: Names)
    requires a <= f && b <= f
    ensures !Apart(a, b)
  {
    if |a| <= |b| { assert a == f[..|a|] == b[..|a|]; } else { assert b == f[..|b|] == a[..|b|]; }
  }

  datatype FileSystem = FileSystem(files: map<Names, seq<Byte>>, dirs: set<Names>)

  function Prefixes(d: Names): (r: set<Names>)
    ensures forall p :: p in r <==> p <= d
  {
    var r := set i | 0 <= i <= |d| :: d[..i];
    assert forall p :: p <= d ==> p == d[..|p|];
    r
  }

  /** `create_directories` fails when a file is in the way. */
  predicate CanCreate(fs: FileSystem, d: Names) {
    forall p :: p in Prefixes(d) ==> p !in fs.files
  }

  function CreateDirectories(fs: FileSystem, d: Names): FileSystem {
    fs.(dirs := fs.dirs + Prefixes(d))
  }

  function Truncate(fs: FileSystem, f: Names): FileSystem {
    fs.(files := fs.files[f := []])
  }

  function Append(fs: FileSystem, f: Names, data: seq<Byte>): FileSystem
    requires f in fs.files
  {
    fs.(files := fs.files[f := fs.files[f] + data])
  }

  /** `remove_all`: everything at or below the path. */
  function RemoveAll(fs: FileSystem, p: Names): FileSystem {
    FileSystem(map f | f in fs.files && !(p <= f) :: fs.files[f], set d | d in fs.dirs && !(p <= d))
  }
}

/** Lexical paths as the submission service resolves them: parsing and joining as in
    [fs.path.append] and [fs.path.generic] of ISO/IEC 14882:2017, the service's own prefix test,
    and the resolution of a task's workspace and output directories. */
module Paths {

  /** A parsed path: its names, and whether a separator follows the last of them. */
  datatype Path = Path(absolute: bool, names: seq<string>, trailing: bool)

  const DOT := "."
  const DOTDOT := ".."

  predicate IsName(s: string) {
    s != "" && '/' !in s
  }

  ghost predicate AllNames(names: seq<string>) {
    forall n :: n in names ==> IsName(n)
  }

  ghost predicate WellFormed(p: Path) {
    AllNames(p.names) && (p.trailing ==> p.names != [])
  }

  // ----- parsing

  function Split(s: string): (parts: seq<string>)
    ensures parts != [] && forall x :: x in parts ==> '/' !in x
  {
    if s == "" then [""]
    else if s[0] == '/' then [""] + Split(s[1..])
    else var rest := Split(s[1..]); [[s[0]] + rest[0]] + rest[1..]
  }

  function DropEmpty(parts: seq<string>): (names: seq<string>)
    ensures forall n :: n in names ==> n != "" && n in parts
  {
    if parts == [] then []
    else if parts[0] == "" then DropEmpty(parts[1..])
    else [parts[0]] + DropEmpty(parts[1..])
  }

  function Parse(s: string): Path {
    var names := DropEmpty(Split(s));
    Path(s != "" && s[0] == '/', names, names != [] && s != "" && s[|s| - 1] == '/')
  }

  /** The spelling of a relative path. */
  function Render(names: seq<string>, trailing: bool): string {
    if names == [] then ""
    else if |names| == 1 then names[0] + (if trailing then "/" else "")
    else names[0] + "/" + Render(names[1..], trailing)
  }

  // ----- joining, and normalisation rule by rule

  /** `base / suffix`, for the non-empty suffixes the service joins. */
  function Join(base: Path, suffix: Path): Path {
    if suffix.absolute then suffix
    else Path(base.absolute, base.names + suffix.names, suffix.trailing)
  }

  /** Each dot goes, with the separator after it. */
  function DropDots(names: seq<string>): (r: seq<string>)
    ensures DOT !in r && forall n :: n in r ==> n in names
  {
    if names == [] then []
    else if names[0] == DOT then DropDots(names[1..])
    else [names[0]] + DropDots(names[1..])
  }

  /** A name followed by a dot-dot. */
  predicate Cancels(names: seq<string>, i: nat) {
    i + 1 < |names| && names[i] != DOTDOT && names[i + 1] == DOTDOT
  }

  function CancelAt(names: seq<string>, i: nat): seq<string>
    requires i + 1 < |names|
  {
    names[..i] + names[i + 2..]
  }

  ghost predicate Irreducible(names: seq<string>) {
    forall i: nat :: !Cancels(names, i)
  }

  /** The first pair that cancels, or the length if there is none. */
  function FirstCancel(names: seq<string>): (i: nat)
    ensures i < |names| ==> Cancels(names, i)
    ensures forall j: nat :: j < i ==> !Cancels(names, j)
    ensures i <= |names|
  {
    if |names| < 2 then |names|
    else if Cancels(names, 0) then 0
    else
      var i := FirstCancel(names[1..]) + 1;
      assert forall j: nat :: 0 < j < i ==> Cancels(names, j) == Cancels(names[1..], j - 1);
      i
  }

  /** As long as any appear, a name and the dot-dot after it are removed. */
  function Reduce(names: seq<string>): (r: seq<string>)
    ensures forall n :: n in r ==> n in names
    decreases |names|
  {
    var i := FirstCancel(names);
    if i < |names| then Reduce(CancelAt(names, i)) else names
  }

  function DropLeadingDotDots(names: seq<string>): (r: seq<string>)
    ensures forall n :: n in r ==> n in names
  {
    if names != [] && names[0] == DOTDOT then DropLeadingDotDots(names[1..]) else names
  }

  function NormalNames(p: Path): seq<string> {
    var reduced := Reduce(DropDots(p.names));
    if p.absolute then DropLeadingDotDots(reduced) else reduced
  }

  /** The `lexically_normal` form of a path. */
  function Normal(p: Path): Path {
    if !p.absolute && p.names == [] then p
    else WithSeparator(p, NormalNames(p))
  }

  /** An empty result is spelled as a dot; a separator stays at the end, or is left there by a
      trailing dot or dot-dot, unless the last name is a dot-dot. */
  function WithSeparator(p: Path, names: seq<string>): Path {
    if names == [] then Path(p.absolute, if p.absolute then [] else [DOT], false)
    else
      var slash := p.trailing || (p.names != [] && p.names[|p.names| - 1] in [DOT, DOTDOT]);
      Path(p.absolute, names, slash && names[|names| - 1] != DOTDOT)
  }

  // ----- the service's prefix test

  /** What iterating over a path yields. */
  function Elements(p: Path): seq<string> {
    (if p.absolute then ["/"] else []) + p.names + (if p.trailing then [""] else [])
  }

  predicate SubPath(base: Path, candidate: Path) {
    Elements(base) <= Elements(candidate)
  }

  method IsSubPath(base: Path, candidate: Path) returns (r: bool)
    ensures r == SubPath(base, candidate)
  {
    var b, c := Elements(base), Elements(candidate);
    var i := 0;
    while i < |b|
      invariant i <= |b| && i <= |c|
      invariant b[..i] == c[..i]
    {
      if i == |c| || b[i] != c[i] {
        return false;
      }
      i := i + 1;
    }
    assert b == b[..|b|];
    return true;
  }

  // ----- walking components one by one

  /** Where a walk over the names ends, starting in directory `at`. */
  function Walk(absolute: bool, at: seq<string>, names: seq<string>): seq<string>
    decreases |names|
  {
    if names == [] then at
    else Walk(absolute, WalkOne(absolute, at, names[0]), names[1..])
  }

  function WalkOne(absolute: bool, at: seq<string>, name: string): seq<string> {
    if name == DOT then at
    else if name != DOTDOT then at + [name]
    else if at == [] then (if absolute then [] else [DOTDOT])
    else if at[|at| - 1] == DOTDOT then at + [DOTDOT]
    else at[..|at| - 1]
  }

  /** A place a walk can be at: no dots, and dot-dots only at the front of a relative one. */
  ghost predicate Place(absolute: bool, at: seq<string>) {
    && DOT !in at
    && (absolute ==> DOTDOT !in at)
    && Irreducible(at)
  }

  lemma {:induction false} WalkAppend(absolute: bool, at: seq<string>, a: seq<string>, b: seq<string>)
    ensures Walk(absolute, at, a + b) == Walk(absolute, Walk(absolute, at, a), b)
    decreases |a|
  {
    if a == [] {
      assert a + b == b;
    } else {
      assert (a + b)[0] == a[0] && (a + b)[1..] == a[1..] + b;
      WalkAppend(absolute, WalkOne(absolute, at, a[0]), a[1..], b);
    }
  }

  lemma WalkOneKeepsPlace(absolute: bool, at: seq<string>, name: string)
    requires Place(absolute, at)
    ensures Place(absolute, WalkOne(absolute, at, name))
  {
    var t := WalkOne(absolute, at, name);
    forall i: nat | i + 1 < |t| ensures !Cancels(t, i) {
      if i + 1 < |at| { assert !Cancels(at, i); }
    }
  }

  lemma {:induction false} WalkKeepsPlace(absolute: bool, at: seq<string>, names: seq<string>)
    requires Place(absolute, at)
    ensures Place(absolute, Walk(absolute, at, names))
    decreases |names|
  {
    if names != [] {
      WalkOneKeepsPlace(absolute, at, names[0]);
      WalkKeepsPlace(absolute, WalkOne(absolute, at, names[0]), names[1..]);
    }
  }

  // ----- the rules agree with the walk

  lemma {:induction false} DotsDoNotMove(absolute: bool, at: seq<string>, names: seq<string>)
    ensures Walk(absolute, at, names) == Walk(absolute, at, DropDots(names))
    decreases |names|
  {
    if names != [] {
      DotsDoNotMove(absolute, WalkOne(absolute, at, names[0]), names[1..]);
      if names[0] != DOT {
        assert DropDots(names)[1..] == DropDots(names[1..]);
      }
    }
  }

  lemma CancelDoesNotMove(absolute: bool, at: seq<string>, names: seq<string>, i: nat)
    requires DOT !in names && Cancels(names, i)
    ensures Walk(absolute, at, names) == Walk(absolute, at, CancelAt(names, i))
  {
    var before, pair, after := names[..i], [names[i], DOTDOT], names[i + 2..];
    assert names == before + (pair + after);
    var here := Walk(absolute, at, before);
    WalkAppend(absolute, at, before, pair + after);
    WalkAppend(absolute, here, pair, after);
    WalkAppend(absolute, at, before, after);
    assert WalkOne(absolute, here, names[i]) == here + [names[i]];
    assert pair[1..] == [DOTDOT] && pair[1..][1..] == [];
    assert Walk(absolute, here, pair) == Walk(absolute, here + [names[i]], [DOTDOT]) == here;
  }

  lemma {:induction false} IrreducibleWalk(at: seq<string>, names: seq<string>)
    requires DOT !in names && Irreducible(at + names)
    ensures Walk(false, at, names) == at + names
    decreases |names|
  {
    if names == [] {
      assert at + names == at;
    } else {
      if at != [] {
        assert !Cancels(at + names, |at| - 1);
        assert (at + names)[|at| - 1] == at[|at| - 1] && (at + names)[|at|] == names[0];
      }
      assert WalkOne(false, at, names[0]) == at + [names[0]];
      assert (at + [names[0]]) + names[1..] == at + names;
      IrreducibleWalk(at + [names[0]], names[1..]);
    }
  }

  lemma {:induction false} IrreducibleAbsoluteWalk(at: seq<string>, names: seq<string>)
    requires DOT !in names && Irreducible(at + names) && DOTDOT !in at
    ensures Walk(true, at, names) == at + DropLeadingDotDots(names)
    ensures at != [] ==> DropLeadingDotDots(names) == names
    ensures DOTDOT !in DropLeadingDotDots(names)
    decreases |names|
  {
    if names == [] {
      assert at + names == at;
    } else if names[0] == DOTDOT {
      assert at != [] ==> !Cancels(at + names, |at| - 1);
      assert at == [] && at + names == names;
      forall i: nat ensures !Cancels(names[1..], i) { assert !Cancels(names, i + 1); }
      assert [] + names[1..] == names[1..];
      IrreducibleAbsoluteWalk([], names[1..]);
    } else {
      assert (at + [names[0]]) + names[1..] == at + names;
      IrreducibleAbsoluteWalk(at + [names[0]], names[1..]);
      assert DropLeadingDotDots(names) == names == [names[0]] + names[1..];
    }
  }

  /** The names left after removing pairs at the listed positions, in that order. */
  ghost predicate CanRemove(names: seq<string>, order: seq<nat>)
    decreases |order|
  {
    order == [] || (Cancels(names, order[0]) && CanRemove(CancelAt(names, order[0]), order[1..]))
  }

  ghost function Removed(names: seq<string>, order: seq<nat>): seq<string>
    requires CanRemove(names, order)
    decreases |order|
  {
    if order == [] then names else Removed(CancelAt(names, order[0]), order[1..])
  }

  lemma {:induction false} RemovalDoesNotMove(names: seq<string>, order: seq<nat>)
    requires DOT !in names && CanRemove(names, order)
    ensures DOT !in Removed(names, order)
    ensures Walk(false, [], Removed(names, order)) == Walk(false, [], names)
    decreases |order|
  {
    if order != [] {
      CancelDoesNotMove(false, [], names, order[0]);
      RemovalDoesNotMove(CancelAt(names, order[0]), order[1..]);
    }
  }

  lemma {:induction false} ReduceWalks(absolute: bool, names: seq<string>)
    requires DOT !in names
    ensures Irreducible(Reduce(names))
    ensures Walk(absolute, [], names) == Walk(absolute, [], Reduce(names))
    decreases |names|
  {
    var i := FirstCancel(names);
    if i < |names| {
      CancelDoesNotMove(absolute, [], names, i);
      ReduceWalks(absolute, CancelAt(names, i));
    }
  }

  /** The standard does not say in which order the pairs go; every order that leaves no pair gives
      the same names, and those are where the walk ends. */
  lemma AnyOrderReduces(names: seq<string>, order: seq<nat>)
    requires DOT !in names && CanRemove(names, order) && Irreducible(Removed(names, order))
    ensures Removed(names, order) == Reduce(names) == Walk(false, [], names)
  {
    RemovalDoesNotMove(names, order);
    ReduceWalks(false, names);
    assert [] + Reduce(names) == Reduce(names);
    assert [] + Removed(names, order) == Removed(names, order);
    IrreducibleWalk([], Reduce(names));
    IrreducibleWalk([], Removed(names, order));
  }

  /** Normalising is walking the components one by one. */
  lemma NormalIsWalk(p: Path)
    ensures NormalNames(p) == Walk(p.absolute, [], p.names)
  {
    var n := DropDots(p.names);
    DotsDoNotMove(p.absolute, [], p.names);
    ReduceWalks(p.absolute, n);
    var r := Reduce(n);
    assert [] + r == r;
    if p.absolute {
      IrreducibleAbsoluteWalk([], r);
      assert [] + DropLeadingDotDots(r) == DropLeadingDotDots(r);
    } else {
      IrreducibleWalk([], r);
    }
  }

  lemma PlaceWalks(absolute: bool, at: seq<string>)
    requires Place(absolute, at)
    ensures Walk(absolute, [], at) == at
  {
    assert [] + at == at;
    if absolute {
      IrreducibleAbsoluteWalk([], at);
      assert [] + DropLeadingDotDots(at) == DropLeadingDotDots(at);
    } else {
      IrreducibleWalk([], at);
    }
  }

  lemma NormalNamesIdempotent(p: Path, q: Path)
    requires q.absolute == p.absolute && q.names == NormalNames(p)
    ensures NormalNames(q) == q.names && DOT !in q.names
  {
    NormalIsWalk(p);
    NormalIsWalk(q);
    WalkKeepsPlace(p.absolute, [], p.names);
    PlaceWalks(p.absolute, q.names);
  }

  lemma NormalIsIdempotent(p: Path)
    ensures Normal(Normal(p)) == Normal(p)
  {
    var q := Normal(p);
    if q.names == NormalNames(p) {
      NormalNamesIdempotent(p, q);
      assert forall i :: 0 <= i < |q.names| ==> q.names[i] != DOT;
    } else {
      assert DropDots([DOT]) == [];
    }
  }
}

/** Requests and chunk paths as the strings a client sends: how every string parses, and which ones are
    accepted, in terms of the names spelled in them. */
module Spellings {
  import opened Basics
  import opened Files
  import opened Paths
  import opened WorkspacePaths
  import opened ChunkWriter
  import opened SessionSpec

  // ----- every string is a spelling

  function Slashes(n: nat): string {
    if n == 0 then "" else "/" + Slashes(n - 1)
  }

  /** Names, each after some separators, and separators at the end. */
  function Spell(gaps: seq<nat>, names: seq<string>, trail: nat): string
    requires |gaps| == |names|
  {
    if names == [] then Slashes(trail)
    else Slashes(gaps[0]) + names[0] + Spell(gaps[1..], names[1..], trail)
  }

  /** Between two names there is at least one separator. */
  ghost predicate Spells(gaps: seq<nat>, names: seq<string>) {
    && |gaps| == |names| && AllNames(names)
    && forall i :: 1 <= i < |gaps| ==> gaps[i] > 0
  }

  lemma {:induction false} SkipSlashes(n: nat, rest: string)
    ensures DropEmpty(Split(Slashes(n) + rest)) == DropEmpty(Split(rest))
  {
    if n == 0 {
      assert Slashes(0) + rest == rest;
    } else {
      SkipSlashes(n - 1, rest);
      var s := Slashes(n) + rest;
      assert s[0] == '/' && s[1..] == Slashes(n - 1) + rest;
      assert ([""] + Split(s[1..]))[1..] == Split(s[1..]);
    }
  }

  lemma NameFirst(n: string, rest: string)
    requires IsName(n) && (rest != "" ==> rest[0] == '/')
    ensures DropEmpty(Split(n + rest)) == [n] + DropEmpty(Split(rest))
  {
    if rest == "" {
      assert n + rest == n;
      SplitName(n);
      DropEmptyAppend(n, []);
      assert [n] + [] == [n] && DropEmpty([""]) == [];
    } else {
      assert n + rest == n + "/" + rest[1..];
      SplitAtSlash(n, rest[1..]);
      DropEmptyAppend(n, Split(rest[1..]));
      assert ([""] + Split(rest[1..]))[1..] == Split(rest[1..]);
    }
  }

  lemma SpellStarts(gaps: seq<nat>, names: seq<string>, trail: nat)
    requires Spells(gaps, names)
    ensures names != [] && gaps[0] > 0 ==> Spell(gaps, names, trail) != "" && Spell(gaps, names, trail)[0] == '/'
    ensures names != [] && gaps[0] == 0 ==> Spell(gaps, names, trail) != "" && Spell(gaps, names, trail)[0] != '/'
    ensures names == [] ==> (Spell(gaps, names, trail) != "" <==> trail > 0)
    ensures names == [] && trail > 0 ==> Spell(gaps, names, trail)[0] == '/'
  {
    if names != [] {
      assert IsName(names[0]) && names[0][0] in names[0];
    }
  }

  lemma {:induction false} SlashesEnd(n: nat)
    requires n > 0
    ensures Slashes(n) != "" && Slashes(n)[|Slashes(n)| - 1] == '/'
  {
    if n > 1 { SlashesEnd(n - 1); }
  }

  lemma Grouped(a: string, b: string, c: string)
    ensures a + b + c == a + (b + c)
  {
  }

  lemma RestSpells(gaps: seq<nat>, names: seq<string>)
    requires Spells(gaps, names) && names != []
    ensures Spells(gaps[1..], names[1..]) && IsName(names[0])
  {
    forall m | m in names[1..] ensures IsName(m) { assert m in names; }
  }

  lemma {:induction false} SpellNames(gaps: seq<nat>, names: seq<string>, trail: nat)
    requires Spells(gaps, names)
    ensures DropEmpty(Split(Spell(gaps, names, trail))) == names
    decreases |names|
  {
    if names == [] {
      SkipSlashes(trail, "");
      assert Slashes(trail) + "" == Slashes(trail) && DropEmpty([""]) == [];
    } else {
      var rest := Spell(gaps[1..], names[1..], trail);
      RestSpells(gaps, names);
      SpellNames(gaps[1..], names[1..], trail);
      SpellStarts(gaps[1..], names[1..], trail);
      NameFirst(names[0], rest);
      SkipSlashes(gaps[0], names[0] + rest);
      Grouped(Slashes(gaps[0]), names[0], rest);
    }
  }

  lemma {:induction false} SpellEnds(gaps: seq<nat>, names: seq<string>, trail: nat)
    requires Spells(gaps, names) && names != []
    ensures var s := Spell(gaps, names, trail); s != "" && (s[|s| - 1] == '/' <==> trail > 0)
    decreases |names|
  {
    var rest := Spell(gaps[1..], names[1..], trail);
    assert IsName(names[0]) && names[0][|names[0]| - 1] in names[0];
    if |names| == 1 {
      if trail > 0 { SlashesEnd(trail); }
    } else {
      RestSpells(gaps, names);
      SpellEnds(gaps[1..], names[1..], trail);
    }
  }

  /** Any spelling parses to its names: absolute exactly if it begins with a separator, trailing exactly
      if it ends with one after a name; how many separators stand together does not matter. */
  lemma SpellingParses(gaps: seq<nat>, names: seq<string>, trail: nat)
    requires Spells(gaps, names) && names != []
    ensures Parse(Spell(gaps, names, trail)) == Path(gaps[0] > 0, names, trail > 0)
  {
    SpellNames(gaps, names, trail);
    SpellEnds(gaps, names, trail);
    SpellStarts(gaps, names, trail);
  }

  lemma SeparatorsParse(trail: nat)
    ensures Parse(Slashes(trail)) == Path(trail > 0, [], false)
  {
    SkipSlashes(trail, "");
    assert Slashes(trail) + "" == Slashes(trail) && DropEmpty([""]) == [];
  }

  /** And every string is a spelling. */
  lemma {:induction false} EveryStringIsSpelled(s: string) returns (gaps: seq<nat>, names: seq<string>, trail: nat)
    ensures Spells(gaps, names) && s == Spell(gaps, names, trail)
    decreases |s|
  {
    if s == "" {
      gaps, names, trail := [], [], 0;
    } else {
      gaps, names, trail := EveryStringIsSpelled(s[1..]);
      assert s == [s[0]] + s[1..];
      if s[0] == '/' {
        if names == [] {
          trail := trail + 1;
        } else {
          OneMoreSlash(gaps, names, trail);
          gaps := [gaps[0] + 1] + gaps[1..];
        }
      } else if names != [] && gaps[0] == 0 {
        OneMoreChar(s[0], gaps, names, trail);
        names := [[s[0]] + names[0]] + names[1..];
      } else {
        ANewName(s[0], gaps, names, trail);
        gaps, names := [0] + gaps, [[s[0]]] + names;
      }
    }
  }

  lemma OneMoreSlash(gaps: seq<nat>, names: seq<string>, trail: nat)
    requires Spells(gaps, names) && names != []
    ensures var more := [gaps[0] + 1] + gaps[1..];
            Spells(more, names) && Spell(more, names, trail) == "/" + Spell(gaps, names, trail)
  {
    var more := [gaps[0] + 1] + gaps[1..];
    assert more[1..] == gaps[1..];
    assert "/" + Slashes(gaps[0]) + names[0] + Spell(gaps[1..], names[1..], trail)
           == "/" + (Slashes(gaps[0]) + names[0] + Spell(gaps[1..], names[1..], trail));
  }

  lemma OneMoreChar(c: char, gaps: seq<nat>, names: seq<string>, trail: nat)
    requires c != '/' && Spells(gaps, names) && names != [] && gaps[0] == 0
    ensures var longer := [[c] + names[0]] + names[1..];
            Spells(gaps, longer) && Spell(gaps, longer, trail) == [c] + Spell(gaps, names, trail)
  {
    var longer := [[c] + names[0]] + names[1..];
    assert longer[1..] == names[1..];
    assert IsName(names[0]) && IsName([c] + names[0]);
    forall m | m in longer ensures IsName(m) {
      if m != [c] + names[0] { assert m in names; }
    }
    var rest := Spell(gaps[1..], names[1..], trail);
    assert "" + ([c] + names[0]) + rest == [c] + ("" + names[0] + rest);
  }

  lemma ANewName(c: char, gaps: seq<nat>, names: seq<string>, trail: nat)
    requires c != '/' && Spells(gaps, names) && (names != [] ==> gaps[0] > 0)
    ensures var more, moreNames := [0] + gaps, [[c]] + names;
            Spells(more, moreNames) && Spell(more, moreNames, trail) == [c] + Spell(gaps, names, trail)
  {
    var more, moreNames := [0] + gaps, [[c]] + names;
    assert more[1..] == gaps && moreNames[1..] == names;
    assert IsName([c]);
    forall m | m in moreNames ensures IsName(m) {
      if m != [c] { assert m in names; }
    }
    assert "" + [c] + Spell(gaps, names, trail) == [c] + Spell(gaps, names, trail);
  }

  // ----- what a client spells, and what it gets

  /** Names a client can ask for as they are. */
  ghost predicate PlainNames(names: Names) {
    names != [] && AllNames(names) && DOT !in names && DOTDOT !in names
  }

  lemma PlainTail(names: Names)
    requires names != [] && DOT !in names && DOTDOT !in names
    ensures names[0] != DOT && names[0] != DOTDOT && DOT !in names[1..] && DOTDOT !in names[1..]
  {
    assert names[0] in names;
  }

  lemma OneOn(at: Names, names: Names)
    requires names != []
    ensures at + [names[0]] + names[1..] == at + names
  {
  }

  lemma PlainWalk(at: Names, names: Names)
    requires DOT !in at && DOTDOT !in at && DOT !in names && DOTDOT !in names
    ensures Walk(true, at, names) == at + names
    decreases |names|
  {
    if names == [] {
      assert at + names == at;
    } else {
      PlainTail(names);
      PlainWalk(at + [names[0]], names[1..]);
      OneOn(at, names);
    }
  }

  /** Where a plain spelling leads: absolute ones start at the top, others at the base. */
  function Spelled(base: Path, absolute: bool, names: Names): Names {
    if absolute then names else base.names + names
  }

  lemma SpelledWalk(base: Path, absolute: bool, names: Names, trailing: bool)
    requires DOT !in base.names && DOTDOT !in base.names && DOT !in names && DOTDOT !in names
    ensures WalkFrom(base, Path(absolute, names, trailing)) == Spelled(base, absolute, names)
  {
    PlainWalk(if absolute then [] else base.names, names);
    assert [] + names == names;
  }

  /** A workspace and an output directory spelled with plain names, absolute or not: accepted exactly
      when both places are at or below the root, and then these are the places. */
  lemma SpelledRequest(root: Path, wGaps: seq<nat>, w: Names, oGaps: seq<nat>, o: Names)
    requires IsRoot(root) && PlainNames(w) && PlainNames(o) && Spells(wGaps, w) && Spells(oGaps, o)
    ensures var r := ResolveTaskPaths(root, Spell(wGaps, w, 0), Spell(oGaps, o, 0));
            var wPlace, oPlace := Spelled(root, wGaps[0] > 0, w), Spelled(root, oGaps[0] > 0, o);
            && (r.Accepted? <==> root.names <= wPlace && root.names <= oPlace)
            && (r.Accepted? ==> r.paths.workspace.names == wPlace && r.paths.output.names == oPlace)
  {
    var ws, os := Spell(wGaps, w, 0), Spell(oGaps, o, 0);
    SpellingParses(wGaps, w, 0);
    SpellingParses(oGaps, o, 0);
    SpellStarts(wGaps, w, 0);
    SpellStarts(oGaps, o, 0);
    SpelledWalk(root, wGaps[0] > 0, w, false);
    SpelledWalk(root, oGaps[0] > 0, o, false);
    AcceptedIff(root, ws, os);
    NormalizedIsWalk(root, WorkspaceSuffix(ws));
    NormalizedIsWalk(root, OutputSuffix(ws, os));
  }

  /** A workspace spelled with plain names and no output directory: the output is the directory `output`
      inside the workspace. */
  lemma SpelledWorkspace(root: Path, gaps: seq<nat>, w: Names)
    requires IsRoot(root) && PlainNames(w) && Spells(gaps, w)
    ensures var r := ResolveTaskPaths(root, Spell(gaps, w, 0), "");
            var place := Spelled(root, gaps[0] > 0, w);
            && (r.Accepted? <==> root.names <= place)
            && (r.Accepted? ==> r.paths.workspace.names == place && r.paths.output.names == place + ["output"])
  {
    var ws := Spell(gaps, w, 0);
    SpellingParses(gaps, w, 0);
    SpellStarts(gaps, w, 0);
    SpelledWalk(root, gaps[0] > 0, w, false);
    SpelledWalk(root, gaps[0] > 0, w + ["output"], false);
    AcceptedIff(root, ws, "");
    assert OutputSuffix(ws, "") == Path(gaps[0] > 0, w + ["output"], false);
    NormalizedIsWalk(root, WorkspaceSuffix(ws));
    NormalizedIsWalk(root, OutputSuffix(ws, ""));
    var place := Spelled(root, gaps[0] > 0, w);
    assert Spelled(root, gaps[0] > 0, w + ["output"]) == place + ["output"];
  }

  /** Nothing asked for: the workspace is `uploaded_task` and its output is inside it. */
  lemma DefaultRequest(root: Path)
    requires IsRoot(root)
    ensures var r := ResolveTaskPaths(root, "", "");
            && r.Accepted?
            && r.paths.workspace.names == root.names + ["uploaded_task"]
            && r.paths.output.names == root.names + ["uploaded_task", "output"]
  {
    var w := ["uploaded_task"];
    SplitName("uploaded_task");
    DropEmptyAppend("uploaded_task", []);
    assert WorkspaceSuffix("") == Path(false, w, false);
    assert OutputSuffix("", "") == Path(false, ["uploaded_task", "output"], false);
    SpelledWalk(root, false, w, false);
    SpelledWalk(root, false, ["uploaded_task", "output"], false);
    AcceptedIff(root, "", "");
    NormalizedIsWalk(root, WorkspaceSuffix(""));
    NormalizedIsWalk(root, OutputSuffix("", ""));
  }

  /** A chunk whose path is spelled with plain names, absolute or not, is accepted exactly when the place
      is at or below the workspace, if that is not spelled with a trailing separator. */
  lemma SpelledChunk(root: Path, workspace: Path, gaps: seq<nat>, names: Names, chunk: Chunk)
    requires IsRoot(root) && Below(root, workspace) && !workspace.trailing
    requires PlainNames(names) && Spells(gaps, names) && chunk.relativePath == Spell(gaps, names, 0)
    ensures var place := Spelled(workspace, gaps[0] > 0, names);
            && PathStatus(workspace, chunk) == (if workspace.names <= place then Ok else PermissionDenied)
            && WriteOf(workspace, chunk).target.names == place
  {
    SpellingParses(gaps, names, 0);
    SpellStarts(gaps, names, 0);
    SpelledWalk(workspace, gaps[0] > 0, names, false);
    FileAcceptedIff(root, workspace, chunk.relativePath);
  }
}

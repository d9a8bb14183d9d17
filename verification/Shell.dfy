/** Quoting a command for the shell, against the shell's own reading of the result. */
module Shell {

  // ----- the reference: how a shell splits a line into words

  /** Reading position: outside quotes, after an unquoted backslash, inside single quotes, inside
      double quotes, or after a backslash inside double quotes. */
  datatype Mode = Plain | Escape | Single | Double | DoubleEscape

  /** What has been read: the finished words, and the word being read if one has begun. */
  datatype Reading = Reading(words: seq<string>, begun: bool, word: string, mode: Mode)

  datatype Line = Words(words: seq<string>) | Unterminated | OtherSyntax

  const NUL: char := '\0'

  predicate IsBlank(c: char) {
    c == ' ' || c == '\t'
  }

  /** Characters that, unquoted, begin something other than a plain word: operators, expansions,
      patterns, comments, assignments and the end of the line. */
  predicate IsSpecial(c: char) {
    c in "|&;<>()$`\n*?[#~=%!{}"
  }

  function AddChar(r: Reading, c: char): Reading {
    r.(begun := true, word := r.word + [c],
       mode := if r.mode.Escape? then Plain else if r.mode.DoubleEscape? then Double else r.mode)
  }

  function EndWord(r: Reading): Reading {
    if r.begun then Reading(r.words + [r.word], false, "", Plain) else r
  }

  /** Sections 2.2.1, 2.2.2, 2.2.3 and 2.3 of the Shell Command Language of POSIX.1-2017, for lines
      of plain and quoted words; anything else is left as other syntax. */
  function ReadFrom(r: Reading, s: string): Line
    decreases |s|
  {
    if s == "" then
      if r.mode.Plain? then Words(EndWord(r).words) else Unterminated
    else
      var c, rest := s[0], s[1..];
      match r.mode
      case Plain =>
        if c == '\'' then ReadFrom(r.(begun := true, mode := Single), rest)
        else if c == '"' then ReadFrom(r.(begun := true, mode := Double), rest)
        else if c == '\\' then ReadFrom(r.(mode := Escape), rest)
        else if IsBlank(c) then ReadFrom(EndWord(r), rest)
        else if IsSpecial(c) then OtherSyntax
        else ReadFrom(AddChar(r, c), rest)
      case Escape =>
        // a backslash before a newline joins the two lines
        if c == '\n' then ReadFrom(r.(mode := Plain), rest) else ReadFrom(AddChar(r, c), rest)
      case Single =>
        if c == '\'' then ReadFrom(r.(mode := Plain), rest) else ReadFrom(AddChar(r, c), rest)
      case Double =>
        if c == '"' then ReadFrom(r.(mode := Plain), rest)
        else if c == '$' || c == '`' then OtherSyntax
        else if c == '\\' then ReadFrom(r.(mode := DoubleEscape), rest)
        else ReadFrom(AddChar(r, c), rest)
      case DoubleEscape =>
        // inside double quotes a backslash stays unless it quotes one of these
        if c == '\n' then ReadFrom(r.(mode := Double), rest)
        else if c in "$`\"\\" then ReadFrom(AddChar(r, c), rest)
        else ReadFrom(AddChar(r.(word := r.word + ['\\']), c), rest)
  }

  function ReadLine(s: string): Line {
    ReadFrom(Reading([], false, "", Plain), s)
  }

  /** What a program is handed: a C string ends at its first NUL. */
  function CString(s: string): string {
    if s == "" || s[0] == NUL then "" else [s[0]] + CString(s[1..])
  }

  // ----- the server's quoting

  const QUOTE_IN_QUOTES: string := "'\\''"

  function EscapeChar(c: char): string {
    if c == '\'' then QUOTE_IN_QUOTES else [c]
  }

  function EscapeBody(s: string): string {
    if s == "" then "" else EscapeBody(s[..|s| - 1]) + EscapeChar(s[|s| - 1])
  }

  function Escaped(s: string): string {
    "'" + EscapeBody(s) + "'"
  }

  method ShellEscape(input: string) returns (escaped: string)
    ensures escaped == Escaped(input)
  {
    escaped := "'";
    for i := 0 to |input|
      invariant escaped == "'" + EscapeBody(input[..i])
    {
      assert input[..i + 1][..i] == input[..i];
      if input[i] == '\'' {
        escaped := escaped + "'\\''";
      } else {
        escaped := escaped + [input[i]];
      }
    }
    assert input[..|input|] == input;
    escaped := escaped + "'";
  }

  const STDBUF_ARGUMENTS: string := " -oL -eL /bin/sh -c "

  /** The command line handed to the shell; `stdbuf` is where the wrapper was found, if anywhere. */
  function CommandForExecution(command: string, wantPty: bool, stdbuf: string): string {
    if wantPty || stdbuf == "<not found>" || stdbuf == "<PATH unset>" then command
    else Escaped(stdbuf) + STDBUF_ARGUMENTS + Escaped(command)
  }

  // ----- quoting is read back

  lemma {:induction false} BodyAppend(a: string, b: string)
    ensures EscapeBody(a + b) == EscapeBody(a) + EscapeBody(b)
    decreases |b|
  {
    if b == "" {
      assert a + b == a;
    } else {
      var n := |b| - 1;
      assert (a + b)[..|a + b| - 1] == a + b[..n];
      BodyAppend(a, b[..n]);
    }
  }

  lemma CharReads(r: Reading, c: char, tail: string)
    requires r.mode.Single? && r.begun
    ensures ReadFrom(r, EscapeChar(c) + tail) == ReadFrom(r.(word := r.word + [c]), tail)
  {
    var s := EscapeChar(c) + tail;
    if c == '\'' {
      assert s[0] == '\'' && s[1] == '\\' && s[2] == '\'' && s[3] == '\'';
      assert s[1..][1..][1..][1..] == tail;
      var r1 := r.(mode := Plain);
      var r2 := r1.(mode := Escape);
      var r3 := AddChar(r2, '\'');
      assert ReadFrom(r, s) == ReadFrom(r1, s[1..]);
      assert ReadFrom(r1, s[1..]) == ReadFrom(r2, s[1..][1..]);
      assert ReadFrom(r2, s[1..][1..]) == ReadFrom(r3, s[1..][1..][1..]);
      assert ReadFrom(r3, s[1..][1..][1..]) == ReadFrom(r3.(mode := Single), tail);
    } else {
      assert s[0] == c && s[1..] == tail;
    }
  }

  lemma Associate(a: string, b: string, c: string)
    ensures (a + b) + c == a + (b + c)
  {
  }

  lemma OneChar(c: char)
    ensures EscapeBody([c]) == EscapeChar(c)
  {
    assert [c][..0] == "" && EscapeBody("") == "";
  }

  lemma BodyHead(s: string, rest: string)
    requires s != ""
    ensures EscapeBody(s) + rest == EscapeChar(s[0]) + (EscapeBody(s[1..]) + rest)
  {
    assert s == [s[0]] + s[1..];
    BodyAppend([s[0]], s[1..]);
    OneChar(s[0]);
    Associate(EscapeChar(s[0]), EscapeBody(s[1..]), rest);
  }

  /** Inside single quotes, an escaped body reads as the original. */
  lemma {:induction false} BodyReads(r: Reading, s: string, rest: string)
    requires r.mode.Single? && r.begun
    ensures ReadFrom(r, EscapeBody(s) + rest) == ReadFrom(r.(word := r.word + s), rest)
    decreases |s|
  {
    if s == "" {
      assert EscapeBody(s) + rest == rest && r.word + s == r.word;
    } else {
      BodyHead(s, rest);
      CharReads(r, s[0], EscapeBody(s[1..]) + rest);
      BodyReads(r.(word := r.word + [s[0]]), s[1..], rest);
      assert r.word + [s[0]] + s[1..] == r.word + s;
    }
  }

  /** Between words, a quote opens a word and the body that follows becomes it. */
  lemma OpenReads(r: Reading, s: string, rest: string)
    requires r == Reading(r.words, false, "", Plain)
    ensures ReadFrom(r, "'" + EscapeBody(s) + rest) == ReadFrom(Reading(r.words, true, s, Single), rest)
  {
    var line := "'" + EscapeBody(s) + rest;
    assert line[0] == '\'' && line[1..] == EscapeBody(s) + rest;
    BodyReads(r.(begun := true, mode := Single), s, rest);
    assert "" + s == s;
  }

  lemma EscapedReads(r: Reading, s: string, rest: string)
    requires r == Reading(r.words, false, "", Plain)
    ensures ReadFrom(r, Escaped(s) + rest) == ReadFrom(Reading(r.words, true, s, Plain), rest)
  {
    var tail := "'" + rest;
    assert Escaped(s) + rest == "'" + EscapeBody(s) + tail;
    OpenReads(r, s, tail);
    assert tail[1..] == rest;
  }

  /** Quoting round trip: the shell reads a quoted string as exactly one word, the string itself. */
  lemma QuotingRoundTrip(s: string)
    ensures ReadLine(Escaped(s)) == Words([s])
  {
    EscapedReads(Reading([], false, "", Plain), s, "");
    assert Escaped(s) + "" == Escaped(s);
    assert [] + [s] == [s];
  }

  // ----- the stdbuf wrapper

  predicate IsPlain(c: char) {
    c != '\'' && c != '"' && c != '\\' && !IsBlank(c) && !IsSpecial(c)
  }

  lemma {:induction false} PlainReads(r: Reading, w: string, rest: string)
    requires r.mode.Plain? && (w != "" ==> r.begun) && forall c :: c in w ==> IsPlain(c)
    ensures ReadFrom(r, w + rest) == ReadFrom(r.(word := r.word + w), rest)
    decreases |w|
  {
    if w == "" {
      assert w + rest == rest && r.word + w == r.word;
    } else {
      assert w[0] in w && (w + rest)[0] == w[0] && (w + rest)[1..] == w[1..] + rest;
      PlainReads(r.(word := r.word + [w[0]]), w[1..], rest);
      assert r.word + [w[0]] + w[1..] == r.word + w;
    }
  }

  ghost predicate PlainWord(w: string) {
    w != "" && forall c :: c in w ==> IsPlain(c)
  }

  lemma BlankEnds(r: Reading, tail: string)
    requires r.mode.Plain? && r.begun
    ensures ReadFrom(r, " " + tail) == ReadFrom(Reading(r.words + [r.word], false, "", Plain), tail)
  {
    assert (" " + tail)[1..] == tail;
  }

  lemma PlainBegins(words: seq<string>, w: string, rest: string)
    requires PlainWord(w)
    ensures ReadFrom(Reading(words, false, "", Plain), w + rest) == ReadFrom(Reading(words, true, w, Plain), rest)
  {
    assert w[0] in w && (w + rest)[0] == w[0] && (w + rest)[1..] == w[1..] + rest;
    PlainReads(Reading(words, true, [w[0]], Plain), w[1..], rest);
    assert "" + [w[0]] == [w[0]] && [w[0]] + w[1..] == w;
  }

  /** A blank ends the word; the plain characters after it begin the next. */
  lemma NextWord(r: Reading, w: string, rest: string)
    requires r.mode.Plain? && r.begun && PlainWord(w)
    ensures ReadFrom(r, " " + w + rest) == ReadFrom(Reading(r.words + [r.word], true, w, Plain), rest)
  {
    assert " " + w + rest == " " + (w + rest);
    BlankEnds(r, w + rest);
    PlainBegins(r.words + [r.word], w, rest);
  }

  /** Words, each after a blank. */
  function Spaced(ws: seq<string>): string {
    if ws == [] then "" else " " + ws[0] + Spaced(ws[1..])
  }

  lemma {:induction false} SpacedReads(words: seq<string>, w: string, ws: seq<string>, rest: string)
    requires forall i :: 0 <= i < |ws| ==> PlainWord(ws[i])
    ensures ReadFrom(Reading(words, true, w, Plain), Spaced(ws) + (" " + rest))
            == ReadFrom(Reading(words + [w] + ws, false, "", Plain), rest)
    decreases |ws|
  {
    var tail := " " + rest;
    if ws == [] {
      assert Spaced(ws) + tail == tail && tail[1..] == rest;
      assert words + [w] + ws == words + [w];
    } else {
      Associate(" " + ws[0], Spaced(ws[1..]), tail);
      NextWord(Reading(words, true, w, Plain), ws[0], Spaced(ws[1..]) + tail);
      SpacedReads(words + [w], ws[0], ws[1..], rest);
      assert words + [w] + [ws[0]] + ws[1..] == words + [w] + ws;
    }
  }

  function WrapperWords(): (ws: seq<string>)
    ensures forall i :: 0 <= i < |ws| ==> PlainWord(ws[i])
  {
    ["-oL", "-eL", "/bin/sh", "-c"]
  }

  lemma SpacedStep(w: string, ws: seq<string>, line: string)
    requires Spaced(ws) == line
    ensures Spaced([w] + ws) == " " + w + line
  {
    assert ([w] + ws)[0] == w && ([w] + ws)[1..] == ws;
  }

  lemma ArgumentsAreSpaced()
    ensures STDBUF_ARGUMENTS == Spaced(WrapperWords()) + " "
  {
    SpacedStep("-c", [], "");
    SpacedStep("/bin/sh", ["-c"], " " + "-c" + "");
    SpacedStep("-eL", ["/bin/sh"] + ["-c"], " /bin/sh -c");
    SpacedStep("-oL", ["-eL"] + (["/bin/sh"] + ["-c"]), " -eL /bin/sh -c");
    assert WrapperWords() == ["-oL"] + (["-eL"] + (["/bin/sh"] + ["-c"]));
  }

  lemma WrapperReads(stdbuf: string, body: string)
    ensures ReadLine(Escaped(stdbuf) + STDBUF_ARGUMENTS + body)
            == ReadFrom(Reading([stdbuf] + WrapperWords(), false, "", Plain), body)
  {
    var rest := STDBUF_ARGUMENTS + body;
    Associate(Escaped(stdbuf), STDBUF_ARGUMENTS, body);
    EscapedReads(Reading([], false, "", Plain), stdbuf, rest);
    ArgumentsAreSpaced();
    Associate(Spaced(WrapperWords()), " ", body);
    SpacedReads([], stdbuf, WrapperWords(), body);
    assert [] + [stdbuf] == [stdbuf];
  }

  // ----- C strings

  lemma {:induction false} CStringWhole(s: string)
    requires NUL !in s
    ensures CString(s) == s
  {
    if s != "" {
      CStringWhole(s[1..]);
    }
  }

  lemma {:induction false} CStringCut(a: string, b: string)
    requires NUL !in a
    ensures CString(a + [NUL] + b) == a
    decreases |a|
  {
    var s := a + [NUL] + b;
    if a != "" {
      assert s[0] == a[0] && s[1..] == a[1..] + [NUL] + b;
      CStringCut(a[1..], b);
    }
  }

  lemma {:induction false} BodyHasNul(s: string)
    ensures NUL in EscapeBody(s) <==> NUL in s
    decreases |s|
  {
    if s != "" {
      BodyHasNul(s[..|s| - 1]);
      assert s == s[..|s| - 1] + [s[|s| - 1]];
    }
  }

  /** The part before the first NUL. */
  lemma {:induction false} FirstNul(s: string) returns (a: string, b: string)
    requires NUL in s
    ensures s == a + [NUL] + b && NUL !in a
    decreases |s|
  {
    if s[0] == NUL {
      a, b := "", s[1..];
    } else {
      a, b := FirstNul(s[1..]);
      a := [s[0]] + a;
    }
  }

  lemma EscapedAround(a: string, b: string)
    ensures Escaped(a + [NUL] + b) == ("'" + EscapeBody(a)) + [NUL] + (EscapeBody(b) + "'")
  {
    BodyAppend(a + [NUL], b);
    BodyAppend(a, [NUL]);
    OneChar(NUL);
    Quoted(EscapeBody(a), [NUL], EscapeBody(b));
  }

  lemma Quoted(x: string, m: string, y: string)
    ensures "'" + (x + m + y) + "'" == ("'" + x) + m + (y + "'")
  {
  }

  lemma Regroup(p: string, o: string, m: string, c: string)
    ensures p + (o + m + c) == (p + o) + m + c
  {
  }

  /** The line of a wrapped command up to the first NUL of the command. */
  lemma WrappedCut(prefix: string, command: string, a: string, b: string)
    requires command == a + [NUL] + b && NUL !in a && NUL !in prefix
    ensures CString(prefix + Escaped(command)) == prefix + ("'" + EscapeBody(a))
  {
    BodyHasNul(a);
    EscapedAround(a, b);
    Regroup(prefix, "'" + EscapeBody(a), [NUL], EscapeBody(b) + "'");
    CStringCut(prefix + ("'" + EscapeBody(a)), EscapeBody(b) + "'");
  }

  lemma SixWords(stdbuf: string, command: string)
    ensures [stdbuf] + WrapperWords() + [command] == [stdbuf, "-oL", "-eL", "/bin/sh", "-c", command]
  {
  }

  /** The command is executed as it stands exactly in terminal mode or when the wrapper is not found. */
  lemma UnwrappedIff(command: string, wantPty: bool, stdbuf: string)
    ensures CommandForExecution(command, wantPty, stdbuf) == command
            <==> wantPty || stdbuf == "<not found>" || stdbuf == "<PATH unset>"
  {
    BodyAtLeast(command);
    if !(wantPty || stdbuf == "<not found>" || stdbuf == "<PATH unset>") {
      assert |CommandForExecution(command, wantPty, stdbuf)|
             == |Escaped(stdbuf)| + |STDBUF_ARGUMENTS| + |Escaped(command)|;
    }
  }

  lemma {:induction false} BodyAtLeast(s: string)
    ensures |EscapeBody(s)| >= |s|
    decreases |s|
  {
    if s != "" { BodyAtLeast(s[..|s| - 1]); }
  }

  /** What the inner shell is given. A command without NULs arrives as the single last argument,
      unchanged; one with a NUL does not parse at all, because its closing quote is cut off. */
  lemma CommandArrivesIff(command: string, stdbuf: string)
    requires NUL !in stdbuf && stdbuf != "<not found>" && stdbuf != "<PATH unset>"
    ensures ReadLine(CString(CommandForExecution(command, false, stdbuf)))
            == if NUL in command then Unterminated else Words([stdbuf, "-oL", "-eL", "/bin/sh", "-c", command])
  {
    SixWords(stdbuf, command);
    var between := Reading([stdbuf] + WrapperWords(), false, "", Plain);
    if NUL in command {
      var a, b := FirstNul(command);
      BodyHasNul(stdbuf);
      WrappedCut(Escaped(stdbuf) + STDBUF_ARGUMENTS, command, a, b);
      WrapperReads(stdbuf, "'" + EscapeBody(a));
      OpenReads(between, a, "");
      assert "'" + EscapeBody(a) + "" == "'" + EscapeBody(a);
    } else {
      BodyHasNul(command);
      BodyHasNul(stdbuf);
      CStringWhole(Escaped(stdbuf) + STDBUF_ARGUMENTS + Escaped(command));
      WrapperReads(stdbuf, Escaped(command));
      EscapedReads(between, command, "");
      assert Escaped(command) + "" == Escaped(command);
    }
  }
}

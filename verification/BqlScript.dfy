/** Whole scripts: sentences when no line is at fault, and otherwise the lines that are. */
module BqlScript {
  import opened Text
  import opened BqlLexer
  import opened BqlParser
  import opened BqlCursor
  import opened BqlGrammar
  import opened BqlRoundTrip
  import opened BqlAccepted

  /** A sentence with its 1-based source line. */
  datatype Located = Located(line: nat, sentence: Sentence)

  /** All the sentences, or the line number of every error. */
  datatype ScriptResult = ScriptResult(ok: bool, sentences: seq<Located>, errors: seq<nat>)

  /** Blank lines and comments say nothing. */
  predicate Speaks(line: string) {
    var text := Trim(line);
    text != "" && text[0] != '#'
  }

  function LineSentence(line: string): Option<Sentence> {
    SentenceIn(Trim(line))
  }

  function GoodLines(lines: seq<string>, n: nat): seq<Located>
    requires n <= |lines|
  {
    if n == 0 then []
    else
      var before := GoodLines(lines, n - 1);
      if Speaks(lines[n - 1]) && LineSentence(lines[n - 1]).Some?
      then before + [Located(n, LineSentence(lines[n - 1]).value)] else before
  }

  function BadLines(lines: seq<string>, n: nat): seq<nat>
    requires n <= |lines|
  {
    if n == 0 then []
    else
      var before := BadLines(lines, n - 1);
      if Speaks(lines[n - 1]) && LineSentence(lines[n - 1]).None? then before + [n] else before
  }

  function ScriptOf(script: string): ScriptResult {
    var lines := Split(script, '\n');
    var bad := BadLines(lines, |lines|);
    if bad == [] then ScriptResult(true, GoodLines(lines, |lines|), []) else ScriptResult(false, [], bad)
  }

  // ---------------------------------------------------------------------
  // The source's loops
  // ---------------------------------------------------------------------

  lemma SplitOnce(s: string)
    ensures var end := FindChar(s, '\n', 0);
            Split(s, '\n') == if end == |s| then [s] else [s[..end]] + Split(s[end + 1..], '\n')
  {
    hide FindChar;
  }

  lemma SliceAfter(pre: string, s: string, a: nat, b: nat)
    requires a <= b <= |s|
    ensures (pre + s)[|pre| + a..|pre| + b] == s[a..b] && (pre + s)[|pre| + a..] == s[a..]
  {
  }

  lemma SplitAfter(pre: string, rest: string)
    ensures var s, start := pre + rest, |pre|;
            var end := FindChar(s, '\n', start);
            Split(rest, '\n') == if end == |s| then [rest] else [s[start..end]] + Split(s[end + 1..], '\n')
  {
    hide Split, FindChar;
    SplitOnce(rest);
    FindCharShift(pre, rest, '\n', 0);
    var k := FindChar(rest, '\n', 0);
    SliceAfter(pre, rest, 0, k);
    if k < |rest| { SliceAfter(pre, rest, k + 1, |rest|); }
  }

  lemma SplitSuffix(s: string, start: nat)
    requires start <= |s|
    ensures var end := FindChar(s, '\n', start);
            Split(s[start..], '\n') ==
            if end == |s| then [s[start..]] else [s[start..end]] + Split(s[end + 1..], '\n')
  {
    hide Split, FindChar;
    assert s == s[..start] + s[start..];
    SplitAfter(s[..start], s[start..]);
  }

  method SplitLines(script: string) returns (lines: seq<string>)
    ensures lines == Split(script, '\n')
  {
    hide Split;
    ghost var whole := Split(script, '\n');
    lines := [];
    var start := 0;
    assert script[0..] == script && lines + whole == whole;
    while start <= |script|
      invariant 0 <= start <= |script|
      invariant lines + Split(script[start..], '\n') == whole
      decreases |script| - start
    {
      SplitSuffix(script, start);
      var end := FindChar(script, '\n', start);
      if end == |script| {
        lines := lines + [script[start..]];
        break;
      }
      Assoc(lines, [script[start..end]], Split(script[end + 1..], '\n'));
      lines := lines + [script[start..end]];
      start := end + 1;
    }
  }

  method ParseScript(script: string) returns (result: ScriptResult)
    ensures result == ScriptOf(script)
  {
    hide Split, Trim, SentenceIn;
    var lines := SplitLines(script);
    var sentences, errors := [], [];
    for i := 0 to |lines|
      invariant sentences == GoodLines(lines, i)
      invariant errors == BadLines(lines, i)
    {
      var text := Trim(lines[i]);
      if text == "" || text[0] == '#' { continue; }
      var parsed := ParseSentence(text);
      if parsed.Some? {
        sentences := sentences + [Located(i + 1, parsed.value)];
      } else {
        errors := errors + [i + 1];
      }
    }
    return ScriptResult(errors == [], if errors == [] then sentences else [], errors);
  }

  // ---------------------------------------------------------------------
  // All or nothing
  // ---------------------------------------------------------------------

  lemma {:induction false} GoodLinesAre(lines: seq<string>, n: nat)
    requires n <= |lines|
    ensures forall k :: k in GoodLines(lines, n) <==>
              1 <= k.line <= n && Speaks(lines[k.line - 1]) && LineSentence(lines[k.line - 1]) == Some(k.sentence)
    ensures forall i, j :: 0 <= i < j < |GoodLines(lines, n)| ==> GoodLines(lines, n)[i].line < GoodLines(lines, n)[j].line
  {
    hide Speaks, LineSentence;
    if n != 0 {
      GoodLinesAre(lines, n - 1);
      var before := GoodLines(lines, n - 1);
      forall i | 0 <= i < |before|
        ensures before[i].line < n
      {
        assert before[i] in before;
      }
    }
  }

  lemma {:induction false} BadLinesAre(lines: seq<string>, n: nat)
    requires n <= |lines|
    ensures forall k :: k in BadLines(lines, n) <==>
              1 <= k <= n && Speaks(lines[k - 1]) && LineSentence(lines[k - 1]) == None
    ensures forall i, j :: 0 <= i < j < |BadLines(lines, n)| ==> BadLines(lines, n)[i] < BadLines(lines, n)[j]
  {
    hide Speaks, LineSentence;
    if n != 0 {
      BadLinesAre(lines, n - 1);
      var before := BadLines(lines, n - 1);
      forall i | 0 <= i < |before|
        ensures before[i] < n
      {
        assert before[i] in before;
      }
    }
  }

  /** Nothing but blanks, or a "#" as the first thing after them. */
  ghost predicate Silent(line: string) {
    exists text :: TrimsTo(line, text) && (text == "" || text[0] == '#')
  }

  /** The line spells the sentence. */
  ghost predicate Says(line: string, s: Sentence) {
    exists tokens :: LineSpells(line, tokens, s)
  }

  lemma SilentIff(line: string)
    ensures Speaks(line) <==> !Silent(line)
  {
    TrimIff(line, Trim(line));
    if text :| TrimsTo(line, text) && (text == "" || text[0] == '#') { TrimIff(line, text); }
  }

  lemma TrimTwice(line: string)
    ensures Trim(Trim(line)) == Trim(line)
  {
    var i := TrimmedInk(line);
    AmongBlanksIsTrimmed(Trim(line), 0, Trim(line));
  }

  lemma SaysIff(line: string)
    ensures forall s :: LineSentence(line) == Some(s) <==> Says(line, s)
  {
    TrimTwice(line);
    forall s
      ensures SentenceIn(line) == Some(s) <==> Says(line, s)
    {
      LineIff(line, s);
    }
    hide Trim, SentenceOf;
  }

  /** The sentences are exactly those that the lines say, in order, with their line numbers. */
  ghost predicate SentencesOf(lines: seq<string>, ss: seq<Located>) {
    && (forall k :: k in ss <==> 1 <= k.line <= |lines| && !Silent(lines[k.line - 1]) && Says(lines[k.line - 1], k.sentence))
    && (forall i, j :: 0 <= i < j < |ss| ==> ss[i].line < ss[j].line)
  }

  ghost predicate Faulty(line: string) {
    !Silent(line) && forall s :: !Says(line, s)
  }

  ghost predicate AllSay(lines: seq<string>) {
    forall line :: line in lines ==> !Faulty(line)
  }

  /** The errors are exactly the numbers of the lines that are not silent and say no sentence, in order. */
  ghost predicate ErrorsOf(lines: seq<string>, errors: seq<nat>) {
    && (forall k :: k in errors <==> 1 <= k <= |lines| && Faulty(lines[k - 1]))
    && (forall i, j :: 0 <= i < j < |errors| ==> errors[i] < errors[j])
  }

  lemma FaultyIff(line: string)
    ensures Faulty(line) <==> Speaks(line) && LineSentence(line) == None
  {
    SilentIff(line);
    SaysIff(line);
    hide Speaks, LineSentence, Says, Silent;
    if LineSentence(line).Some? { assert Says(line, LineSentence(line).value); }
  }

  lemma GoodLinesSay(lines: seq<string>)
    ensures SentencesOf(lines, GoodLines(lines, |lines|))
  {
    hide Speaks, LineSentence, GoodLines, Silent, Says;
    GoodLinesAre(lines, |lines|);
    forall i | 0 <= i < |lines|
      ensures Silent(lines[i]) <==> !Speaks(lines[i])
      ensures forall s :: LineSentence(lines[i]) == Some(s) <==> Says(lines[i], s)
    {
      SilentIff(lines[i]);
      SaysIff(lines[i]);
    }
  }

  lemma BadLinesAreFaulty(lines: seq<string>)
    ensures ErrorsOf(lines, BadLines(lines, |lines|))
  {
    hide Speaks, LineSentence, BadLines, Faulty;
    BadLinesAre(lines, |lines|);
    forall i | 0 <= i < |lines|
      ensures Faulty(lines[i]) <==> Speaks(lines[i]) && LineSentence(lines[i]) == None
    {
      FaultyIff(lines[i]);
    }
  }

  /** A script succeeds exactly when every line that is not silent says a sentence; then it returns all those sentences
      and no error, and otherwise every error and no sentence. */
  lemma AllOrNothing(script: string)
    ensures var lines, r := Split(script, '\n'), ScriptOf(script);
            && (r.ok <==> AllSay(lines))
            && (r.ok ==> SentencesOf(lines, r.sentences) && r.errors == [])
            && (!r.ok ==> r.sentences == [] && ErrorsOf(lines, r.errors))
  {
    var lines := Split(script, '\n');
    var bad := BadLines(lines, |lines|);
    GoodLinesSay(lines);
    BadLinesAreFaulty(lines);
    NoErrors(lines, bad);
    hide GoodLines, BadLines, SentencesOf, ErrorsOf, AllSay;
  }

  lemma NoErrors(lines: seq<string>, errors: seq<nat>)
    requires ErrorsOf(lines, errors)
    ensures errors == [] <==> AllSay(lines)
  {
    hide Faulty;
    if errors == [] {
      forall line | line in lines
        ensures !Faulty(line)
      {
        var i :| 0 <= i < |lines| && lines[i] == line;
        assert i + 1 !in errors;
      }
    } else {
      assert errors[0] in errors;
      assert lines[errors[0] - 1] in lines;
    }
  }

  // ---------------------------------------------------------------------
  // Printing a script and parsing it
  // ---------------------------------------------------------------------

  function PrintedLines(ss: seq<Sentence>): seq<string> {
    seq(|ss|, i requires 0 <= i < |ss| => PrintSentence(ss[i]))
  }

  /** One sentence to a line. */
  function PrintScript(ss: seq<Sentence>): string {
    Join(PrintedLines(ss), '\n')
  }

  function Numbered(ss: seq<Sentence>): seq<Located> {
    seq(|ss|, i requires 0 <= i < |ss| => Located(i + 1, ss[i]))
  }

  /** A printed line says something, and says its sentence. */
  lemma PrintedLine(s: Sentence)
    requires Printable(s)
    ensures Speaks(PrintSentence(s)) && LineSentence(PrintSentence(s)) == Some(s)
  {
    SentenceNeat(s, '"');
    var ts := SentenceTokens(s);
    forall t | t in ts ensures WellFormed(t) { assert Neat(t, '"'); }
    RenderFirm(ts);
    TrimIdentity(PrintSentence(s));
    PrintThenParse(s);
    FirstIsLetter(s);
    hide SentenceTokens, PrintableBut, SentenceIn;
  }

  lemma FirstIsLetter(s: Sentence)
    ensures SentenceTokens(s) != [] && Show(SentenceTokens(s)[0]) != "" && Show(SentenceTokens(s)[0])[0] != '#'
  {
    hide ClauseTokens, AttrListTokens, WithTokens, NameListTokens, Words;
  }

  lemma PrintedAvoidsNewline(s: Sentence)
    requires PrintableBut(s, '\n')
    ensures '\n' !in PrintSentence(s)
    ensures Printable(s)
  {
    SentenceNeat(s, '\n');
    forall t | t in SentenceTokens(s) ensures '\n' !in t.value { assert Neat(t, '\n'); }
    RenderAvoids(SentenceTokens(s), '\n');
  }

  lemma {:induction false} AllGood(lines: seq<string>, ss: seq<Sentence>, n: nat)
    requires |lines| == |ss| && n <= |ss|
    requires forall i :: 0 <= i < |ss| ==> Speaks(lines[i]) && LineSentence(lines[i]) == Some(ss[i])
    ensures GoodLines(lines, n) == Numbered(ss)[..n]
    ensures BadLines(lines, n) == []
  {
    hide Speaks, LineSentence;
    if n != 0 {
      AllGood(lines, ss, n - 1);
      assert Numbered(ss)[..n] == Numbered(ss)[..n - 1] + [Located(n, ss[n - 1])];
    }
  }

  /** Printed sentences without newlines, one to a line, parse to themselves, numbered from 1. */
  lemma PrintedScriptParses(ss: seq<Sentence>)
    requires forall s :: s in ss ==> PrintableBut(s, '\n')
    ensures ScriptOf(PrintScript(ss)) == ScriptResult(true, Numbered(ss), [])
  {
    var lines := PrintedLines(ss);
    forall i | 0 <= i < |ss|
      ensures '\n' !in lines[i] && Speaks(lines[i]) && LineSentence(lines[i]) == Some(ss[i])
    {
      assert ss[i] in ss;
      PrintedAvoidsNewline(ss[i]);
      PrintedLine(ss[i]);
    }
    hide Speaks, LineSentence, PrintSentence, PrintableBut;
    if ss == [] {
      EmptyScript();
    } else {
      SplitJoin(lines, '\n');
      AllGood(lines, ss, |ss|);
      assert Numbered(ss)[..|ss|] == Numbered(ss);
    }
  }

  lemma EmptyScript()
    ensures ScriptOf("") == ScriptResult(true, [], [])
  {
    assert Split("", '\n') == [""];
    assert Trim("") == "";
    assert BadLines([""], 0) == [] && GoodLines([""], 0) == [];
  }

  lemma {:induction false} TrimAvoids(s: string, avoid: char)
    requires avoid !in s
    ensures avoid !in Trim(s)
  {
    TrimLeftAvoids(s, avoid);
    TrimRightAvoids(TrimLeft(s), avoid);
  }

  lemma {:induction false} TrimLeftAvoids(s: string, avoid: char)
    requires avoid !in s
    ensures avoid !in TrimLeft(s)
  {
    if s != "" && IsBlank(s[0]) { TrimLeftAvoids(s[1..], avoid); }
  }

  lemma {:induction false} TrimRightAvoids(s: string, avoid: char)
    requires avoid !in s
    ensures avoid !in TrimRight(s)
  {
    if s != "" && IsBlank(s[|s| - 1]) { TrimRightAvoids(s[..|s| - 1], avoid); }
  }

  /** Every accepted script has a normal form: its sentences, one to a line, which parses to the same
      sentences renumbered. */
  lemma ScriptNormalForm(script: string)
    requires ScriptOf(script).ok
    ensures var ss := Sentences(ScriptOf(script).sentences);
            ScriptOf(PrintScript(ss)) == ScriptResult(true, Numbered(ss), [])
  {
    var lines := Split(script, '\n');
    var located := ScriptOf(script).sentences;
    GoodLinesAre(lines, |lines|);
    SplitParts(script, '\n');
    forall s | s in Sentences(located)
      ensures PrintableBut(s, '\n')
    {
      var i :| 0 <= i < |located| && s == located[i].sentence;
      var line := lines[located[i].line - 1];
      assert located[i] in located;
      assert line in lines;
      LineWithoutNewline(line);
    }
    hide PrintableBut, ScriptOf;
    PrintedScriptParses(Sentences(located));
  }

  function Sentences(located: seq<Located>): seq<Sentence> {
    seq(|located|, i requires 0 <= i < |located| => located[i].sentence)
  }

  lemma LineWithoutNewline(line: string)
    requires '\n' !in line && LineSentence(line).Some?
    ensures PrintableBut(LineSentence(line).value, '\n')
  {
    TrimAvoids(line, '\n');
    TrimAvoids(Trim(line), '\n');
    var text := Trim(Trim(line));
    LineAvoids(text, 0, '\n');
    StripSound(TokensOf(text), '\n');
    SentenceSound(LineTokens(Trim(line)), '\n');
  }
}

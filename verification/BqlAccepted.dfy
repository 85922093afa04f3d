/** Every accepted line yields a printable sentence, so printing it and parsing again changes nothing. */
module BqlAccepted {
  import opened Text
  import opened BqlLexer
  import opened BqlParser
  import opened BqlGrammar
  import opened BqlRoundTrip

  // ---------------------------------------------------------------------
  // What the parser takes from well-formed tokens is printable
  // ---------------------------------------------------------------------

  ghost predicate Proper(t: Token, avoid: char) {
    WellFormed(t) && avoid !in t.value
  }

  ghost predicate Sound(ts: seq<Token>, avoid: char) {
    forall t :: t in ts ==> Proper(t, avoid)
  }

  lemma DropSound(ts: seq<Token>, n: nat, avoid: char)
    requires Sound(ts, avoid)
    ensures Sound(Drop(ts, n), avoid)
  {
    hide Proper;
  }

  lemma WordTextHolds(w: string)
    requires WordText(w)
    ensures ' ' !in w && '"' !in w
  {
    forall i | 0 <= i < |w| ensures w[i] != ' ' && w[i] != '"' { assert !EndsWord(w, i); }
  }

  ghost predicate TakenOk(words: seq<string>, stops: set<string>, avoid: char) {
    forall w :: w in words ==> WordText(w) && Lower(w) !in stops && avoid !in w
  }

  lemma {:induction false} TakeWordsSound(ts: seq<Token>, stops: set<string>, avoid: char)
    requires Sound(ts, avoid)
    ensures TakenOk(TakeWords(ts, stops).value, stops, avoid)
    ensures Sound(TakeWords(ts, stops).rest, avoid)
  {
    hide Lower, WordText;
    if ts != [] && ts[0].Word? && Lower(ts[0].value) !in stops {
      assert ts[0] in ts;
      TakeWordsSound(ts[1..], stops, avoid);
    }
  }

  lemma {:induction false} JoinHolds(words: seq<string>, avoid: char)
    requires forall w :: w in words ==> '"' !in w && avoid !in w
    requires avoid != ' '
    ensures QuotableBut(Join(words, ' '), avoid)
  {
    if |words| > 1 {
      assert words[0] in words;
      JoinHolds(words[1..], avoid);
    } else if words != [] {
      assert words[0] in words;
    }
  }

  lemma JoinedWords(words: seq<string>, stops: set<string>, avoid: char)
    requires TakenOk(words, stops, avoid) && avoid != ' '
    ensures QuotableBut(Join(words, ' '), avoid)
    ensures words != [] ==> NameBut(Join(words, ' '), stops)
  {
    forall w | w in words ensures ' ' !in w && '"' !in w { WordTextHolds(w); }
    JoinHolds(words, avoid);
    if words != [] { SplitJoin(words, ' '); }
  }

  lemma NameSound(ts: seq<Token>, stops: set<string>, avoid: char)
    requires Sound(ts, avoid) && avoid != ' '
    ensures WordsUntil(ts, stops).value != "" ==> NameBut(WordsUntil(ts, stops).value, stops)
    ensures Sound(WordsUntil(ts, stops).rest, avoid)
  {
    TakeWordsSound(ts, stops, avoid);
    JoinedWords(TakeWords(ts, stops).value, stops, avoid);
    hide NameBut, TakenOk, TakeWords, Sound;
  }

  lemma ArticleSound(ts: seq<Token>, avoid: char)
    requires Sound(ts, avoid)
    ensures Sound(SkipArticle(ts), avoid)
  {
    DropSound(ts, 1, avoid);
    hide Sound, Lower;
  }

  lemma SeparatorSound(ts: seq<Token>, avoid: char)
    requires Sound(ts, avoid)
    ensures Sound(Separator(ts).rest, avoid)
  {
    DropSound(ts, 1, avoid);
    DropSound(Drop(ts, 1), 1, avoid);
    hide Sound, Lower;
  }

  lemma QuotedSound(ts: seq<Token>, k: nat, avoid: char)
    requires Sound(ts, avoid) && k < |ts|
    ensures ts[k].Word? ==> WordText(ts[k].value)
    ensures !ts[k].Punct? ==> QuotableBut(ts[k].value, avoid)
  {
    assert ts[k] in ts;
    if ts[k].Word? { WordTextHolds(ts[k].value); }
  }

  lemma ValueSound(ts: seq<Token>, avoid: char)
    requires Sound(ts, avoid) && avoid != ' '
    ensures Value(ts).Some? ==> QuotableBut(Value(ts).value.value, avoid) && Sound(Value(ts).value.rest, avoid)
  {
    if ts != [] {
      QuotedSound(ts, 0, avoid);
      DropSound(ts, 1, avoid);
      TakeWordsSound(ts, {"and"}, avoid);
      JoinedWords(TakeWords(ts, {"and"}).value, {"and"}, avoid);
      hide Sound, QuotableBut, TakenOk, TakeWords, NameBut;
    }
  }

  lemma AttrItemSound(ts: seq<Token>, avoid: char)
    requires Sound(ts, avoid) && avoid != ' '
    ensures AttrItem(ts).Some? ==> AttrOk(AttrItem(ts).value.value, avoid) && Sound(AttrItem(ts).value.rest, avoid)
  {
    ArticleSound(ts, avoid);
    NameSound(SkipArticle(ts), {"of"}, avoid);
    var rest := WordsUntil(SkipArticle(ts), {"of"}).rest;
    DropSound(rest, 1, avoid);
    ValueSound(Drop(rest, 1), avoid);
    hide Sound, QuotableBut, NameBut, WordsUntil, SkipArticle, Value, Drop, Lower;
  }

  lemma {:induction false} AttrTailSound(ts: seq<Token>, avoid: char)
    requires Sound(ts, avoid) && avoid != ' '
    ensures AttrTail(ts).Some? ==> AttrsOk(AttrTail(ts).value.value, avoid) && Sound(AttrTail(ts).value.rest, avoid)
    decreases |ts|
  {
    var sep := Separator(ts);
    SeparatorSound(ts, avoid);
    if sep.value {
      AttrItemShorter(sep.rest);
      AttrItemSound(sep.rest, avoid);
      if AttrItem(sep.rest).Some? { AttrTailSound(AttrItem(sep.rest).value.rest, avoid); }
    }
    hide Sound, AttrOk, Separator, AttrItem;
  }

  lemma AttrListSound(ts: seq<Token>, avoid: char)
    requires Sound(ts, avoid) && avoid != ' '
    ensures AttrList(ts).Some? ==>
              AttrList(ts).value.value != [] && AttrsOk(AttrList(ts).value.value, avoid) && Sound(AttrList(ts).value.rest, avoid)
  {
    AttrItemSound(ts, avoid);
    if AttrItem(ts).Some? { AttrTailSound(AttrItem(ts).value.rest, avoid); }
    hide Sound, AttrOk, AttrItem, AttrTail;
  }

  lemma CalledSound(ts: seq<Token>, avoid: char)
    requires Sound(ts, avoid)
    ensures CalledPart(ts).Some? ==>
              && (CalledPart(ts).value.value.Some? ==> WordText(CalledPart(ts).value.value.value))
              && Sound(CalledPart(ts).value.rest, avoid)
  {
    if |ts| >= 2 { QuotedSound(ts, 1, avoid); }
    DropSound(ts, 2, avoid);
    hide Sound, WordText, Lower, Drop;
  }

  lemma SaysSound(ts: seq<Token>, avoid: char)
    requires Sound(ts, avoid)
    ensures SaysPart(ts).Some? ==>
              && (SaysPart(ts).value.value.Some? ==> QuotableBut(SaysPart(ts).value.value.value, avoid))
              && Sound(SaysPart(ts).value.rest, avoid)
  {
    if |ts| >= 3 { QuotedSound(ts, 2, avoid); }
    DropSound(ts, 3, avoid);
    hide Sound, QuotableBut, Lower, Drop;
  }

  lemma WithSound(ts: seq<Token>, avoid: char)
    requires Sound(ts, avoid) && avoid != ' '
    ensures WithPart(ts).Some? ==> AttrsOk(WithPart(ts).value.value, avoid) && Sound(WithPart(ts).value.rest, avoid)
  {
    DropSound(ts, 1, avoid);
    AttrListSound(Drop(ts, 1), avoid);
    hide Sound, AttrOk, AttrList, Lower, Drop;
  }

  lemma ClauseSound(ts: seq<Token>, avoid: char)
    requires Sound(ts, avoid) && avoid != ' '
    ensures Clause(ts).Some? ==> ClauseOk(Clause(ts).value.value, avoid) && Sound(Clause(ts).value.rest, avoid)
  {
    var stops := {"called", "that", "with"};
    ArticleSound(ts, avoid);
    NameSound(SkipArticle(ts), stops, avoid);
    var afterName := WordsUntil(SkipArticle(ts), stops).rest;
    CalledSound(afterName, avoid);
    if CalledPart(afterName).Some? {
      var afterAlias := CalledPart(afterName).value.rest;
      SaysSound(afterAlias, avoid);
      if SaysPart(afterAlias).Some? { WithSound(SaysPart(afterAlias).value.rest, avoid); }
    }
    hide Sound, NameBut, QuotableBut, WordText, AttrsOk, WordsUntil, SkipArticle, CalledPart, SaysPart, WithPart;
  }

  lemma {:induction false} NameListSound(ts: seq<Token>, avoid: char)
    requires Sound(ts, avoid)
    ensures forall n :: n in NameList(ts).value ==> QuotableBut(n, avoid)
    ensures Sound(NameList(ts).rest, avoid)
    decreases |ts|
  {
    if ts != [] && ts[0].Quoted? {
      QuotedSound(ts, 0, avoid);
      DropSound(ts, 1, avoid);
      SeparatorSound(Drop(ts, 1), avoid);
      hide Sound, QuotableBut;
      if Separator(Drop(ts, 1)).value { NameListSound(Separator(Drop(ts, 1)).rest, avoid); }
    }
  }

  // ---------------------------------------------------------------------
  // Sentence by sentence
  // ---------------------------------------------------------------------

  /** What a reading yields, if anything, is printable. */
  ghost predicate YieldsPrintable(r: Reading, avoid: char) {
    r.Some? ==> PrintableBut(r.value.value, avoid)
  }

  lemma BlockSound(ts: seq<Token>, avoid: char)
    requires Sound(ts, avoid) && avoid != ' '
    ensures YieldsPrintable(ReadAdd(ts), avoid)
    ensures YieldsPrintable(ReadThen(ts), avoid)
  {
    DropSound(ts, 1, avoid);
    ClauseSound(Drop(ts, 1), avoid);
    var clause := Clause(Drop(ts, 1));
    hide Sound, Clause, Drop, NameBut, QuotableBut, WordText, AttrsOk;
  }

  lemma InsideSound(ts: seq<Token>, avoid: char)
    requires Sound(ts, avoid) && avoid != ' '
    ensures YieldsPrintable(ReadInside(ts), avoid)
  {
    if |ts| >= 2 {
      QuotedSound(ts, 1, avoid);
      var rest := Drop(ts, 2);
      DropSound(ts, 2, avoid);
      DropSound(rest, 1, avoid);
      var next := if IsCommaAt(rest) then Drop(rest, 1) else rest;
      DropSound(next, 1, avoid);
      ClauseSound(Drop(next, 1), avoid);
      hide Sound, Clause, Drop, NameBut, QuotableBut, WordText, AttrsOk, Lower;
    }
  }

  lemma GiveSound(ts: seq<Token>, avoid: char)
    requires Sound(ts, avoid) && avoid != ' '
    ensures YieldsPrintable(ReadGive(ts), avoid)
  {
    if |ts| >= 2 { QuotedSound(ts, 1, avoid); }
    DropSound(ts, 2, avoid);
    AttrListSound(Drop(ts, 2), avoid);
    hide Sound, AttrList, Drop, WordText, AttrsOk;
  }

  lemma StyleSound(ts: seq<Token>, avoid: char)
    requires Sound(ts, avoid) && avoid != ' '
    ensures YieldsPrintable(ReadStyle(ts), avoid)
  {
    DropSound(ts, 1, avoid);
    ArticleSound(Drop(ts, 1), avoid);
    var rest := SkipArticle(Drop(ts, 1));
    if |rest| >= 3 { QuotedSound(rest, 2, avoid); }
    DropSound(rest, 3, avoid);
    WithSound(Drop(rest, 3), avoid);
    hide Sound, WithPart, SkipArticle, Drop, QuotableBut, AttrsOk, Lower;
  }

  lemma ApplySound(ts: seq<Token>, avoid: char)
    requires Sound(ts, avoid)
    ensures YieldsPrintable(ReadApply(ts), avoid)
  {
    DropSound(ts, 1, avoid);
    NameListSound(Drop(ts, 1), avoid);
    var rest := NameList(Drop(ts, 1)).rest;
    if |rest| >= 2 { QuotedSound(rest, 1, avoid); }
    hide Sound, NameList, Drop, QuotableBut, WordText, Lower;
  }

  lemma TitleSound(ts: seq<Token>, avoid: char)
    requires Sound(ts, avoid)
    ensures TitlePart(ts).Some? ==> QuotableBut(TitlePart(ts).value.value, avoid) && Sound(TitlePart(ts).value.rest, avoid)
  {
    if |ts| >= 2 { QuotedSound(ts, 1, avoid); }
    DropSound(ts, 2, avoid);
    assert QuotableBut("", avoid);
    hide Sound, QuotableBut, Lower, Drop;
  }

  lemma PublishSound(ts: seq<Token>, avoid: char)
    requires Sound(ts, avoid)
    ensures YieldsPrintable(ReadPublish(ts), avoid)
  {
    var rest := Drop(ts, 1);
    DropSound(ts, 1, avoid);
    DropSound(rest, 1, avoid);
    var titled := if IsWordAt(rest, "this", 0) then Drop(rest, 1) else rest;
    TitleSound(titled, avoid);
    if TitlePart(titled).Some? && |TitlePart(titled).value.rest| >= 2 {
      QuotedSound(TitlePart(titled).value.rest, 1, avoid);
    }
    hide Sound, QuotableBut, Lower, Drop, TitlePart;
  }

  lemma StartSound(ts: seq<Token>, avoid: char)
    requires Sound(ts, avoid)
    ensures YieldsPrintable(ReadStart(ts), avoid)
  {
    DropSound(ts, 1, avoid);
    ArticleSound(Drop(ts, 1), avoid);
    var rest := SkipArticle(Drop(ts, 1));
    DropSound(rest, 1, avoid);
    if |Drop(rest, 1)| >= 3 { QuotedSound(Drop(rest, 1), 2, avoid); }
    hide Sound, QuotableBut, Lower, Drop, SkipArticle;
  }

  lemma RunSound(ts: seq<Token>, avoid: char)
    requires Sound(ts, avoid)
    ensures YieldsPrintable(ReadRun(ts), avoid)
  {
    var rest := if IsWordAt(ts, "it", 1) then Drop(ts, 2) else Drop(ts, 1);
    DropSound(ts, 1, avoid);
    DropSound(ts, 2, avoid);
    DropSound(rest, 1, avoid);
    if |Drop(rest, 1)| >= 4 { QuotedSound(Drop(rest, 1), 3, avoid); }
    assert QuotableBut("", avoid);
    hide Sound, QuotableBut, Lower, Drop, WordsUntil;
  }

  lemma DispatchSound(ts: seq<Token>, avoid: char)
    requires Sound(ts, avoid) && avoid != ' '
    ensures YieldsPrintable(Dispatch(ts), avoid)
  {
    assert YieldsPrintable(None, avoid);
    hide Sound, YieldsPrintable, IsWordAt, ReadAdd, ReadThen, ReadInside, ReadGive, ReadStyle, ReadApply, ReadPublish, ReadStart, ReadRun;
    if IsWordAt(ts, "start", 0) { StartSound(ts, avoid); }
    else if IsWordAt(ts, "publish", 0) { PublishSound(ts, avoid); }
    else if IsWordAt(ts, "apply", 0) { ApplySound(ts, avoid); }
    else if IsWordAt(ts, "make", 0) { StyleSound(ts, avoid); }
    else if IsWordAt(ts, "give", 0) { GiveSound(ts, avoid); }
    else if IsWordAt(ts, "inside", 0) { InsideSound(ts, avoid); }
    else if IsWordAt(ts, "run", 0) { RunSound(ts, avoid); }
    else { BlockSound(ts, avoid); }
  }

  lemma SentenceSound(ts: seq<Token>, avoid: char)
    requires Sound(ts, avoid) && avoid != ' '
    ensures SentenceOf(ts).Some? ==> PrintableBut(SentenceOf(ts).value, avoid)
  {
    DispatchSound(ts, avoid);
    hide Dispatch, Sound, PrintableBut;
  }

  lemma LineSound(line: string)
    ensures Sound(TokensOf(line), '"')
  {
    TokensAreWellFormed(line, 0);
    var ts := TokensOf(line);
    forall t | t in ts
      ensures Proper(t, '"')
    {
      if t.Word? { WordTextHolds(t.value); }
    }
  }

  lemma {:induction false} LineAvoids(line: string, i: nat, avoid: char)
    requires avoid !in line
    ensures Sound(TokensFrom(line, i), avoid)
    decreases |line| + 1 - i
  {
    if i < |line| {
      TokenIsWellFormed(line, i);
      assert line[i] in line;
      LineAvoids(line, TokenAt(line, i).1, avoid);
    }
  }

  // ---------------------------------------------------------------------
  // Printed tokens are well formed and hold no full stop
  // ---------------------------------------------------------------------

  ghost predicate Neat(t: Token, avoid: char) {
    Proper(t, avoid) && t != Punct(".")
  }

  ghost predicate AllNeat(ts: seq<Token>, avoid: char) {
    forall t :: t in ts ==> Neat(t, avoid)
  }

  /** The two characters printed sentences are shown to avoid. */
  predicate Mark(c: char) {
    c == '"' || c == '\n'
  }

  lemma WordNeat(w: string, avoid: char)
    requires WordText(w) && Mark(avoid)
    ensures Neat(Word(w), avoid)
  {
    forall i | 0 <= i < |w| ensures w[i] != avoid { assert !EndsWord(w, i); }
  }

  lemma KeyNeat(w: string, avoid: char)
    requires w != "" && Mark(avoid)
    requires forall i :: 0 <= i < |w| ==> IsWordChar(w[i])
    ensures Neat(Word(w), avoid)
  {
    assert WordText(w);
    WordNeat(w, avoid);
  }

  lemma {:induction false} WordsNeat(ws: seq<string>, avoid: char)
    requires Mark(avoid) && forall w :: w in ws ==> WordText(w)
    ensures AllNeat(Words(ws), avoid)
  {
    if ws != [] {
      assert ws[0] in ws;
      WordNeat(ws[0], avoid);
      WordsNeat(ws[1..], avoid);
      hide Neat, WordText;
    }
  }

  lemma AttrNeat(a: Attr, avoid: char)
    requires AttrOk(a, avoid) && Mark(avoid)
    ensures AllNeat(AttrTokens(a), avoid)
  {
    KeyNeat("a", avoid);
    KeyNeat("of", avoid);
    WordsNeat(Split(a.key, ' '), avoid);
    assert Neat(Quoted(a.value), avoid);
    hide Neat, Words;
  }

  lemma {:induction false} TailNeat(attrs: seq<Attr>, avoid: char)
    requires AttrsOk(attrs, avoid) && Mark(avoid)
    ensures AllNeat(TailTokens(attrs), avoid)
  {
    if attrs != [] {
      assert attrs[0] in attrs;
      KeyNeat("and", avoid);
      AttrNeat(attrs[0], avoid);
      TailNeat(attrs[1..], avoid);
      hide Neat, AttrTokens, AttrOk;
    }
  }

  lemma AttrListNeat(attrs: seq<Attr>, avoid: char)
    requires AttrsOk(attrs, avoid) && Mark(avoid)
    ensures AllNeat(AttrListTokens(attrs), avoid)
    ensures AllNeat(WithTokens(attrs), avoid)
  {
    KeyNeat("with", avoid);
    if attrs != [] {
      assert attrs[0] in attrs;
      AttrNeat(attrs[0], avoid);
      TailNeat(attrs[1..], avoid);
      hide Neat, AttrTokens, AttrOk;
    }
  }

  lemma ClauseNeat(c: AddClause, avoid: char)
    requires ClauseOk(c, avoid) && Mark(avoid)
    ensures AllNeat(ClauseTokens(c), avoid)
  {
    KeyNeat("a", avoid);
    KeyNeat("called", avoid);
    KeyNeat("that", avoid);
    KeyNeat("says", avoid);
    WordsNeat(Split(c.blockName, ' '), avoid);
    if c.alias.Some? { WordNeat(c.alias.value, avoid); }
    if c.text.Some? { assert Neat(Quoted(c.text.value), avoid); }
    AttrListNeat(c.attrs, avoid);
    hide Neat, Words, WithTokens, WordText, AttrsOk;
  }

  lemma {:induction false} NamesNeat(names: seq<string>, avoid: char)
    requires (forall n :: n in names ==> QuotableBut(n, avoid)) && Mark(avoid)
    ensures AllNeat(NameListTokens(names), avoid)
  {
    if names != [] {
      assert names[0] in names;
      assert Neat(Quoted(names[0]), avoid);
      KeyNeat("and", avoid);
      hide Neat;
      if |names| > 1 { NamesNeat(names[1..], avoid); }
    }
  }

  lemma AddNeat(s: Sentence, avoid: char)
    requires (s.Add? || s.Step?) && PrintableBut(s, avoid) && Mark(avoid)
    ensures AllNeat(SentenceTokens(s), avoid)
  {
    KeyNeat("Add", avoid);
    KeyNeat("Inside", avoid);
    KeyNeat("add", avoid);
    KeyNeat("then", avoid);
    assert Neat(Punct(","), avoid);
    match s
    case Add(blockName, alias, text, attrs, parent) =>
      ClauseNeat(AddClause(blockName, alias, text, attrs), avoid);
      if parent.Some? { WordNeat(parent.value, avoid); }
      hide Neat, ClauseTokens;
    case Step(stepName, attrs) =>
      ClauseNeat(AddClause(stepName, None, None, attrs), avoid);
      hide Neat, ClauseTokens;
  }

  lemma ListNeat(s: Sentence, avoid: char)
    requires (s.Give? || s.Style? || s.Class?) && PrintableBut(s, avoid) && Mark(avoid)
    ensures AllNeat(SentenceTokens(s), avoid)
  {
    KeyNeat("Give", avoid);
    KeyNeat("Make", avoid);
    KeyNeat("a", avoid);
    KeyNeat("style", avoid);
    KeyNeat("called", avoid);
    KeyNeat("Apply", avoid);
    KeyNeat("to", avoid);
    match s
    case Give(target, attrs) =>
      WordNeat(target, avoid);
      AttrListNeat(attrs, avoid);
      hide Neat, AttrListTokens;
    case Style(name, attrs) =>
      assert Neat(Quoted(name), avoid);
      AttrListNeat(attrs, avoid);
      hide Neat, WithTokens;
    case Class(names, target) =>
      NamesNeat(names, avoid);
      WordNeat(target, avoid);
      hide Neat, NameListTokens;
  }

  lemma PageNeat(s: Sentence, avoid: char)
    requires (s.Publish? || s.Clear? || s.Workflow? || s.PublishWorkflow?) && PrintableBut(s, avoid) && Mark(avoid)
    ensures AllNeat(SentenceTokens(s), avoid)
  {
    KeyNeat("publish", avoid);
    KeyNeat("this", avoid);
    KeyNeat("as", avoid);
    KeyNeat("at", avoid);
    KeyNeat("start", avoid);
    KeyNeat("a", avoid);
    KeyNeat("new", avoid);
    KeyNeat("page", avoid);
    KeyNeat("workflow", avoid);
    KeyNeat("called", avoid);
    KeyNeat("the", avoid);
    match s
    case Publish(title, path) =>
      assert Neat(Quoted(title), avoid) && Neat(Quoted(path), avoid);
      hide Neat;
    case Workflow(name) =>
      assert Neat(Quoted(name), avoid);
      hide Neat;
    case _ =>
      hide Neat;
  }

  lemma TriggerNeat(s: Sentence, avoid: char)
    requires s.Trigger? && PrintableBut(s, avoid) && Mark(avoid)
    ensures AllNeat(SentenceTokens(s), avoid)
  {
    KeyNeat("run", avoid);
    KeyNeat("it", avoid);
    KeyNeat("when", avoid);
    KeyNeat("someone", avoid);
    KeyNeat("joins", avoid);
    KeyNeat("submits", avoid);
    KeyNeat("a", avoid);
    KeyNeat("the", avoid);
    KeyNeat("form", avoid);
    assert QuotableBut(s.form, avoid);
    assert Neat(Quoted(s.form), avoid);
    WordsNeat(["someone", "joins"], avoid);
    WordsNeat(["someone", "submits", "a", "form"], avoid);
    hide Neat, Words;
  }

  lemma SentenceNeat(s: Sentence, avoid: char)
    requires PrintableBut(s, avoid) && Mark(avoid)
    ensures AllNeat(SentenceTokens(s), avoid)
    ensures SentenceTokens(s) != []
  {
    if s.Add? || s.Step? {
      AddNeat(s, avoid);
    } else if s.Give? || s.Style? || s.Class? {
      ListNeat(s, avoid);
    } else if s.Trigger? {
      TriggerNeat(s, avoid);
    } else {
      PageNeat(s, avoid);
    }
    hide AllNeat, PrintableBut;
  }

  // ---------------------------------------------------------------------
  // Printed lines
  // ---------------------------------------------------------------------

  /** Text that trimming leaves alone and that is not a comment. */
  predicate Firm(s: string) {
    s != "" && !IsBlank(s[0]) && !IsBlank(s[|s| - 1])
  }

  lemma ShowFirm(t: Token)
    requires WellFormed(t)
    ensures Firm(Show(t))
  {
    if t.Word? {
      assert !EndsWord(t.value, 0) && !EndsWord(t.value, |t.value| - 1);
    }
  }

  lemma {:induction false} RenderFirm(ts: seq<Token>)
    requires ts != [] && AllWellFormed(ts)
    ensures Firm(Render(ts)) && Render(ts)[0] == Show(ts[0])[0]
  {
    assert ts[0] in ts;
    ShowFirm(ts[0]);
    if |ts| > 1 { RenderFirm(ts[1..]); }
    hide Show, WellFormed;
  }

  lemma {:induction false} RenderAvoids(ts: seq<Token>, avoid: char)
    requires forall t :: t in ts ==> avoid !in t.value
    requires avoid != '"' && avoid != ' '
    ensures avoid !in Render(ts)
  {
    if ts != [] {
      assert ts[0] in ts;
      if |ts| > 1 { RenderAvoids(ts[1..], avoid); }
    }
  }

  lemma LineReadsBack(ts: seq<Token>)
    requires ts != [] && AllNeat(ts, '"')
    ensures LineTokens(Render(ts)) == ts
  {
    forall t | t in ts ensures WellFormed(t) { assert Neat(t, '"'); }
    RenderFirm(ts);
    TrimIdentity(Render(ts));
    RenderReadsBack(ts);
    assert Neat(ts[|ts| - 1], '"');
  }

  /** Every printable sentence is what its printed line parses to, with nothing left over. */
  lemma PrintThenParse(s: Sentence)
    requires Printable(s)
    ensures SentenceIn(PrintSentence(s)) == Some(s)
  {
    SentenceNeat(s, '"');
    LineReadsBack(SentenceTokens(s));
    TokensReadBack(s, '"');
    hide SentenceOf, SentenceTokens, LineTokens, PrintableBut;
  }

  lemma StripSound(ts: seq<Token>, avoid: char)
    requires Sound(ts, avoid)
    ensures Sound(StripTerminator(ts), avoid)
  {
    hide Proper;
  }

  /** Whatever line is accepted, printing the result and parsing it again gives the same sentence. */
  lemma ParseThenPrint(line: string)
    requires SentenceIn(line).Some?
    ensures Printable(SentenceIn(line).value)
    ensures SentenceIn(PrintSentence(SentenceIn(line).value)) == SentenceIn(line)
  {
    LineSound(Trim(line));
    StripSound(TokensOf(Trim(line)), '"');
    SentenceSound(LineTokens(line), '"');
    PrintThenParse(SentenceIn(line).value);
  }

  /** The trimmed line is tiled by these tokens, and they spell the sentence once a final full stop is taken off. */
  ghost predicate LineSpells(line: string, tokens: seq<Token>, s: Sentence) {
    && (exists at, to :: Tiles(Trim(line), 0, tokens, at, to))
    && SpellsSentence(if tokens != [] && tokens[|tokens| - 1] == Punct(".") then tokens[..|tokens| - 1] else tokens, s)
  }

  /** A line is accepted, as the sentence `s`, exactly when it spells `s`. */
  lemma LineIff(line: string, s: Sentence)
    ensures SentenceIn(line) == Some(s) <==> exists tokens :: LineSpells(line, tokens, s)
  {
    hide SpellsSentence, SentenceOf, Trim, TokensOf, Tiles;
    var tokens := TokensOf(Trim(line));
    TokensIff(Trim(line), tokens);
    SentenceIff(LineTokens(line), s);
    if other :| LineSpells(line, other, s) { TokensIff(Trim(line), other); }
    assert SpellsSentence(LineTokens(line), s) ==> LineSpells(line, tokens, s);
  }
}

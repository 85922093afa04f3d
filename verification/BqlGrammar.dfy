/** The grammar of BQL: which token lists spell which sentence, keywords in any letter case, and the proof that the
    parser accepts exactly those. */
module BqlGrammar {
  import opened Text
  import opened BqlLexer
  import opened BqlParser

  // ---------------------------------------------------------------------
  // Names, values, attributes
  // ---------------------------------------------------------------------

  function Words(ws: seq<string>): seq<Token> {
    if ws == [] then [] else [Word(ws[0])] + Words(ws[1..])
  }

  ghost predicate NoneOf(ws: seq<string>, stops: set<string>) {
    forall w :: w in ws ==> Lower(w) !in stops
  }

  ghost predicate NameWords(ts: seq<Token>, ws: seq<string>, stops: set<string>) {
    ws != [] && ts == Words(ws) && NoneOf(ws, stops)
  }

  /** One or more words, none of them a stop word, joined by single spaces. */
  ghost predicate SpellsName(ts: seq<Token>, stops: set<string>, name: string) {
    exists ws :: NameWords(ts, ws, stops) && name == Join(ws, ' ')
  }

  /** Quoted text, or bare words up to an "and". */
  ghost predicate SpellsValue(ts: seq<Token>, value: string) {
    ts == [Quoted(value)] || SpellsName(ts, {"and"}, value)
  }

  predicate StartsArticle(ts: seq<Token>) {
    IsWordAt(ts, "a", 0) || IsWordAt(ts, "an", 0)
  }

  /** An article, or nothing before what does not look like one. */
  ghost predicate SpellsArticle(article: seq<Token>, next: seq<Token>) {
    (article == [] && !StartsArticle(next)) || (|article| == 1 && StartsArticle(article))
  }

  ghost predicate AttrPieces(ts: seq<Token>, a: Attr, article: seq<Token>, key: seq<Token>, w: string, value: seq<Token>) {
    && ts == article + (key + ([Word(w)] + value))
    && SpellsArticle(article, key) && SpellsName(key, {"of"}, a.key) && a.key != ""
    && Lower(w) == "of" && SpellsValue(value, a.value)
  }

  ghost predicate SpellsAttr(ts: seq<Token>, a: Attr) {
    exists article, key, w, value :: AttrPieces(ts, a, article, key, w, value)
  }

  /** A comma, "and", or both; an "and" after a comma always belongs to it. */
  ghost predicate SpellsSeparator(sep: seq<Token>, next: seq<Token>) {
    || (sep == [Punct(",")] && !IsWordAt(next, "and", 0))
    || (|sep| == 1 && IsWordAt(sep, "and", 0))
    || (|sep| == 2 && sep[0] == Punct(",") && IsWordAt(sep, "and", 1))
  }

  ghost predicate TailPieces(ts: seq<Token>, sep: seq<Token>, first: seq<Token>, rest: seq<Token>) {
    ts == sep + (first + rest) && SpellsSeparator(sep, first)
  }

  ghost predicate SpellsTail(ts: seq<Token>, attrs: seq<Attr>)
    decreases |attrs|
  {
    if attrs == [] then ts == []
    else exists sep, first, rest ::
           TailPieces(ts, sep, first, rest) && SpellsAttr(first, attrs[0]) && SpellsTail(rest, attrs[1..])
  }

  ghost predicate SpellsAttrs(ts: seq<Token>, attrs: seq<Attr>) {
    attrs != [] && exists first, rest :: ts == first + rest && SpellsAttr(first, attrs[0]) && SpellsTail(rest, attrs[1..])
  }

  // ---------------------------------------------------------------------
  // Clauses and name lists
  // ---------------------------------------------------------------------

  ghost predicate SpellsCalled(ts: seq<Token>, alias: Option<string>) {
    match alias
    case None => ts == []
    case Some(w) => |ts| == 2 && IsWordAt(ts, "called", 0) && ts[1] == Word(w)
  }

  ghost predicate SpellsSays(ts: seq<Token>, text: Option<string>) {
    match text
    case None => ts == []
    case Some(t) => |ts| == 3 && IsWordAt(ts, "that", 0) && IsWordAt(ts, "says", 1) && ts[2] == Quoted(t)
  }

  ghost predicate SpellsWith(ts: seq<Token>, attrs: seq<Attr>) {
    if attrs == [] then ts == [] else IsWordAt(ts, "with", 0) && SpellsAttrs(ts[1..], attrs)
  }

  const CLAUSE_STOPS := {"called", "that", "with"}

  ghost predicate ClausePieces(ts: seq<Token>, c: AddClause, article: seq<Token>, name: seq<Token>, called: seq<Token>,
                               says: seq<Token>, with_: seq<Token>) {
    && ts == article + (name + (called + (says + with_)))
    && SpellsArticle(article, name) && SpellsName(name, CLAUSE_STOPS, c.blockName) && c.blockName != ""
    && SpellsCalled(called, c.alias) && SpellsSays(says, c.text) && SpellsWith(with_, c.attrs)
  }

  ghost predicate SpellsClause(ts: seq<Token>, c: AddClause) {
    exists article, name, called, says, with_ :: ClausePieces(ts, c, article, name, called, says, with_)
  }

  /** Quoted names between separators; one more separator may follow the last. */
  ghost predicate SpellsNames(ts: seq<Token>, names: seq<string>)
    decreases |names|
  {
    && names != [] && ts != [] && ts[0] == Quoted(names[0])
    && if |names| == 1 then ts[1..] == [] || SpellsSeparator(ts[1..], [])
       else exists sep, rest :: ts[1..] == sep + rest && SpellsSeparator(sep, rest) && SpellsNames(rest, names[1..])
  }

  // ---------------------------------------------------------------------
  // Sentences
  // ---------------------------------------------------------------------

  /** The keywords stand in `ts` from position `k` on, in any letter case. */
  ghost predicate Keywords(ts: seq<Token>, k: nat, words: seq<string>) {
    forall i :: 0 <= i < |words| ==> IsWordAt(ts, words[i], k + i)
  }

  predicate QuotedAt(ts: seq<Token>, k: nat, value: string) {
    k < |ts| && ts[k] == Quoted(value)
  }

  predicate WordAt(ts: seq<Token>, k: nat, value: string) {
    k < |ts| && ts[k] == Word(value)
  }

  /** Where what follows the opening keyword goes on: past one article, if there is one. */
  function PastArticle(ts: seq<Token>): nat {
    if IsWordAt(ts, "a", 1) || IsWordAt(ts, "an", 1) then 2 else 1
  }

  /** The spoken phrases, and the event each stands for. */
  predicate PhraseMeans(lowered: string, event: string) {
    || (event == FORM_CREATED && (lowered == "someone submits a form" || lowered == "a form is submitted"))
    || (event == USER_CREATED && (lowered == "someone joins" || lowered == "someone signs up"))
  }

  ghost predicate SpellsPhrase(ts: seq<Token>, event: string) {
    exists ws :: ts == Words(ws) && PhraseMeans(Lower(Join(ws, ' ')), event)
  }

  /** What follows "when": a form by its quoted name, or a phrase. */
  ghost predicate SpellsTrigger(ts: seq<Token>, event: string, form: string) {
    || (&& event == FORM_CREATED && |ts| == 5 && Keywords(ts, 0, ["someone", "submits", "the"])
        && QuotedAt(ts, 3, form) && IsWordAt(ts, "form", 4))
    || (form == "" && SpellsPhrase(ts, event))
  }

  /** "this" or not, a quoted title or not, and a path that may be quoted or bare. */
  ghost predicate SpellsPlace(ts: seq<Token>, title: string, path: string) {
    var k, n := if IsWordAt(ts, "this", 1) then 2 else 1, |ts| - 2;
    && k <= n && IsWordAt(ts, "at", n) && !ts[n + 1].Punct? && ts[n + 1].value == path
    && if k == n then title == "" else k + 2 == n && IsWordAt(ts, "as", k) && QuotedAt(ts, k + 1, title)
  }

  ghost predicate SpellsBlock(ts: seq<Token>, k: nat, c: AddClause) {
    k < |ts| && SpellsClause(ts[k + 1..], c)
  }

  /** The tokens of each sentence form. */
  ghost predicate SpellsSentence(ts: seq<Token>, s: Sentence) {
    match s
    case Add(name, alias, text, attrs, None) =>
      IsWordAt(ts, "add", 0) && SpellsBlock(ts, 0, AddClause(name, alias, text, attrs))
    case Add(name, alias, text, attrs, Some(parent)) =>
      var k := if |ts| > 2 && ts[2] == Punct(",") then 3 else 2;
      && IsWordAt(ts, "inside", 0) && WordAt(ts, 1, parent)
      && IsWordAt(ts, "add", k) && SpellsBlock(ts, k, AddClause(name, alias, text, attrs))
    case Give(target, attrs) =>
      IsWordAt(ts, "give", 0) && WordAt(ts, 1, target) && SpellsAttrs(ts[2..], attrs)
    case Style(name, attrs) =>
      var k := PastArticle(ts);
      && IsWordAt(ts, "make", 0) && Keywords(ts, k, ["style", "called"])
      && QuotedAt(ts, k + 2, name) && SpellsWith(ts[k + 3..], attrs)
    case Class(names, target) =>
      var n := |ts| - 2;
      n >= 1 && IsWordAt(ts, "apply", 0) && SpellsNames(ts[1..n], names) && IsWordAt(ts, "to", n) && WordAt(ts, n + 1, target)
    case Publish(title, path) =>
      IsWordAt(ts, "publish", 0) && SpellsPlace(ts, title, path)
    case Clear =>
      var k := PastArticle(ts);
      IsWordAt(ts, "start", 0) && Keywords(ts, k, ["new", "page"]) && |ts| == k + 2
    case Workflow(name) =>
      var k := PastArticle(ts);
      && IsWordAt(ts, "start", 0) && Keywords(ts, k, ["new", "workflow", "called"])
      && QuotedAt(ts, k + 3, name) && |ts| == k + 4
    case Trigger(event, form) =>
      var k := if IsWordAt(ts, "it", 1) then 2 else 1;
      IsWordAt(ts, "run", 0) && IsWordAt(ts, "when", k) && SpellsTrigger(ts[k + 1..], event, form)
    case Step(name, attrs) =>
      IsWordAt(ts, "then", 0) && exists alias, text :: SpellsBlock(ts, 0, AddClause(name, alias, text, attrs))
    case PublishWorkflow => Keywords(ts, 0, ["publish", "the", "workflow"]) && |ts| == 3
  }

  // ---------------------------------------------------------------------
  // Names and values are read back
  // ---------------------------------------------------------------------

  /** What may follow a name: nothing, or a token the name's word loop stops at. */
  predicate EndsName(ts: seq<Token>, stops: set<string>) {
    ts == [] || !ts[0].Word? || Lower(ts[0].value) in stops
  }

  lemma TakeWord(w: string, rest: seq<Token>, stops: set<string>)
    requires Lower(w) !in stops
    ensures TakeWords([Word(w)] + rest, stops) ==
            Parse([w] + TakeWords(rest, stops).value, TakeWords(rest, stops).rest)
  {
    hide Lower;
    assert ([Word(w)] + rest)[1..] == rest;
  }

  lemma {:induction false} TakeWordsBack(ws: seq<string>, rest: seq<Token>, stops: set<string>)
    requires NoneOf(ws, stops) && EndsName(rest, stops)
    ensures TakeWords(Words(ws) + rest, stops) == Parse(ws, rest)
  {
    hide Lower;
    if ws == [] {
      assert Words(ws) + rest == rest;
    } else {
      TakeWordsBack(ws[1..], rest, stops);
      Assoc([Word(ws[0])], Words(ws[1..]), rest);
      assert ws[0] in ws;
      TakeWord(ws[0], Words(ws[1..]) + rest, stops);
      assert [ws[0]] + ws[1..] == ws;
      hide TakeWords;
    }
  }

  lemma {:induction false} TakeWordsForth(ts: seq<Token>, stops: set<string>)
    ensures ts == Words(TakeWords(ts, stops).value) + TakeWords(ts, stops).rest
    ensures NoneOf(TakeWords(ts, stops).value, stops) && EndsName(TakeWords(ts, stops).rest, stops)
  {
    hide Lower;
    if ts == [] || !ts[0].Word? || Lower(ts[0].value) in stops {
      assert [] + ts == ts;
    } else {
      var more := TakeWords(ts[1..], stops);
      TakeWordsForth(ts[1..], stops);
      var ws := [ts[0].value] + more.value;
      assert ws[1..] == more.value;
      Assoc([Word(ws[0])], Words(more.value), more.rest);
      assert ts == [ts[0]] + ts[1..];
    }
  }

  /** Joined words are empty text only for none, or for a single empty word. */
  lemma NameBack(name: seq<Token>, value: string, stops: set<string>, rest: seq<Token>)
    requires SpellsName(name, stops, value) && EndsName(rest, stops)
    ensures WordsUntil(name + rest, stops) == Parse(value, rest)
    ensures TakeWords(name + rest, stops).value != []
  {
    var ws :| NameWords(name, ws, stops) && value == Join(ws, ' ');
    TakeWordsBack(ws, rest, stops);
  }

  lemma NameForth(ts: seq<Token>, stops: set<string>) returns (name: seq<Token>)
    ensures ts == name + WordsUntil(ts, stops).rest && EndsName(WordsUntil(ts, stops).rest, stops)
    ensures TakeWords(ts, stops).value != [] ==> SpellsName(name, stops, WordsUntil(ts, stops).value)
    ensures TakeWords(ts, stops).value == [] ==> name == [] && WordsUntil(ts, stops).value == ""
  {
    TakeWordsForth(ts, stops);
    var ws := TakeWords(ts, stops).value;
    name := Words(ws);
    if ws != [] { assert NameWords(name, ws, stops); }
  }

  lemma FrontDrop(front: seq<Token>, rest: seq<Token>)
    ensures Drop(front + rest, |front|) == rest
  {
  }

  lemma ValueBack(ts: seq<Token>, value: string, rest: seq<Token>)
    requires SpellsValue(ts, value) && EndsName(rest, {"and"})
    ensures Value(ts + rest) == Some(Parse(value, rest))
  {
    if ts == [Quoted(value)] {
      FrontDrop(ts, rest);
    } else {
      NameBack(ts, value, {"and"}, rest);
      var ws :| NameWords(ts, ws, {"and"}) && value == Join(ws, ' ');
      assert (ts + rest)[0] == Word(ws[0]);
    }
  }

  lemma ValueForth(ts: seq<Token>) returns (front: seq<Token>)
    requires Value(ts).Some?
    ensures ts == front + Value(ts).value.rest && SpellsValue(front, Value(ts).value.value)
  {
    if ts[0].Quoted? {
      front := [ts[0]];
    } else {
      front := NameForth(ts, {"and"});
    }
  }

  // ---------------------------------------------------------------------
  // Attributes are read back
  // ---------------------------------------------------------------------

  lemma ArticleBack(article: seq<Token>, next: seq<Token>)
    requires SpellsArticle(article, next)
    ensures SkipArticle(article + next) == next
  {
    hide Lower;
    if article == [] {
      assert article + next == next;
    } else {
      FrontDrop(article, next);
      assert (article + next)[0] == article[0];
    }
  }

  lemma ArticleForth(ts: seq<Token>) returns (article: seq<Token>)
    ensures ts == article + SkipArticle(ts) && SpellsArticle(article, SkipArticle(ts))
  {
    hide Lower;
    article := if StartsArticle(ts) then [ts[0]] else [];
  }

  /** An article is one by its first token alone, so what follows a non-empty name does not matter. */
  lemma ArticleFront(article: seq<Token>, name: seq<Token>, rest: seq<Token>)
    requires name != []
    ensures SpellsArticle(article, name + rest) <==> SpellsArticle(article, name)
  {
    hide Lower;
    assert (name + rest)[0] == name[0];
  }

  lemma NameIsNotEmpty(name: seq<Token>, stops: set<string>, value: string)
    requires SpellsName(name, stops, value)
    ensures name != [] && name[0].Word?
  {
  }

  lemma Regroup(a: seq<Token>, b: seq<Token>, c: seq<Token>, d: seq<Token>, e: seq<Token>)
    ensures (a + (b + (c + d))) + e == a + (b + (c + (d + e)))
  {
    Assoc(c, d, e);
    Assoc(b, c + d, e);
    Assoc(a, b + (c + d), e);
  }

  lemma AttrBack(ts: seq<Token>, a: Attr, rest: seq<Token>)
    requires SpellsAttr(ts, a) && EndsName(rest, {"and"})
    ensures AttrItem(ts + rest) == Some(Parse(a, rest))
  {
    var article, key, w, value :| AttrPieces(ts, a, article, key, w, value);
    hide Lower, SpellsName, SpellsValue, SpellsArticle, SkipArticle, WordsUntil, Value, Drop;
    var after := [Word(w)] + (value + rest);
    Regroup(article, key, [Word(w)], value, rest);
    NameIsNotEmpty(key, {"of"}, a.key);
    ArticleFront(article, key, after);
    ArticleBack(article, key + after);
    NameBack(key, a.key, {"of"}, after);
    FrontDrop([Word(w)], value + rest);
    ValueBack(value, a.value, rest);
  }

  lemma AttrForth(ts: seq<Token>) returns (front: seq<Token>)
    requires AttrItem(ts).Some?
    ensures ts == front + AttrItem(ts).value.rest && SpellsAttr(front, AttrItem(ts).value.value) && front != []
  {
    hide Lower, SpellsName, SpellsValue, SpellsArticle, SkipArticle, Value, Words;
    var a, rest := AttrItem(ts).value.value, AttrItem(ts).value.rest;
    var article := ArticleForth(ts);
    var bare := SkipArticle(ts);
    var key := NameForth(bare, {"of"});
    var after := WordsUntil(bare, {"of"}).rest;
    assert after[0].Word? && after == [Word(after[0].value)] + after[1..];
    var value := ValueForth(after[1..]);
    NameIsNotEmpty(key, {"of"}, a.key);
    ArticleFront(article, key, after);
    front := article + (key + ([Word(after[0].value)] + value));
    assert AttrPieces(front, a, article, key, after[0].value, value);
  }

  lemma SeparatorBack(sep: seq<Token>, next: seq<Token>)
    requires SpellsSeparator(sep, next)
    ensures Separator(sep + next) == Parse(true, next)
  {
    hide Lower;
    FrontDrop(sep, next);
    if sep[0] == Punct(",") {
      FrontDrop([sep[0]], sep[1..] + next);
      assert sep + next == [sep[0]] + (sep[1..] + next);
      FrontDrop(sep[1..], next);
      assert sep == [Punct(",")] ==> sep[1..] + next == next;
    }
    assert (sep + next)[0] == sep[0];
  }

  lemma SeparatorForth(ts: seq<Token>) returns (sep: seq<Token>)
    ensures ts == sep + Separator(ts).rest
    ensures Separator(ts).value ==> SpellsSeparator(sep, Separator(ts).rest)
    ensures !Separator(ts).value ==> sep == []
  {
    hide Lower;
    sep := if IsCommaAt(ts) then (if IsWordAt(ts[1..], "and", 0) then ts[..2] else ts[..1])
           else if IsWordAt(ts, "and", 0) then ts[..1] else [];
  }

  lemma SeparatorFront(sep: seq<Token>, first: seq<Token>, rest: seq<Token>)
    requires first != []
    ensures SpellsSeparator(sep, first + rest) <==> SpellsSeparator(sep, first)
  {
    hide Lower;
    assert (first + rest)[0] == first[0];
  }

  lemma AttrIsNotEmpty(ts: seq<Token>, a: Attr)
    requires SpellsAttr(ts, a)
    ensures ts != []
  {
  }

  lemma TailEndsName(ts: seq<Token>, attrs: seq<Attr>)
    requires SpellsTail(ts, attrs)
    ensures EndsName(ts, {"and"})
  {
    hide Lower, SpellsAttr;
    if attrs != [] {
      var sep, first, rest :| TailPieces(ts, sep, first, rest) && SpellsAttr(first, attrs[0]) && SpellsTail(rest, attrs[1..]);
      assert ts[0] == sep[0];
    }
  }

  lemma ItemBack(ts: seq<Token>, a: Attr, sep: seq<Token>, first: seq<Token>, rest: seq<Token>)
    requires TailPieces(ts, sep, first, rest) && SpellsAttr(first, a) && first != [] && EndsName(rest, {"and"})
    ensures Separator(ts) == Parse(true, first + rest) && AttrItem(first + rest) == Some(Parse(a, rest))
  {
    hide SpellsAttr, SpellsSeparator, Separator, AttrItem;
    SeparatorFront(sep, first, rest);
    SeparatorBack(sep, first + rest);
    AttrBack(first, a, rest);
  }

  lemma TailStep(ts: seq<Token>, next: seq<Token>, a: Attr, rest: seq<Token>, more: seq<Attr>)
    requires Separator(ts) == Parse(true, next) && AttrItem(next) == Some(Parse(a, rest))
    requires AttrTail(rest) == Some(Parse(more, []))
    ensures AttrTail(ts) == Some(Parse([a] + more, []))
  {
    hide Separator, AttrItem;
  }

  lemma TailSplit(ts: seq<Token>, attrs: seq<Attr>) returns (sep: seq<Token>, first: seq<Token>, rest: seq<Token>)
    requires SpellsTail(ts, attrs) && attrs != []
    ensures TailPieces(ts, sep, first, rest) && SpellsAttr(first, attrs[0]) && SpellsTail(rest, attrs[1..])
    ensures first != [] && EndsName(rest, {"and"})
  {
    sep, first, rest :| TailPieces(ts, sep, first, rest) && SpellsAttr(first, attrs[0]) && SpellsTail(rest, attrs[1..]);
    AttrIsNotEmpty(first, attrs[0]);
    TailEndsName(rest, attrs[1..]);
  }

  lemma NoTail(ts: seq<Token>)
    requires SpellsTail(ts, [])
    ensures AttrTail(ts) == Some(Parse([], []))
  {
  }

  lemma {:induction false} TailBack(ts: seq<Token>, attrs: seq<Attr>)
    requires SpellsTail(ts, attrs)
    ensures AttrTail(ts) == Some(Parse(attrs, []))
    decreases |attrs|
  {
    hide *;
    if attrs == [] {
      NoTail(ts);
    } else {
      var sep, first, rest := TailSplit(ts, attrs);
      TailBack(rest, attrs[1..]);
      ItemBack(ts, attrs[0], sep, first, rest);
      TailStep(ts, first + rest, attrs[0], rest, attrs[1..]);
      assert [attrs[0]] + attrs[1..] == attrs;
    }
  }

  lemma {:induction false} TailForth(ts: seq<Token>)
    requires AttrTail(ts).Some? && AttrTail(ts).value.rest == []
    ensures SpellsTail(ts, AttrTail(ts).value.value)
    decreases |ts|
  {
    var sep := SeparatorForth(ts);
    var after := Separator(ts).rest;
    if Separator(ts).value {
      AttrItemShorter(after);
      var first := AttrForth(after);
      var a, rest := AttrItem(after).value.value, AttrItem(after).value.rest;
      var attrs := AttrTail(ts).value.value;
      assert attrs == [a] + AttrTail(rest).value.value && attrs[1..] == AttrTail(rest).value.value;
      TailForth(rest);
      hide SpellsAttr, SpellsSeparator, Separator, AttrItem, AttrTail;
      SeparatorFront(sep, first, rest);
      assert TailPieces(ts, sep, first, rest);
    }
  }

  /** An attribute list at the end of a sentence. */
  lemma AttrsIff(ts: seq<Token>, attrs: seq<Attr>)
    ensures AttrList(ts) == Some(Parse(attrs, [])) <==> SpellsAttrs(ts, attrs)
  {
    hide AttrItem, AttrTail, SpellsAttr, SpellsTail;
    if SpellsAttrs(ts, attrs) {
      var first, rest :| ts == first + rest && SpellsAttr(first, attrs[0]) && SpellsTail(rest, attrs[1..]);
      TailEndsName(rest, attrs[1..]);
      AttrBack(first, attrs[0], rest);
      TailBack(rest, attrs[1..]);
      assert [attrs[0]] + attrs[1..] == attrs;
    }
    if AttrList(ts) == Some(Parse(attrs, [])) {
      var first := AttrForth(ts);
      var rest := AttrItem(ts).value.rest;
      TailForth(rest);
      assert attrs[1..] == AttrTail(rest).value.value;
    }
  }

  lemma WithIff(ts: seq<Token>, attrs: seq<Attr>)
    ensures WithPart(ts) == Some(Parse(attrs, [])) <==> SpellsWith(ts, attrs)
  {
    hide AttrList, SpellsAttrs, Lower;
    if IsWordAt(ts, "with", 0) {
      assert Drop(ts, 1) == ts[1..];
      AttrsIff(ts[1..], attrs);
      if SpellsAttrs(ts[1..], attrs) { AttrsNotEmpty(ts[1..], attrs); }
    }
  }

  lemma AttrsNotEmpty(ts: seq<Token>, attrs: seq<Attr>)
    requires SpellsAttrs(ts, attrs)
    ensures attrs != []
  {
  }

  // ---------------------------------------------------------------------
  // Clauses and name lists are read back
  // ---------------------------------------------------------------------

  lemma CalledBack(ts: seq<Token>, alias: Option<string>, rest: seq<Token>)
    requires SpellsCalled(ts, alias) && !IsWordAt(rest, "called", 0)
    ensures CalledPart(ts + rest) == Some(Parse(alias, rest))
  {
    hide Lower;
    FrontDrop(ts, rest);
    if alias.None? { assert ts + rest == rest; } else { assert (ts + rest)[0] == ts[0] && (ts + rest)[1] == ts[1]; }
  }

  lemma CalledForth(ts: seq<Token>) returns (front: seq<Token>)
    requires CalledPart(ts).Some?
    ensures ts == front + CalledPart(ts).value.rest && SpellsCalled(front, CalledPart(ts).value.value)
  {
    hide Lower;
    front := if IsWordAt(ts, "called", 0) then ts[..2] else [];
  }

  lemma SaysBack(ts: seq<Token>, text: Option<string>, rest: seq<Token>)
    requires SpellsSays(ts, text) && !IsWordAt(rest, "that", 0)
    ensures SaysPart(ts + rest) == Some(Parse(text, rest))
  {
    hide Lower;
    FrontDrop(ts, rest);
    if text.None? { assert ts + rest == rest; } else { assert (ts + rest)[0] == ts[0] && (ts + rest)[1] == ts[1]; }
  }

  lemma SaysForth(ts: seq<Token>) returns (front: seq<Token>)
    requires SaysPart(ts).Some?
    ensures ts == front + SaysPart(ts).value.rest && SpellsSays(front, SaysPart(ts).value.value)
  {
    hide Lower;
    front := if IsWordAt(ts, "that", 0) then ts[..3] else [];
  }

  /** What the optional parts start with: nothing, or one of the three stop words. */
  lemma PartsStart(called: seq<Token>, alias: Option<string>, says: seq<Token>, text: Option<string>, with_: seq<Token>,
                   attrs: seq<Attr>)
    requires SpellsCalled(called, alias) && SpellsSays(says, text) && SpellsWith(with_, attrs)
    ensures !IsWordAt(with_, "that", 0)
    ensures !IsWordAt(says + with_, "called", 0)
    ensures EndsName(called + (says + with_), CLAUSE_STOPS)
  {
    hide Lower, SpellsAttrs;
  }

  lemma ClauseBack(ts: seq<Token>, c: AddClause)
    requires SpellsClause(ts, c)
    ensures Clause(ts) == Some(Parse(c, []))
  {
    var article, name, called, says, with_ :| ClausePieces(ts, c, article, name, called, says, with_);
    PartsStart(called, c.alias, says, c.text, with_, c.attrs);
    hide SkipArticle, WordsUntil, CalledPart, SaysPart, WithPart, Lower, SpellsArticle, SpellsName, SpellsCalled, SpellsSays,
      SpellsWith;
    var parts := called + (says + with_);
    NameIsNotEmpty(name, CLAUSE_STOPS, c.blockName);
    ArticleFront(article, name, parts);
    ArticleBack(article, name + parts);
    NameBack(name, c.blockName, CLAUSE_STOPS, parts);
    CalledBack(called, c.alias, says + with_);
    SaysBack(says, c.text, with_);
    WithIff(with_, c.attrs);
  }

  lemma ClauseForth(ts: seq<Token>)
    requires Clause(ts).Some? && Clause(ts).value.rest == []
    ensures SpellsClause(ts, Clause(ts).value.value)
  {
    hide SkipArticle, CalledPart, SaysPart, WithPart, Lower, SpellsArticle, SpellsName, SpellsCalled, SpellsSays, SpellsWith,
      Words;
    var c := Clause(ts).value.value;
    var article := ArticleForth(ts);
    var bare := SkipArticle(ts);
    var name := NameForth(bare, CLAUSE_STOPS);
    var afterName := WordsUntil(bare, CLAUSE_STOPS).rest;
    var called := CalledForth(afterName);
    var afterAlias := CalledPart(afterName).value.rest;
    var says := SaysForth(afterAlias);
    var with_ := SaysPart(afterAlias).value.rest;
    WithIff(with_, c.attrs);
    NameIsNotEmpty(name, CLAUSE_STOPS, c.blockName);
    ArticleFront(article, name, afterName);
    assert ClausePieces(ts, c, article, name, called, says, with_);
  }

  /** A clause at the end of a sentence. */
  lemma ClauseIff(ts: seq<Token>, c: AddClause)
    ensures Clause(ts) == Some(Parse(c, [])) <==> SpellsClause(ts, c)
  {
    hide Clause, SpellsClause;
    if SpellsClause(ts, c) { ClauseBack(ts, c); }
    if Clause(ts) == Some(Parse(c, [])) { ClauseForth(ts); }
  }

  lemma {:induction false} NamesBack(ts: seq<Token>, names: seq<string>, rest: seq<Token>)
    requires SpellsNames(ts, names) && IsWordAt(rest, "to", 0)
    ensures NameList(ts + rest) == Parse(names, rest)
    decreases |names|
  {
    hide Lower, SpellsSeparator, Separator;
    var all := ts + rest;
    assert Drop(all, 1) == ts[1..] + rest;
    assert all[0] == ts[0];
    if |names| == 1 {
      assert [names[0]] == names && [names[0]] + [] == names;
      ToIsNoSeparator(rest);
      if ts[1..] == [] {
        assert ts[1..] + rest == rest;
      } else {
        SeparatorNext(ts[1..], [], rest);
        SeparatorBack(ts[1..], rest);
      }
    } else {
      var sep, more :| ts[1..] == sep + more && SpellsSeparator(sep, more) && SpellsNames(more, names[1..]);
      Assoc(sep, more, rest);
      SeparatorNext(sep, more, more + rest);
      SeparatorBack(sep, more + rest);
      NamesBack(more, names[1..], rest);
      assert [names[0]] + names[1..] == names;
    }
  }

  lemma ToIsNoSeparator(rest: seq<Token>)
    requires IsWordAt(rest, "to", 0)
    ensures Separator(rest) == Parse(false, rest) && NameList(rest) == Parse([], rest) && !IsWordAt(rest, "and", 0)
  {
    hide Lower;
  }

  lemma SeparatorNext(sep: seq<Token>, next: seq<Token>, other: seq<Token>)
    requires SpellsSeparator(sep, next) && !IsWordAt(other, "and", 0)
    ensures SpellsSeparator(sep, other)
  {
    hide Lower;
  }

  lemma {:induction false} NamesForth(ts: seq<Token>) returns (front: seq<Token>)
    requires NameList(ts).value != []
    ensures ts == front + NameList(ts).rest && SpellsNames(front, NameList(ts).value)
    decreases |ts|
  {
    hide Lower, SpellsSeparator, Separator;
    var names, tail := NameList(ts).value, Drop(ts, 1);
    var sep := SeparatorForth(tail);
    var after := Separator(tail).rest;
    if !Separator(tail).value {
      front := [ts[0]];
    } else if NameList(after).value == [] {
      front := [ts[0]] + sep;
      assert front[1..] == sep;
      SeparatorNext(sep, after, []);
      EmptyListKeeps(after);
    } else {
      var more := NamesForth(after);
      front := [ts[0]] + (sep + more);
      assert front[1..] == sep + more;
      assert names[1..] == NameList(after).value;
      StartsQuoted(more, names[1..]);
      SeparatorNext(sep, after, more);
    }
  }

  lemma EmptyListKeeps(ts: seq<Token>)
    requires NameList(ts).value == []
    ensures NameList(ts).rest == ts
  {
  }

  lemma StartsQuoted(ts: seq<Token>, names: seq<string>)
    requires SpellsNames(ts, names)
    ensures !IsWordAt(ts, "and", 0)
  {
  }

  // ---------------------------------------------------------------------
  // Sentences are read back
  // ---------------------------------------------------------------------

  lemma DropIs(ts: seq<Token>, n: nat)
    requires n <= |ts|
    ensures Drop(ts, n) == ts[n..]
    ensures forall k: nat, w: string :: IsWordAt(Drop(ts, n), w, k) <==> IsWordAt(ts, w, n + k)
  {
    hide Lower;
  }

  lemma DropDrop(ts: seq<Token>, m: nat, n: nat)
    requires m + n <= |ts|
    ensures Drop(Drop(ts, m), n) == ts[m + n..]
  {
  }

  /** The reading of a form consumed everything and gave `s`. */
  ghost predicate ReadsAs(r: Reading, s: Sentence) {
    r == Some(Parse(s, []))
  }

  lemma BlockIff(ts: seq<Token>, k: nat, c: AddClause)
    requires k < |ts|
    ensures Clause(Drop(ts, k + 1)) == Some(Parse(c, [])) <==> SpellsBlock(ts, k, c)
  {
    hide Clause, SpellsClause;
    ClauseIff(ts[k + 1..], c);
  }

  lemma AddIff(ts: seq<Token>, s: Sentence)
    requires IsWordAt(ts, "add", 0)
    ensures ReadsAs(ReadAdd(ts), s) <==> s.Add? && s.parentAlias.None? && SpellsSentence(ts, s)
  {
    hide Clause, SpellsBlock, Lower, Drop;
    if s.Add? { BlockIff(ts, 0, AddClause(s.blockName, s.alias, s.text, s.attrs)); }
  }

  lemma ThenIff(ts: seq<Token>, s: Sentence)
    requires IsWordAt(ts, "then", 0)
    ensures ReadsAs(ReadThen(ts), s) <==> s.Step? && SpellsSentence(ts, s)
  {
    hide Clause, SpellsBlock, Lower, Drop;
    var read := Clause(Drop(ts, 1));
    if ReadsAs(ReadThen(ts), s) { BlockIff(ts, 0, read.value.value); }
    if s.Step? && SpellsSentence(ts, s) {
      var alias, text :| SpellsBlock(ts, 0, AddClause(s.stepName, alias, text, s.attrs));
      BlockIff(ts, 0, AddClause(s.stepName, alias, text, s.attrs));
    }
  }

  lemma InsideIff(ts: seq<Token>, s: Sentence)
    requires IsWordAt(ts, "inside", 0)
    ensures ReadsAs(ReadInside(ts), s) <==> s.Add? && s.parentAlias.Some? && SpellsSentence(ts, s)
  {
    hide Clause, SpellsBlock, Lower, Drop;
    if |ts| >= 2 {
      var k := if |ts| > 2 && ts[2] == Punct(",") then 3 else 2;
      var rest := Drop(ts, 2);
      DropIs(ts, 2);
      var next := if IsCommaAt(rest) then Drop(rest, 1) else rest;
      if k == 3 { DropDrop(ts, 2, 1); }
      assert next == ts[k..];
      assert IsWordAt(next, "add", 0) <==> IsWordAt(ts, "add", k);
      if IsWordAt(ts, "add", k) {
        DropIs(next, 1);
        assert Drop(next, 1) == ts[k + 1..];
        DropIs(ts, k + 1);
        if s.Add? { BlockIff(ts, k, AddClause(s.blockName, s.alias, s.text, s.attrs)); }
      }
    }
  }

  lemma GiveIff(ts: seq<Token>, s: Sentence)
    requires IsWordAt(ts, "give", 0)
    ensures ReadsAs(ReadGive(ts), s) <==> s.Give? && SpellsSentence(ts, s)
  {
    hide AttrList, SpellsAttrs, Lower;
    if |ts| >= 2 && s.Give? { AttrsIff(ts[2..], s.attrs); }
  }

  lemma PastArticleIs(ts: seq<Token>)
    requires ts != []
    ensures PastArticle(ts) <= |ts| && SkipArticle(Drop(ts, 1)) == ts[PastArticle(ts)..]
  {
    hide Lower;
    DropIs(ts, 1);
    if PastArticle(ts) == 2 { DropDrop(ts, 1, 1); }
  }

  /** Two keywords in a row. */
  lemma TwoKeywords(ts: seq<Token>, k: nat, a: string, b: string)
    ensures Keywords(ts, k, [a, b]) <==> IsWordAt(ts, a, k) && IsWordAt(ts, b, k + 1)
  {
    hide Lower;
    assert [a, b][0] == a && [a, b][1] == b;
  }

  lemma ThreeKeywords(ts: seq<Token>, k: nat, a: string, b: string, c: string)
    ensures Keywords(ts, k, [a, b, c]) <==> IsWordAt(ts, a, k) && IsWordAt(ts, b, k + 1) && IsWordAt(ts, c, k + 2)
  {
    hide Lower;
    assert [a, b, c][0] == a && [a, b, c][1] == b && [a, b, c][2] == c;
  }

  lemma StyleIff(ts: seq<Token>, s: Sentence)
    requires IsWordAt(ts, "make", 0)
    ensures ReadsAs(ReadStyle(ts), s) <==> s.Style? && SpellsSentence(ts, s)
  {
    hide WithPart, SpellsWith, Lower, SkipArticle, Drop, Keywords;
    var k := PastArticle(ts);
    PastArticleIs(ts);
    TwoKeywords(ts, k, "style", "called");
    var rest := ts[k..];
    assert forall i: nat, w: string :: IsWordAt(rest, w, i) <==> IsWordAt(ts, w, k + i);
    if |rest| >= 3 {
      DropIs(rest, 3);
      assert rest[3..] == ts[k + 3..] && rest[2] == ts[k + 2];
      if s.Style? { WithIff(ts[k + 3..], s.attrs); }
    }
  }

  lemma ApplyBack(ts: seq<Token>, names: seq<string>, target: string)
    requires SpellsSentence(ts, Class(names, target))
    ensures ReadsAs(ReadApply(ts), Class(names, target))
  {
    hide NameList, SpellsNames, Lower, Drop;
    var n := |ts| - 2;
    var front, rest := ts[1..n], ts[n..];
    DropIs(ts, 1);
    assert ts[1..] == front + rest;
    assert rest[0] == ts[n] && rest[1] == ts[n + 1];
    NamesBack(front, names, rest);
    NamesAreSome(front, names);
    DropIs(rest, 2);
  }

  lemma NamesAreSome(ts: seq<Token>, names: seq<string>)
    requires SpellsNames(ts, names)
    ensures names != []
  {
  }

  lemma ApplyForth(ts: seq<Token>)
    requires IsWordAt(ts, "apply", 0) && ReadApply(ts).Some? && ReadApply(ts).value.rest == []
    ensures SpellsSentence(ts, ReadApply(ts).value.value)
  {
    hide NameList, SpellsNames, Lower, Drop;
    DropIs(ts, 1);
    var front := NamesForth(ts[1..]);
    var rest := NameList(ts[1..]).rest;
    DropIs(rest, 2);
    assert ts == [ts[0]] + (front + rest);
    var n := |ts| - 2;
    assert ts[1..n] == front;
    assert ts[n] == rest[0] && ts[n + 1] == rest[1];
  }

  lemma ApplyIff(ts: seq<Token>, s: Sentence)
    requires IsWordAt(ts, "apply", 0)
    ensures ReadsAs(ReadApply(ts), s) <==> s.Class? && SpellsSentence(ts, s)
  {
    hide SpellsSentence, Lower;
    if s.Class? && SpellsSentence(ts, s) { ApplyBack(ts, s.names, s.target); }
    if ReadsAs(ReadApply(ts), s) { ApplyForth(ts); }
  }

  lemma TitleAt(ts: seq<Token>, k: nat)
    requires k <= |ts|
    ensures TitlePart(ts[k..]) ==
            if !IsWordAt(ts, "as", k) then Some(Parse("", ts[k..]))
            else if k + 1 >= |ts| || !ts[k + 1].Quoted? then None
            else Some(Parse(ts[k + 1].value, ts[k + 2..]))
  {
    hide Lower;
    if |ts| >= k + 2 { DropIs(ts[k..], 2); }
  }

  /** Nothing but "at" and a path is left from `n` on. */
  lemma PathAt(ts: seq<Token>, n: nat)
    requires n <= |ts|
    ensures IsWordAt(ts[n..], "at", 0) <==> IsWordAt(ts, "at", n)
    ensures |ts| >= n + 2 ==> ts[n..][1] == ts[n + 1] && Drop(ts[n..], 2) == ts[n + 2..]
  {
    hide Lower;
  }

  lemma OneWord(ts: seq<Token>, k: nat, a: string, b: string)
    requires a != b && IsWordAt(ts, a, k)
    ensures !IsWordAt(ts, b, k)
  {
  }

  lemma PublishPageIff(ts: seq<Token>, s: Sentence)
    requires IsWordAt(ts, "publish", 0) && !IsWordAt(ts, "the", 1)
    ensures ReadsAs(ReadPublish(ts), s) <==> s.Publish? && SpellsSentence(ts, s)
  {
    hide Lower, Drop, Keywords, TitlePart;
    var k := if IsWordAt(ts, "this", 1) then 2 else 1;
    DropIs(ts, 1);
    if k == 2 { DropDrop(ts, 1, 1); }
    TitleAt(ts, k);
    if IsWordAt(ts, "as", k) {
      if k + 2 <= |ts| { PathAt(ts, k + 2); }
      if IsWordAt(ts, "at", k) { OneWord(ts, k, "as", "at"); }
    } else {
      PathAt(ts, k);
    }
  }

  lemma PublishIff(ts: seq<Token>, s: Sentence)
    requires IsWordAt(ts, "publish", 0)
    ensures ReadsAs(ReadPublish(ts), s) <==> (s.Publish? || s.PublishWorkflow?) && SpellsSentence(ts, s)
  {
    hide Lower, Drop, Keywords, TitlePart;
    DropIs(ts, 1);
    ThreeKeywords(ts, 0, "publish", "the", "workflow");
    if IsWordAt(ts, "the", 1) {
      OneWord(ts, 1, "the", "this");
      OneWord(ts, 1, "the", "as");
      OneWord(ts, 1, "the", "at");
      if |ts| >= 3 { DropDrop(ts, 1, 2); }
    } else {
      PublishPageIff(ts, s);
    }
  }

  lemma StartIff(ts: seq<Token>, s: Sentence)
    requires IsWordAt(ts, "start", 0)
    ensures ReadsAs(ReadStart(ts), s) <==> (s.Clear? || s.Workflow?) && SpellsSentence(ts, s)
  {
    hide Lower, SkipArticle, Drop, Keywords;
    var k := PastArticle(ts);
    PastArticleIs(ts);
    TwoKeywords(ts, k, "new", "page");
    ThreeKeywords(ts, k, "new", "workflow", "called");
    var rest := ts[k..];
    assert forall i: nat, w: string :: IsWordAt(rest, w, i) <==> IsWordAt(ts, w, k + i);
    if IsWordAt(ts, "workflow", k + 1) {
      OneWord(ts, k + 1, "workflow", "page");
      DropIs(rest, 1);
      if |rest| >= 4 {
        DropDrop(rest, 1, 3);
        assert rest[1..][2] == ts[k + 3];
      }
    } else if |rest| >= 2 {
      DropIs(rest, 2);
    }
  }

  lemma {:induction false} WordsAt(ws: seq<string>)
    ensures |Words(ws)| == |ws|
    ensures forall i :: 0 <= i < |ws| ==> Words(ws)[i] == Word(ws[i])
  {
    if ws != [] { WordsAt(ws[1..]); }
  }

  /** The first letter of the third word, after a seven-letter word twice. */
  lemma ThirdWordAt(ws: seq<string>)
    requires |ws| >= 3 && |ws[0]| == 7 && |ws[1]| == 7 && |ws[2]| > 0
    ensures |Join(ws, ' ')| > 16 && Join(ws, ' ')[16] == ws[2][0]
  {
    var two := ws[1..];
    var one := two[1..];
    assert one[0] == ws[2];
    assert |Join(one, ' ')| > 0 && Join(one, ' ')[0] == ws[2][0];
    assert Join(two, ' ') == ws[1] + [' '] + Join(one, ' ');
    assert Join(two, ' ')[8] == ws[2][0];
    assert Join(ws, ' ') == ws[0] + [' '] + Join(two, ' ');
  }

  /** No spoken phrase goes on like the form that names its form. */
  lemma NamedIsNoPhrase(ws: seq<string>, event: string)
    requires |ws| >= 3 && Lower(ws[0]) == "someone" && Lower(ws[1]) == "submits" && Lower(ws[2]) == "the"
    ensures !PhraseMeans(Lower(Join(ws, ' ')), event)
  {
    ThirdWordAt(ws);
    hide Join;
    var joined := Join(ws, ' ');
    assert Lower(joined)[16] == LowerChar(joined[16]) == Lower(ws[2])[0] == 't';
  }

  lemma EventIff(phrase: string, event: string)
    ensures EventOf(phrase) == Some(event) <==> PhraseMeans(Lower(phrase), event)
  {
    hide Lower;
  }

  /** What `run it when` goes on with. */
  ghost function TriggerOf(what: seq<Token>): Reading {
    if IsWordAt(what, "someone", 0) && IsWordAt(what, "submits", 1) && IsWordAt(what, "the", 2) then
      if |what| < 4 || !what[3].Quoted? || !IsWordAt(what, "form", 4) then None
      else Some(Parse(Trigger(FORM_CREATED, what[3].value), Drop(what, 5)))
    else
      var phrase := WordsUntil(what, {});
      match EventOf(phrase.value)
      case None => None
      case Some(event) => Some(Parse(Trigger(event, ""), phrase.rest))
  }

  lemma NamedIff(what: seq<Token>, s: Sentence)
    requires Keywords(what, 0, ["someone", "submits", "the"])
    ensures ReadsAs(TriggerOf(what), s) <==> s.Trigger? && SpellsTrigger(what, s.event, s.form)
  {
    ThreeKeywords(what, 0, "someone", "submits", "the");
    if s.Trigger? && SpellsPhrase(what, s.event) {
      var ws :| what == Words(ws) && PhraseMeans(Lower(Join(ws, ' ')), s.event);
      WordsAt(ws);
      NamedIsNoPhrase(ws, s.event);
    }
    hide Lower, WordsUntil, Join, Words, PhraseMeans, EventOf;
    if |what| >= 5 { DropIs(what, 5); }
  }

  lemma PhraseReads(what: seq<Token>, event: string)
    ensures
      EventOf(WordsUntil(what, {}).value) == Some(event) && WordsUntil(what, {}).rest == [] <==> SpellsPhrase(what, event)
  {
    TakeWordsForth(what, {});
    var taken := TakeWords(what, {});
    EventIff(Join(taken.value, ' '), event);
    hide Lower, Join, Words, PhraseMeans, EventOf, TakeWords;
    assert Words(taken.value) + [] == Words(taken.value);
    if SpellsPhrase(what, event) {
      var ws :| what == Words(ws) && PhraseMeans(Lower(Join(ws, ' ')), event);
      TakeWordsBack(ws, [], {});
      assert Words(ws) + [] == Words(ws);
    }
  }

  lemma PhraseIff(what: seq<Token>, s: Sentence)
    requires !Keywords(what, 0, ["someone", "submits", "the"])
    ensures ReadsAs(TriggerOf(what), s) <==> s.Trigger? && SpellsTrigger(what, s.event, s.form)
  {
    ThreeKeywords(what, 0, "someone", "submits", "the");
    if s.Trigger? { PhraseReads(what, s.event); }
    hide Lower, WordsUntil, SpellsPhrase, EventOf, Keywords;
  }

  lemma RunIff(ts: seq<Token>, s: Sentence)
    requires IsWordAt(ts, "run", 0)
    ensures ReadsAs(ReadRun(ts), s) <==> s.Trigger? && SpellsSentence(ts, s)
  {
    var k := if IsWordAt(ts, "it", 1) then 2 else 1;
    DropIs(ts, k);
    if IsWordAt(ts, "when", k) {
      DropDrop(ts, k, 1);
      var what := ts[k + 1..];
      if Keywords(what, 0, ["someone", "submits", "the"]) { NamedIff(what, s); } else { PhraseIff(what, s); }
      hide Lower, Keywords, SpellsTrigger, WordsUntil, EventOf;
      assert ReadRun(ts) == TriggerOf(what);
    }
  }

  // ---------------------------------------------------------------------
  // The theorem
  // ---------------------------------------------------------------------

  lemma OpensWith(ts: seq<Token>, s: Sentence)
    requires SpellsSentence(ts, s)
    ensures ts != [] && ts[0].Word?
    ensures Lower(ts[0].value) ==
            match s
            case Add(_, _, _, _, None) => "add"
            case Add(_, _, _, _, Some(_)) => "inside"
            case Give(_, _) => "give"
            case Style(_, _) => "make"
            case Class(_, _) => "apply"
            case Publish(_, _) => "publish"
            case Clear => "start"
            case Workflow(_) => "start"
            case Trigger(_, _) => "run"
            case Step(_, _) => "then"
            case PublishWorkflow => "publish"
  {
    hide Lower, SpellsClause, SpellsAttrs, SpellsWith, SpellsNames, SpellsTrigger, SpellsPlace;
    ThreeKeywords(ts, 0, "publish", "the", "workflow");
  }

  /** A token list is accepted, as the sentence `s`, exactly when it spells `s`. */
  lemma SentenceIff(ts: seq<Token>, s: Sentence)
    ensures SentenceOf(ts) == Some(s) <==> SpellsSentence(ts, s)
  {
    hide Lower, SpellsSentence, ReadStart, ReadPublish, ReadApply, ReadStyle, ReadGive, ReadInside, ReadAdd, ReadRun, ReadThen;
    if SpellsSentence(ts, s) { OpensWith(ts, s); }
    if IsWordAt(ts, "start", 0) { StartIff(ts, s); }
    else if IsWordAt(ts, "publish", 0) { PublishIff(ts, s); }
    else if IsWordAt(ts, "apply", 0) { ApplyIff(ts, s); }
    else if IsWordAt(ts, "make", 0) { StyleIff(ts, s); }
    else if IsWordAt(ts, "give", 0) { GiveIff(ts, s); }
    else if IsWordAt(ts, "inside", 0) { InsideIff(ts, s); }
    else if IsWordAt(ts, "add", 0) { AddIff(ts, s); }
    else if IsWordAt(ts, "run", 0) { RunIff(ts, s); }
    else if IsWordAt(ts, "then", 0) { ThenIff(ts, s); }
  }
}

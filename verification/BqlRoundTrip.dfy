/** Printing BQL sentences, and the proof that printing and parsing undo each other: every printable
    sentence parses back to itself, and every accepted line yields a printable sentence. */
module BqlRoundTrip {
  import opened Text
  import opened BqlLexer
  import opened BqlParser
  import opened BqlGrammar

  // ---------------------------------------------------------------------
  // The printer: the article always written, values always quoted
  // ---------------------------------------------------------------------

  function NameTokens(name: string): seq<Token> {
    Words(Split(name, ' '))
  }

  function AttrTokens(a: Attr): seq<Token> {
    [Word("a")] + NameTokens(a.key) + [Word("of"), Quoted(a.value)]
  }

  function TailTokens(attrs: seq<Attr>): seq<Token> {
    if attrs == [] then [] else [Word("and")] + AttrTokens(attrs[0]) + TailTokens(attrs[1..])
  }

  function AttrListTokens(attrs: seq<Attr>): seq<Token> {
    if attrs == [] then [] else AttrTokens(attrs[0]) + TailTokens(attrs[1..])
  }

  function CalledTokens(alias: Option<string>): seq<Token> {
    match alias
    case None => []
    case Some(w) => [Word("called"), Word(w)]
  }

  function SaysTokens(text: Option<string>): seq<Token> {
    match text
    case None => []
    case Some(t) => [Word("that"), Word("says"), Quoted(t)]
  }

  function WithTokens(attrs: seq<Attr>): seq<Token> {
    if attrs == [] then [] else [Word("with")] + AttrListTokens(attrs)
  }

  function ClauseTokens(c: AddClause): seq<Token> {
    [Word("a")] + NameTokens(c.blockName) + (CalledTokens(c.alias) + (SaysTokens(c.text) + WithTokens(c.attrs)))
  }

  function NameListTokens(names: seq<string>): seq<Token> {
    if names == [] then []
    else if |names| == 1 then [Quoted(names[0])]
    else [Quoted(names[0]), Word("and")] + NameListTokens(names[1..])
  }

  function SentenceTokens(s: Sentence): seq<Token> {
    match s
    case Add(blockName, alias, text, attrs, parent) =>
      (match parent
       case None => [Word("Add")]
       case Some(p) => [Word("Inside"), Word(p), Punct(","), Word("add")]) +
      ClauseTokens(AddClause(blockName, alias, text, attrs))
    case Give(target, attrs) => [Word("Give"), Word(target)] + AttrListTokens(attrs)
    case Style(name, attrs) =>
      [Word("Make"), Word("a"), Word("style"), Word("called"), Quoted(name)] + WithTokens(attrs)
    case Class(names, target) => [Word("Apply")] + NameListTokens(names) + [Word("to"), Word(target)]
    case Publish(title, path) =>
      [Word("publish"), Word("this")] + (if title == "" then [] else [Word("as"), Quoted(title)]) +
      [Word("at"), Quoted(path)]
    case Clear => [Word("start"), Word("a"), Word("new"), Word("page")]
    case Workflow(name) => [Word("start"), Word("a"), Word("new"), Word("workflow"), Word("called"), Quoted(name)]
    case Trigger(event, form) =>
      if event == USER_CREATED then [Word("run"), Word("it"), Word("when")] + Words(["someone", "joins"])
      else if form == "" then [Word("run"), Word("it"), Word("when")] + Words(["someone", "submits", "a", "form"])
      else [Word("run"), Word("it"), Word("when"), Word("someone"), Word("submits"), Word("the"), Quoted(form), Word("form")]
    case Step(stepName, attrs) => [Word("then")] + ClauseTokens(AddClause(stepName, None, None, attrs))
    case PublishWorkflow => [Word("publish"), Word("the"), Word("workflow")]
  }

  function PrintSentence(s: Sentence): string {
    Render(SentenceTokens(s))
  }

  // ---------------------------------------------------------------------
  // Printable sentences. `avoid` is a character quoted text must not hold;
  // the quote itself is always one, so avoiding it asks for nothing more.
  // ---------------------------------------------------------------------

  ghost predicate QuotableBut(s: string, avoid: char) {
    '"' !in s && avoid !in s
  }

  /** One or more words, single spaces between them, none of them a stop word in any letter case. */
  ghost predicate NameBut(name: string, stops: set<string>) {
    forall w :: w in Split(name, ' ') ==> WordText(w) && Lower(w) !in stops
  }

  ghost predicate AttrOk(a: Attr, avoid: char) {
    NameBut(a.key, {"of"}) && QuotableBut(a.value, avoid)
  }

  ghost predicate AttrsOk(attrs: seq<Attr>, avoid: char) {
    forall a :: a in attrs ==> AttrOk(a, avoid)
  }

  ghost predicate ClauseOk(c: AddClause, avoid: char) {
    && NameBut(c.blockName, {"called", "that", "with"})
    && (c.alias.Some? ==> WordText(c.alias.value))
    && (c.text.Some? ==> QuotableBut(c.text.value, avoid))
    && AttrsOk(c.attrs, avoid)
  }

  ghost predicate PrintableBut(s: Sentence, avoid: char) {
    match s
    case Add(blockName, alias, text, attrs, parent) =>
      ClauseOk(AddClause(blockName, alias, text, attrs), avoid) && (parent.Some? ==> WordText(parent.value))
    case Give(target, attrs) => WordText(target) && attrs != [] && AttrsOk(attrs, avoid)
    case Style(name, attrs) => QuotableBut(name, avoid) && AttrsOk(attrs, avoid)
    case Class(names, target) => names != [] && (forall n :: n in names ==> QuotableBut(n, avoid)) && WordText(target)
    case Publish(title, path) => QuotableBut(title, avoid) && QuotableBut(path, avoid)
    case Clear => true
    case Workflow(name) => QuotableBut(name, avoid)
    case Trigger(event, form) =>
      (event == FORM_CREATED && QuotableBut(form, avoid)) || (event == USER_CREATED && form == "")
    case Step(stepName, attrs) => ClauseOk(AddClause(stepName, None, None, attrs), avoid)
    case PublishWorkflow => true
  }

  ghost predicate Printable(s: Sentence) {
    PrintableBut(s, '"')
  }

  // ---------------------------------------------------------------------
  // What is printed is in the grammar, piece by piece
  // ---------------------------------------------------------------------

  lemma NameSpells(name: string, stops: set<string>)
    requires NameBut(name, stops)
    ensures SpellsName(NameTokens(name), stops, name) && name != ""
  {
    JoinSplit(name, ' ');
    assert NameWords(NameTokens(name), Split(name, ' '), stops);
    assert Split("", ' ') == [""] && "" in Split("", ' ');
  }

  /** A keyword printed in lower case is one. */
  lemma Plain(w: string)
    requires forall i :: 0 <= i < |w| ==> !('A' <= w[i] <= 'Z')
    ensures Lower(w) == w
  {
  }

  lemma ArticleSpells(next: seq<Token>)
    ensures SpellsArticle([Word("a")], next)
  {
    Plain("a");
  }

  lemma AttrSpells(a: Attr, avoid: char)
    requires AttrOk(a, avoid)
    ensures SpellsAttr(AttrTokens(a), a)
  {
    var key := NameTokens(a.key);
    Plain("of");
    ArticleSpells(key);
    NameSpells(a.key, {"of"});
    hide NameTokens, SpellsName, SpellsArticle, Lower;
    assert AttrTokens(a) == [Word("a")] + (key + ([Word("of")] + [Quoted(a.value)]));
    assert AttrPieces(AttrTokens(a), a, [Word("a")], key, "of", [Quoted(a.value)]);
  }

  lemma {:induction false} TailSpells(attrs: seq<Attr>, avoid: char)
    requires AttrsOk(attrs, avoid)
    ensures SpellsTail(TailTokens(attrs), attrs)
  {
    if attrs != [] {
      var first, rest := AttrTokens(attrs[0]), TailTokens(attrs[1..]);
      assert attrs[0] in attrs;
      Plain("and");
      AttrSpells(attrs[0], avoid);
      TailSpells(attrs[1..], avoid);
      hide AttrTokens, SpellsAttr, Lower;
      Assoc([Word("and")], first, rest);
      assert TailPieces(TailTokens(attrs), [Word("and")], first, rest);
    }
  }

  lemma AttrListSpells(attrs: seq<Attr>, avoid: char)
    requires AttrsOk(attrs, avoid)
    ensures attrs != [] ==> SpellsAttrs(AttrListTokens(attrs), attrs)
    ensures SpellsWith(WithTokens(attrs), attrs)
  {
    if attrs != [] {
      assert attrs[0] in attrs;
      Plain("with");
      AttrSpells(attrs[0], avoid);
      TailSpells(attrs[1..], avoid);
      hide AttrTokens, TailTokens, SpellsAttr, SpellsTail, Lower;
      assert WithTokens(attrs)[1..] == AttrListTokens(attrs);
    }
  }

  lemma ClauseSpells(c: AddClause, avoid: char)
    requires ClauseOk(c, avoid)
    ensures SpellsClause(ClauseTokens(c), c)
  {
    var name := NameTokens(c.blockName);
    Plain("called");
    Plain("that");
    Plain("says");
    ArticleSpells(name);
    NameSpells(c.blockName, CLAUSE_STOPS);
    AttrListSpells(c.attrs, avoid);
    hide NameTokens, WithTokens, SpellsName, SpellsArticle, SpellsWith, Lower;
    var called, says, with_ := CalledTokens(c.alias), SaysTokens(c.text), WithTokens(c.attrs);
    assert ClauseTokens(c) == [Word("a")] + (name + (called + (says + with_)));
    assert ClausePieces(ClauseTokens(c), c, [Word("a")], name, called, says, with_);
  }

  lemma {:induction false} NamesSpell(names: seq<string>)
    requires names != []
    ensures SpellsNames(NameListTokens(names), names)
  {
    hide SpellsNames;
    if |names| == 1 {
      OneNameSpells(names);
    } else {
      var rest := NameListTokens(names[1..]);
      NamesSpell(names[1..]);
      AndSpells(rest);
      FrontAt([Quoted(names[0])], [Word("and")] + rest);
      hide NameListTokens, SpellsSeparator;
      PrintedNames(names);
      NamesGrow(NameListTokens(names), names, [Word("and")], rest);
    }
  }

  lemma PrintedNames(names: seq<string>)
    requires |names| > 1
    ensures NameListTokens(names) == [Quoted(names[0])] + ([Word("and")] + NameListTokens(names[1..]))
  {
  }

  lemma OneNameSpells(names: seq<string>)
    requires |names| == 1
    ensures SpellsNames(NameListTokens(names), names)
  {
  }

  lemma AndSpells(next: seq<Token>)
    ensures SpellsSeparator([Word("and")], next)
  {
    Plain("and");
  }

  lemma FrontAt(front: seq<Token>, rest: seq<Token>)
    ensures (front + rest)[|front|..] == rest
    ensures forall i :: 0 <= i < |front| ==> (front + rest)[i] == front[i]
  {
  }

  lemma NamesGrow(ts: seq<Token>, names: seq<string>, sep: seq<Token>, rest: seq<Token>)
    requires |names| > 1 && ts != [] && ts[0] == Quoted(names[0]) && ts[1..] == sep + rest
    requires SpellsSeparator(sep, rest) && SpellsNames(rest, names[1..])
    ensures SpellsNames(ts, names)
  {
  }

  // ---------------------------------------------------------------------
  // Whole sentences
  // ---------------------------------------------------------------------

  lemma Capitals()
    ensures Lower("Add") == "add" && Lower("Inside") == "inside" && Lower("Give") == "give"
    ensures Lower("Make") == "make" && Lower("Apply") == "apply"
  {
  }

  lemma AddSpells(c: AddClause, clause: seq<Token>)
    requires SpellsClause(clause, c)
    ensures SpellsSentence([Word("Add")] + clause, Add(c.blockName, c.alias, c.text, c.attrs, None))
    ensures SpellsSentence([Word("then")] + clause, Step(c.blockName, c.attrs))
  {
    Capitals();
    Plain("then");
    hide SpellsClause, Lower;
    FrontAt([Word("Add")], clause);
    FrontAt([Word("then")], clause);
    assert SpellsBlock([Word("then")] + clause, 0, AddClause(c.blockName, c.alias, c.text, c.attrs));
  }

  lemma InsideSpells(c: AddClause, parent: string, clause: seq<Token>)
    requires SpellsClause(clause, c)
    ensures SpellsSentence([Word("Inside"), Word(parent), Punct(","), Word("add")] + clause,
                           Add(c.blockName, c.alias, c.text, c.attrs, Some(parent)))
  {
    Capitals();
    Plain("add");
    hide SpellsClause, Lower;
    FrontAt([Word("Inside"), Word(parent), Punct(","), Word("add")], clause);
  }

  lemma BlockSpells(s: Sentence, avoid: char)
    requires (s.Add? || s.Step?) && PrintableBut(s, avoid)
    ensures SpellsSentence(SentenceTokens(s), s)
  {
    hide ClauseTokens, SpellsClause, ClauseOk, Lower, SpellsSentence;
    match s
    case Add(name, alias, text, attrs, parent) =>
      var c := AddClause(name, alias, text, attrs);
      ClauseSpells(c, avoid);
      AddSpells(c, ClauseTokens(c));
      if parent.Some? { InsideSpells(c, parent.value, ClauseTokens(c)); }
    case Step(name, attrs) =>
      var c := AddClause(name, None, None, attrs);
      ClauseSpells(c, avoid);
      AddSpells(c, ClauseTokens(c));
  }

  lemma GiveSpells(target: string, attrs: seq<Attr>, list: seq<Token>)
    requires SpellsAttrs(list, attrs)
    ensures SpellsSentence([Word("Give"), Word(target)] + list, Give(target, attrs))
  {
    Capitals();
    hide SpellsAttrs, Lower;
    FrontAt([Word("Give"), Word(target)], list);
  }

  lemma StyleSpells(name: string, attrs: seq<Attr>, with_: seq<Token>)
    requires SpellsWith(with_, attrs)
    ensures SpellsSentence([Word("Make"), Word("a"), Word("style"), Word("called"), Quoted(name)] + with_, Style(name, attrs))
  {
    Capitals();
    Plain("a");
    Plain("style");
    Plain("called");
    hide SpellsWith, Lower, Keywords;
    var front := [Word("Make"), Word("a"), Word("style"), Word("called"), Quoted(name)];
    FrontAt(front, with_);
    TwoKeywords(front + with_, 2, "style", "called");
  }

  lemma ClassSpells(names: seq<string>, target: string, list: seq<Token>)
    requires SpellsNames(list, names)
    ensures SpellsSentence([Word("Apply")] + list + [Word("to"), Word(target)], Class(names, target))
  {
    Capitals();
    Plain("to");
    hide SpellsNames, Lower;
    var ts := [Word("Apply")] + list + [Word("to"), Word(target)];
    assert ts[0] == Word("Apply") && ts[|ts| - 2] == Word("to") && ts[|ts| - 1] == Word(target);
    assert ts[1..|ts| - 2] == list;
  }

  lemma ListSpells(s: Sentence, avoid: char)
    requires (s.Give? || s.Style? || s.Class?) && PrintableBut(s, avoid)
    ensures SpellsSentence(SentenceTokens(s), s)
  {
    hide AttrListTokens, WithTokens, NameListTokens, SpellsAttrs, SpellsWith, SpellsNames, AttrsOk, SpellsSentence;
    match s
    case Give(target, attrs) =>
      AttrListSpells(attrs, avoid);
      GiveSpells(target, attrs, AttrListTokens(attrs));
    case Style(name, attrs) =>
      AttrListSpells(attrs, avoid);
      StyleSpells(name, attrs, WithTokens(attrs));
    case Class(names, target) =>
      NamesSpell(names);
      ClassSpells(names, target, NameListTokens(names));
  }

  lemma PublishSpells(s: Sentence)
    requires s.Publish? || s.PublishWorkflow?
    ensures SpellsSentence(SentenceTokens(s), s)
  {
    Plain("publish");
    Plain("this");
    Plain("as");
    Plain("at");
    Plain("workflow");
    Plain("the");
    hide Lower, Keywords;
    ThreeKeywords(SentenceTokens(s), 0, "publish", "the", "workflow");
  }

  lemma StartSpells(s: Sentence)
    requires s.Clear? || s.Workflow?
    ensures SpellsSentence(SentenceTokens(s), s)
  {
    Plain("start");
    Plain("a");
    Plain("new");
    Plain("page");
    Plain("workflow");
    Plain("called");
    hide Lower, Keywords;
    var ts := SentenceTokens(s);
    TwoKeywords(ts, 2, "new", "page");
    ThreeKeywords(ts, 2, "new", "workflow", "called");
  }

  lemma JoinFour(a: string, b: string, c: string, d: string)
    ensures Join([a, b, c, d], ' ') == a + " " + (b + " " + (c + " " + d))
  {
    assert [c, d][1..] == [d] && [b, c, d][1..] == [c, d] && [a, b, c, d][1..] == [b, c, d];
    assert Join([d], ' ') == d;
    assert Join([c, d], ' ') == c + " " + d;
    assert Join([b, c, d], ' ') == b + " " + (c + " " + d);
  }

  lemma PhraseSpells(ws: seq<string>, phrase: string, event: string)
    requires Join(ws, ' ') == phrase && Lower(phrase) == phrase && PhraseMeans(phrase, event)
    ensures SpellsPhrase(Words(ws), event)
  {
  }

  lemma JoinsPhrase()
    ensures Join(["someone", "joins"], ' ') == "someone joins"
    ensures Lower("someone joins") == "someone joins"
  {
    assert Join(["someone", "joins"], ' ') == "someone joins";
    hide Join;
    Plain("someone joins");
  }

  lemma SubmitsPhrase()
    ensures Join(["someone", "submits", "a", "form"], ' ') == "someone submits a form"
    ensures Lower("someone submits a form") == "someone submits a form"
  {
    JoinFour("someone", "submits", "a", "form");
    hide Join;
    Plain("someone submits a form");
  }

  lemma PhrasesSpell()
    ensures SpellsPhrase(Words(["someone", "joins"]), USER_CREATED)
    ensures SpellsPhrase(Words(["someone", "submits", "a", "form"]), FORM_CREATED)
  {
    hide *;
    PhrasesMean();
    JoinsPhrase();
    PhraseSpells(["someone", "joins"], "someone joins", USER_CREATED);
    SubmitsPhrase();
    PhraseSpells(["someone", "submits", "a", "form"], "someone submits a form", FORM_CREATED);
  }

  lemma PhrasesMean()
    ensures PhraseMeans("someone joins", USER_CREATED) && PhraseMeans("someone submits a form", FORM_CREATED)
  {
  }

  lemma RunSpells(what: seq<Token>, event: string, form: string)
    requires SpellsTrigger(what, event, form)
    ensures SpellsSentence([Word("run"), Word("it"), Word("when")] + what, Trigger(event, form))
  {
    Plain("run");
    Plain("it");
    Plain("when");
    hide SpellsTrigger, Lower;
    FrontAt([Word("run"), Word("it"), Word("when")], what);
  }

  lemma FormSpells(form: string)
    ensures SpellsTrigger([Word("someone"), Word("submits"), Word("the"), Quoted(form), Word("form")], FORM_CREATED, form)
  {
    Plain("someone");
    Plain("submits");
    Plain("the");
    Plain("form");
    hide Lower, Keywords, SpellsPhrase;
    ThreeKeywords([Word("someone"), Word("submits"), Word("the"), Quoted(form), Word("form")], 0, "someone", "submits", "the");
  }

  lemma TriggerSpells(s: Sentence, avoid: char)
    requires s.Trigger? && PrintableBut(s, avoid)
    ensures SpellsSentence(SentenceTokens(s), s)
  {
    PhrasesSpell();
    hide Words, SpellsPhrase, SpellsSentence;
    if s.event == USER_CREATED {
      RunSpells(Words(["someone", "joins"]), s.event, s.form);
    } else if s.form == "" {
      RunSpells(Words(["someone", "submits", "a", "form"]), s.event, s.form);
    } else {
      FormSpells(s.form);
      var what := [Word("someone"), Word("submits"), Word("the"), Quoted(s.form), Word("form")];
      RunSpells(what, s.event, s.form);
      assert SentenceTokens(s) == [Word("run"), Word("it"), Word("when")] + what;
    }
  }

  /** Every printable sentence is read back from its tokens, all of them consumed. */
  lemma TokensReadBack(s: Sentence, avoid: char)
    requires PrintableBut(s, avoid)
    ensures SpellsSentence(SentenceTokens(s), s)
    ensures SentenceOf(SentenceTokens(s)) == Some(s)
  {
    if s.Add? || s.Step? {
      BlockSpells(s, avoid);
    } else if s.Give? || s.Style? || s.Class? {
      ListSpells(s, avoid);
    } else if s.Trigger? {
      TriggerSpells(s, avoid);
    } else if s.Clear? || s.Workflow? {
      StartSpells(s);
    } else {
      PublishSpells(s);
    }
    SentenceIff(SentenceTokens(s), s);
  }
}

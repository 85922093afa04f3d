/** The parser as the source runs it: a cursor whose position the parse functions move along.
    Every method is proved against the reading function of the same form. */
module BqlCursor {
  import opened Text
  import opened BqlLexer
  import opened BqlParser

  class Cursor {
    const tokens: seq<Token>
    var pos: nat

    constructor (tokens: seq<Token>)
      ensures this.tokens == tokens && Rest() == tokens
    {
      this.tokens := tokens;
      pos := 0;
    }

    /** The tokens not yet consumed; none once the position is past the end. */
    ghost function Rest(): seq<Token>
      reads this
    {
      Drop(tokens, pos)
    }

    function Peek(offset: nat): (t: Option<Token>)
      reads this
      ensures t == if offset < |Rest()| then Some(Rest()[offset]) else None
    {
      if pos + offset < |tokens| then Some(tokens[pos + offset]) else None
    }

    method Next() returns (t: Option<Token>)
      modifies this
      ensures t == if old(Rest()) != [] then Some(old(Rest())[0]) else None
      ensures Rest() == Drop(old(Rest()), 1)
    {
      t := Peek(0);
      pos := pos + 1;
    }

    predicate IsWord(value: string, offset: nat)
      reads this
      ensures IsWord(value, offset) == IsWordAt(Rest(), value, offset)
    {
      var t := Peek(offset);
      t.Some? && t.value.Word? && Lower(t.value.value) == value
    }

    predicate IsComma()
      reads this
      ensures IsComma() == IsCommaAt(Rest())
    {
      Peek(0) == Some(Punct(","))
    }
  }

  lemma DropDrop(ts: seq<Token>, a: nat, b: nat)
    ensures Drop(Drop(ts, a), b) == Drop(ts, a + b)
  {
  }

  lemma DropNone(ts: seq<Token>)
    ensures Drop(ts, 0) == ts
  {
  }

  lemma DropFront(ts: seq<Token>)
    ensures Drop(ts, 1) != [] <==> |ts| > 1
    ensures |ts| > 1 ==> Drop(ts, 1)[0] == ts[1]
  {
  }

  lemma IsWordDrop(ts: seq<Token>, value: string, k: nat)
    ensures IsWordAt(Drop(ts, 1), value, k) == IsWordAt(ts, value, k + 1)
  {
  }

  method SkipArticleAt(c: Cursor)
    modifies c
    ensures c.Rest() == SkipArticle(old(c.Rest()))
  {
    if c.IsWord("a", 0) || c.IsWord("an", 0) { var _ := c.Next(); }
  }

  method TakeWordsAt(c: Cursor, stops: set<string>) returns (words: seq<string>)
    modifies c
    ensures Parse(words, c.Rest()) == TakeWords(old(c.Rest()), stops)
  {
    words := [];
    ghost var ts := c.Rest();
    assert words + TakeWords(ts, stops).value == TakeWords(ts, stops).value;
    var t := c.Peek(0);
    while t.Some? && t.value.Word?
      invariant t == if c.Rest() != [] then Some(c.Rest()[0]) else None
      invariant TakeWords(ts, stops) ==
                Parse(words + TakeWords(c.Rest(), stops).value, TakeWords(c.Rest(), stops).rest)
      decreases |c.Rest()|
    {
      if Lower(t.value.value) in stops { break; }
      Assoc(words, [t.value.value], TakeWords(c.Rest()[1..], stops).value);
      words := words + [t.value.value];
      var _ := c.Next();
      t := c.Peek(0);
    }
    assert words + [] == words;
  }

  /** Words joined by single spaces, the way the loop over an index builds the text. */
  method JoinWords(words: seq<string>) returns (joined: string)
    ensures joined == Join(words, ' ')
  {
    joined := "";
    for i := 0 to |words|
      invariant joined == Join(words[..i], ' ')
    {
      JoinSnoc(words[..i], words[i]);
      assert words[..i + 1] == words[..i] + [words[i]];
      if i > 0 { joined := joined + " "; }
      joined := joined + words[i];
    }
    assert words[..|words|] == words;
  }

  lemma {:induction false} JoinSnoc(words: seq<string>, w: string)
    ensures Join(words + [w], ' ') == if words == [] then w else Join(words, ' ') + " " + w
  {
    if words == [] {
    } else if |words| == 1 {
      assert (words + [w])[1..] == [w];
    } else {
      JoinSnoc(words[1..], w);
      assert (words + [w])[1..] == words[1..] + [w];
    }
  }

  method WordsUntilAt(c: Cursor, stops: set<string>) returns (joined: string)
    modifies c
    ensures Parse(joined, c.Rest()) == WordsUntil(old(c.Rest()), stops)
  {
    var words := TakeWordsAt(c, stops);
    joined := JoinWords(words);
  }

  method SeparatorAt(c: Cursor) returns (found: bool)
    modifies c
    ensures Parse(found, c.Rest()) == Separator(old(c.Rest()))
  {
    found := false;
    if c.IsComma() {
      var _ := c.Next();
      found := true;
    }
    if c.IsWord("and", 0) {
      var _ := c.Next();
      found := true;
    }
  }

  method ValueAt(c: Cursor) returns (value: Option<string>)
    modifies c
    ensures match Value(old(c.Rest()))
            case None => value == None
            case Some(v) => value == Some(v.value) && c.Rest() == v.rest
  {
    var t := c.Peek(0);
    if t.None? { return None; }
    if t.value.Quoted? {
      var _ := c.Next();
      return Some(t.value.value);
    }
    var words := TakeWordsAt(c, {"and"});
    if words == [] { return None; }
    var joined := JoinWords(words);
    return Some(joined);
  }

  method AttrItemAt(c: Cursor) returns (attr: Option<Attr>)
    modifies c
    ensures match AttrItem(old(c.Rest()))
            case None => attr == None
            case Some(a) => attr == Some(a.value) && c.Rest() == a.rest
  {
    SkipArticleAt(c);
    var key := WordsUntilAt(c, {"of"});
    if key == "" || !c.IsWord("of", 0) { return None; }
    var _ := c.Next();
    var value := ValueAt(c);
    if value.None? { return None; }
    return Some(Attr(key, value.value));
  }

  /** The whole list is what has been read, then what the tail still yields. */
  ghost predicate TailGives(whole: Option<Parse<seq<Attr>>>, attrs: seq<Attr>, rest: seq<Token>) {
    match AttrTail(rest)
    case None => whole == None
    case Some(more) => whole == Some(Parse(attrs + more.value, more.rest))
  }

  lemma TailStep(whole: Option<Parse<seq<Attr>>>, attrs: seq<Attr>, ts: seq<Token>)
    requires TailGives(whole, attrs, ts) && Separator(ts).value
    ensures match AttrItem(Separator(ts).rest)
            case None => whole == None
            case Some(a) => TailGives(whole, attrs + [a.value], a.rest) && |a.rest| < |ts|
  {
    AttrItemShorter(Separator(ts).rest);
    match AttrItem(Separator(ts).rest)
    case None =>
    case Some(a) =>
      match AttrTail(a.rest)
      case None =>
      case Some(more) => Assoc(attrs, [a.value], more.value);
  }

  method AttrListAt(c: Cursor) returns (attrs: Option<seq<Attr>>)
    modifies c
    ensures match AttrList(old(c.Rest()))
            case None => attrs == None
            case Some(l) => attrs == Some(l.value) && c.Rest() == l.rest
  {
    ghost var whole := AttrList(c.Rest());
    var first := AttrItemAt(c);
    if first.None? { return None; }
    var list := [first.value];
    while true
      invariant TailGives(whole, list, c.Rest())
      decreases |c.Rest()|
    {
      ghost var ts := c.Rest();
      var found := SeparatorAt(c);
      if !found {
        assert list + [] == list;
        return Some(list);
      }
      TailStep(whole, list, ts);
      var next := AttrItemAt(c);
      if next.None? { return None; }
      list := list + [next.value];
    }
  }

  method CalledAt(c: Cursor) returns (alias: Option<Option<string>>)
    modifies c
    ensures match CalledPart(old(c.Rest()))
            case None => alias == None
            case Some(p) => alias == Some(p.value) && c.Rest() == p.rest
  {
    if !c.IsWord("called", 0) { return Some(None); }
    DropDrop(c.Rest(), 1, 1);
    var _ := c.Next();
    var t := c.Next();
    if t.None? || !t.value.Word? { return None; }
    return Some(Some(t.value.value));
  }

  method SaysAt(c: Cursor) returns (text: Option<Option<string>>)
    modifies c
    ensures match SaysPart(old(c.Rest()))
            case None => text == None
            case Some(p) => text == Some(p.value) && c.Rest() == p.rest
  {
    if !c.IsWord("that", 0) { return Some(None); }
    DropDrop(c.Rest(), 1, 1);
    DropDrop(c.Rest(), 2, 1);
    var _ := c.Next();
    if !c.IsWord("says", 0) { return None; }
    var _ := c.Next();
    var t := c.Next();
    if t.None? || !t.value.Quoted? { return None; }
    return Some(Some(t.value.value));
  }

  method WithAt(c: Cursor) returns (attrs: Option<seq<Attr>>)
    modifies c
    ensures match WithPart(old(c.Rest()))
            case None => attrs == None
            case Some(p) => attrs == Some(p.value) && c.Rest() == p.rest
  {
    if !c.IsWord("with", 0) { return Some([]); }
    var _ := c.Next();
    attrs := AttrListAt(c);
  }

  method ClauseAt(c: Cursor) returns (clause: Option<AddClause>)
    modifies c
    ensures match Clause(old(c.Rest()))
            case None => clause == None
            case Some(r) => clause == Some(r.value) && c.Rest() == r.rest
  {
    hide CalledPart, SaysPart, WithPart, WordsUntil, SkipArticle;
    SkipArticleAt(c);
    var blockName := WordsUntilAt(c, {"called", "that", "with"});
    if blockName == "" { return None; }
    var alias := CalledAt(c);
    if alias.None? { return None; }
    var text := SaysAt(c);
    if text.None? { return None; }
    var attrs := WithAt(c);
    if attrs.None? { return None; }
    return Some(AddClause(blockName, alias.value, text.value, attrs.value));
  }

  lemma {:induction false} SeparatorShorter(ts: seq<Token>)
    ensures |Separator(ts).rest| <= |ts|
  {
  }

  method NameListAt(c: Cursor) returns (names: seq<string>)
    modifies c
    ensures Parse(names, c.Rest()) == NameList(old(c.Rest()))
  {
    names := [];
    ghost var ts := c.Rest();
    assert names + NameList(ts).value == NameList(ts).value;
    var t := c.Peek(0);
    while t.Some? && t.value.Quoted?
      invariant t == if c.Rest() != [] then Some(c.Rest()[0]) else None
      invariant NameList(ts) == Parse(names + NameList(c.Rest()).value, NameList(c.Rest()).rest)
      decreases |c.Rest()|
    {
      ghost var here := c.Rest();
      SeparatorShorter(Drop(here, 1));
      Assoc(names, [t.value.value], NameList(Separator(Drop(here, 1)).rest).value);
      names := names + [t.value.value];
      var _ := c.Next();
      var found := SeparatorAt(c);
      if !found { return; }
      t := c.Peek(0);
    }
    assert names + [] == names;
  }

  // ---------------------------------------------------------------------
  // Sentence forms
  // ---------------------------------------------------------------------

  /** The method's outcome is the reading: the same sentence with the same tokens left, or failure. */
  ghost predicate Reads(reading: Reading, result: Option<Sentence>, rest: seq<Token>) {
    match reading
    case None => result == None
    case Some(r) => result == Some(r.value) && rest == r.rest
  }

  method ParseAdd(c: Cursor) returns (r: Option<Sentence>)
    modifies c
    ensures Reads(ReadAdd(old(c.Rest())), r, c.Rest())
  {
    var _ := c.Next();
    var clause := ClauseAt(c);
    if clause.None? { return None; }
    var k := clause.value;
    return Some(Add(k.blockName, k.alias, k.text, k.attrs, None));
  }

  method ParseInsideAdd(c: Cursor) returns (r: Option<Sentence>)
    modifies c
    ensures Reads(ReadInside(old(c.Rest())), r, c.Rest())
  {
    DropDrop(c.Rest(), 1, 1);
    var _ := c.Next();
    var parent := c.Next();
    if parent.None? || !parent.value.Word? { return None; }
    if c.IsComma() { var _ := c.Next(); }
    if !c.IsWord("add", 0) { return None; }
    var _ := c.Next();
    var clause := ClauseAt(c);
    if clause.None? { return None; }
    var k := clause.value;
    return Some(Add(k.blockName, k.alias, k.text, k.attrs, Some(parent.value.value)));
  }

  method ParseGive(c: Cursor) returns (r: Option<Sentence>)
    modifies c
    ensures Reads(ReadGive(old(c.Rest())), r, c.Rest())
  {
    DropDrop(c.Rest(), 1, 1);
    var _ := c.Next();
    var target := c.Next();
    if target.None? || !target.value.Word? { return None; }
    var attrs := AttrListAt(c);
    if attrs.None? { return None; }
    return Some(Give(target.value.value, attrs.value));
  }

  method ParseStyle(c: Cursor) returns (r: Option<Sentence>)
    modifies c
    ensures Reads(ReadStyle(old(c.Rest())), r, c.Rest())
  {
    hide SkipArticle, WithPart;
    var _ := c.Next();
    SkipArticleAt(c);
    if !c.IsWord("style", 0) || !c.IsWord("called", 1) { return None; }
    DropDrop(c.Rest(), 1, 1);
    DropDrop(c.Rest(), 2, 1);
    var _ := c.Next();
    var _ := c.Next();
    var name := c.Next();
    if name.None? || !name.value.Quoted? { return None; }
    var attrs := WithAt(c);
    if attrs.None? { return None; }
    return Some(Style(name.value.value, attrs.value));
  }

  method ParseApply(c: Cursor) returns (r: Option<Sentence>)
    modifies c
    ensures Reads(ReadApply(old(c.Rest())), r, c.Rest())
  {
    var _ := c.Next();
    var names := NameListAt(c);
    if names == [] { return None; }
    if !c.IsWord("to", 0) { return None; }
    DropDrop(c.Rest(), 1, 1);
    var _ := c.Next();
    var target := c.Next();
    if target.None? || !target.value.Word? { return None; }
    return Some(Class(names, target.value.value));
  }

  method TitleAt(c: Cursor) returns (title: Option<string>)
    modifies c
    ensures match TitlePart(old(c.Rest()))
            case None => title == None
            case Some(p) => title == Some(p.value) && c.Rest() == p.rest
  {
    if !c.IsWord("as", 0) { return Some(""); }
    DropDrop(c.Rest(), 1, 1);
    var _ := c.Next();
    var t := c.Next();
    if t.None? || !t.value.Quoted? { return None; }
    return Some(t.value.value);
  }

  method ParsePublish(c: Cursor) returns (r: Option<Sentence>)
    modifies c
    ensures Reads(ReadPublish(old(c.Rest())), r, c.Rest())
  {
    hide TitlePart, IsWordAt, Drop, Lower;
    var _ := c.Next();
    if c.IsWord("the", 0) {
      DropDrop(c.Rest(), 1, 1);
      IsWordDrop(c.Rest(), "workflow", 0);
      var _ := c.Next();
      if !c.IsWord("workflow", 0) { return None; }
      var _ := c.Next();
      return Some(PublishWorkflow);
    }
    if c.IsWord("this", 0) { var _ := c.Next(); }
    var title := TitleAt(c);
    if title.None? { return None; }
    if !c.IsWord("at", 0) { return None; }
    DropDrop(c.Rest(), 1, 1);
    DropFront(c.Rest());
    var _ := c.Next();
    var path := c.Next();
    if path.None? || (!path.value.Word? && !path.value.Quoted?) { return None; }
    return Some(Publish(title.value, path.value.value));
  }

  method ParseWorkflowStart(c: Cursor) returns (r: Option<Sentence>)
    modifies c
    ensures Reads(ReadWorkflowStart(old(c.Rest())), r, c.Rest())
  {
    DropDrop(c.Rest(), 1, 1);
    DropDrop(c.Rest(), 2, 1);
    if !c.IsWord("workflow", 0) { return None; }
    var _ := c.Next();
    if !c.IsWord("called", 0) { return None; }
    var _ := c.Next();
    var name := c.Next();
    if name.None? || !name.value.Quoted? { return None; }
    return Some(Workflow(name.value.value));
  }

  method ParseClear(c: Cursor) returns (r: Option<Sentence>)
    modifies c
    ensures Reads(ReadStart(old(c.Rest())), r, c.Rest())
  {
    var _ := c.Next();
    SkipArticleAt(c);
    DropDrop(c.Rest(), 1, 1);
    if !c.IsWord("new", 0) { return None; }
    var _ := c.Next();
    if c.IsWord("workflow", 0) {
      r := ParseWorkflowStart(c);
      return;
    }
    if !c.IsWord("page", 0) { return None; }
    var _ := c.Next();
    return Some(Clear);
  }

  method ParseRunWhen(c: Cursor) returns (r: Option<Sentence>)
    modifies c
    ensures Reads(ReadRun(old(c.Rest())), r, c.Rest())
  {
    hide IsWordAt, WordsUntil, EventOf, Drop, Lower;
    DropDrop(c.Rest(), 1, 1);
    IsWordDrop(c.Rest(), "it", 0);
    var _ := c.Next();
    if c.IsWord("it", 0) { var _ := c.Next(); }
    if !c.IsWord("when", 0) { return None; }
    var _ := c.Next();
    ghost var what := c.Rest();
    if c.IsWord("someone", 0) && c.IsWord("submits", 1) && c.IsWord("the", 2) {
      var form := c.Peek(3);
      if form.None? || !form.value.Quoted? { return None; }
      if !c.IsWord("form", 4) { return None; }
      DropNone(what);
      for i := 0 to 5
        invariant c.Rest() == Drop(what, i)
      {
        DropDrop(what, i, 1);
        var _ := c.Next();
      }
      return Some(Trigger(FORM_CREATED, form.value.value));
    }
    var phrase := WordsUntilAt(c, {});
    var event := EventOf(phrase);
    if event.None? { return None; }
    return Some(Trigger(event.value, ""));
  }

  method ParseThen(c: Cursor) returns (r: Option<Sentence>)
    modifies c
    ensures Reads(ReadThen(old(c.Rest())), r, c.Rest())
  {
    var _ := c.Next();
    var clause := ClauseAt(c);
    if clause.None? { return None; }
    return Some(Step(clause.value.blockName, clause.value.attrs));
  }

  method DispatchAt(c: Cursor) returns (r: Option<Sentence>)
    modifies c
    ensures Reads(Dispatch(old(c.Rest())), r, c.Rest())
  {
    if c.IsWord("start", 0) { r := ParseClear(c); return; }
    if c.IsWord("publish", 0) { r := ParsePublish(c); return; }
    if c.IsWord("apply", 0) { r := ParseApply(c); return; }
    if c.IsWord("make", 0) { r := ParseStyle(c); return; }
    if c.IsWord("give", 0) { r := ParseGive(c); return; }
    if c.IsWord("inside", 0) { r := ParseInsideAdd(c); return; }
    if c.IsWord("add", 0) { r := ParseAdd(c); return; }
    if c.IsWord("run", 0) { r := ParseRunWhen(c); return; }
    if c.IsWord("then", 0) { r := ParseThen(c); return; }
    return None;
  }

  /** A failure carries a message in the source; here it is just None. */
  method ParseSentence(rawLine: string) returns (r: Option<Sentence>)
    ensures r == SentenceIn(rawLine)
  {
    hide Dispatch, Trim, TokensOf, StripTerminator, Drop, IsWordAt;
    var tokens := Tokenize(Trim(rawLine));
    var c := new Cursor(StripTerminator(tokens));
    r := DispatchAt(c);
    if r.Some? {
      var extra := c.Peek(0);
      if extra.Some? { return None; }
    }
  }
}

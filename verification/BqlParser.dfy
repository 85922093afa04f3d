/** The BQL parser: a cursor over tokens with lookahead, one function per sentence form. */
module BqlParser {
  import opened Text
  import opened BqlLexer

  datatype Attr = Attr(key: string, value: string)

  /** The sentence forms. Only the fields a form sets are part of it. */
  datatype Sentence =
    | Add(blockName: string, alias: Option<string>, text: Option<string>, attrs: seq<Attr>, parentAlias: Option<string>)
    | Give(target: string, attrs: seq<Attr>)
    | Style(name: string, attrs: seq<Attr>)
    | Class(names: seq<string>, target: string)
    | Publish(title: string, path: string)
    | Clear
    | Workflow(name: string)
    | Trigger(event: string, form: string)
    | Step(stepName: string, attrs: seq<Attr>)
    | PublishWorkflow

  datatype AddClause = AddClause(blockName: string, alias: Option<string>, text: Option<string>, attrs: seq<Attr>)

  // ---------------------------------------------------------------------
  // Reading from the front of a token list
  // ---------------------------------------------------------------------

  /** A value read, and the tokens left after it. */
  datatype Parse<T> = Parse(value: T, rest: seq<Token>)

  predicate IsWordAt(ts: seq<Token>, value: string, k: nat) {
    k < |ts| && ts[k].Word? && Lower(ts[k].value) == value
  }

  predicate IsCommaAt(ts: seq<Token>) {
    ts != [] && ts[0] == Punct(",")
  }

  function Drop(ts: seq<Token>, n: nat): seq<Token> {
    if n <= |ts| then ts[n..] else []
  }

  function SkipArticle(ts: seq<Token>): seq<Token> {
    if IsWordAt(ts, "a", 0) || IsWordAt(ts, "an", 0) then Drop(ts, 1) else ts
  }

  function TakeWords(ts: seq<Token>, stops: set<string>): Parse<seq<string>> {
    if ts == [] || !ts[0].Word? || Lower(ts[0].value) in stops then Parse([], ts)
    else
      var more := TakeWords(ts[1..], stops);
      Parse([ts[0].value] + more.value, more.rest)
  }

  function WordsUntil(ts: seq<Token>, stops: set<string>): Parse<string> {
    var words := TakeWords(ts, stops);
    Parse(Join(words.value, ' '), words.rest)
  }

  /** A comma, "and", or ", and": whether one was there, and what follows it. */
  function Separator(ts: seq<Token>): Parse<bool> {
    var afterComma := if IsCommaAt(ts) then Drop(ts, 1) else ts;
    if IsWordAt(afterComma, "and", 0) then Parse(true, Drop(afterComma, 1))
    else Parse(IsCommaAt(ts), afterComma)
  }

  function Value(ts: seq<Token>): Option<Parse<string>> {
    if ts == [] then None
    else if ts[0].Quoted? then Some(Parse(ts[0].value, Drop(ts, 1)))
    else
      var words := TakeWords(ts, {"and"});
      if words.value == [] then None else Some(Parse(Join(words.value, ' '), words.rest))
  }

  function AttrItem(ts: seq<Token>): Option<Parse<Attr>> {
    var key := WordsUntil(SkipArticle(ts), {"of"});
    if key.value == "" || !IsWordAt(key.rest, "of", 0) then None
    else
      match Value(Drop(key.rest, 1))
      case None => None
      case Some(v) => Some(Parse(Attr(key.value, v.value), v.rest))
  }

  lemma {:induction false} TakeWordsShorter(ts: seq<Token>, stops: set<string>)
    ensures |TakeWords(ts, stops).rest| + |TakeWords(ts, stops).value| == |ts|
  {
    if ts != [] && ts[0].Word? && Lower(ts[0].value) !in stops { TakeWordsShorter(ts[1..], stops); }
  }

  lemma AttrItemShorter(ts: seq<Token>)
    ensures AttrItem(ts).Some? ==> |AttrItem(ts).value.rest| < |ts|
  {
    TakeWordsShorter(SkipArticle(ts), {"of"});
    var key := WordsUntil(SkipArticle(ts), {"of"});
    TakeWordsShorter(Drop(key.rest, 1), {"and"});
  }

  /** The items after the first, each announced by a separator. */
  function AttrTail(ts: seq<Token>): Option<Parse<seq<Attr>>>
    decreases |ts|
  {
    var sep := Separator(ts);
    if !sep.value then Some(Parse([], sep.rest))
    else
      AttrItemShorter(sep.rest);
      match AttrItem(sep.rest)
      case None => None
      case Some(a) =>
        match AttrTail(a.rest)
        case None => None
        case Some(more) => Some(Parse([a.value] + more.value, more.rest))
  }

  function AttrList(ts: seq<Token>): Option<Parse<seq<Attr>>> {
    match AttrItem(ts)
    case None => None
    case Some(a) =>
      match AttrTail(a.rest)
      case None => None
      case Some(more) => Some(Parse([a.value] + more.value, more.rest))
  }

  /** `called <word>`, when the tokens start with "called". */
  function CalledPart(ts: seq<Token>): Option<Parse<Option<string>>> {
    if !IsWordAt(ts, "called", 0) then Some(Parse(None, ts))
    else if |ts| < 2 || !ts[1].Word? then None
    else Some(Parse(Some(ts[1].value), Drop(ts, 2)))
  }

  /** `that says "<text>"`, when the tokens start with "that". */
  function SaysPart(ts: seq<Token>): Option<Parse<Option<string>>> {
    if !IsWordAt(ts, "that", 0) then Some(Parse(None, ts))
    else if !IsWordAt(ts, "says", 1) || |ts| < 3 || !ts[2].Quoted? then None
    else Some(Parse(Some(ts[2].value), Drop(ts, 3)))
  }

  /** `with <attributes>`, when the tokens start with "with". */
  function WithPart(ts: seq<Token>): Option<Parse<seq<Attr>>> {
    if IsWordAt(ts, "with", 0) then AttrList(Drop(ts, 1)) else Some(Parse([], ts))
  }

  function Clause(ts: seq<Token>): Option<Parse<AddClause>> {
    var name := WordsUntil(SkipArticle(ts), {"called", "that", "with"});
    if name.value == "" then None
    else
      match CalledPart(name.rest)
      case None => None
      case Some(alias) =>
        match SaysPart(alias.rest)
        case None => None
        case Some(text) =>
          match WithPart(text.rest)
          case None => None
          case Some(attrs) => Some(Parse(AddClause(name.value, alias.value, text.value, attrs.value), attrs.rest))
  }

  function NameList(ts: seq<Token>): Parse<seq<string>>
    decreases |ts|
  {
    if ts == [] || !ts[0].Quoted? then Parse([], ts)
    else
      var sep := Separator(Drop(ts, 1));
      if !sep.value then Parse([ts[0].value], sep.rest)
      else
        var more := NameList(sep.rest);
        Parse([ts[0].value] + more.value, more.rest)
  }

  // ---------------------------------------------------------------------
  // The sentence forms; each starts at its own keyword
  // ---------------------------------------------------------------------

  type Reading = Option<Parse<Sentence>>

  function AddOf(clause: Option<Parse<AddClause>>, parentAlias: Option<string>): Reading {
    match clause
    case None => None
    case Some(c) =>
      Some(Parse(Add(c.value.blockName, c.value.alias, c.value.text, c.value.attrs, parentAlias), c.rest))
  }

  function ReadAdd(ts: seq<Token>): Reading {
    AddOf(Clause(Drop(ts, 1)), None)
  }

  function ReadInside(ts: seq<Token>): Reading {
    if |ts| < 2 || !ts[1].Word? then None
    else
      var rest := Drop(ts, 2);
      var next := if IsCommaAt(rest) then Drop(rest, 1) else rest;
      if !IsWordAt(next, "add", 0) then None
      else AddOf(Clause(Drop(next, 1)), Some(ts[1].value))
  }

  function ReadGive(ts: seq<Token>): Reading {
    if |ts| < 2 || !ts[1].Word? then None
    else
      match AttrList(Drop(ts, 2))
      case None => None
      case Some(attrs) => Some(Parse(Give(ts[1].value, attrs.value), attrs.rest))
  }

  function ReadStyle(ts: seq<Token>): Reading {
    var rest := SkipArticle(Drop(ts, 1));
    if !IsWordAt(rest, "style", 0) || !IsWordAt(rest, "called", 1) then None
    else if |rest| < 3 || !rest[2].Quoted? then None
    else
      match WithPart(Drop(rest, 3))
      case None => None
      case Some(attrs) => Some(Parse(Style(rest[2].value, attrs.value), attrs.rest))
  }

  function ReadApply(ts: seq<Token>): Reading {
    var names := NameList(Drop(ts, 1));
    if names.value == [] || !IsWordAt(names.rest, "to", 0) then None
    else if |names.rest| < 2 || !names.rest[1].Word? then None
    else Some(Parse(Class(names.value, names.rest[1].value), Drop(names.rest, 2)))
  }

  /** `as "<title>"`, when the tokens start with "as"; no title is the empty title. */
  function TitlePart(ts: seq<Token>): Option<Parse<string>> {
    if !IsWordAt(ts, "as", 0) then Some(Parse("", ts))
    else if |ts| < 2 || !ts[1].Quoted? then None
    else Some(Parse(ts[1].value, Drop(ts, 2)))
  }

  function ReadPublish(ts: seq<Token>): Reading {
    var rest := Drop(ts, 1);
    if IsWordAt(rest, "the", 0) then
      if IsWordAt(rest, "workflow", 1) then Some(Parse(PublishWorkflow, Drop(rest, 2))) else None
    else
      match TitlePart(if IsWordAt(rest, "this", 0) then Drop(rest, 1) else rest)
      case None => None
      case Some(title) =>
        if !IsWordAt(title.rest, "at", 0) || |title.rest| < 2 || title.rest[1].Punct? then None
        else Some(Parse(Publish(title.value, title.rest[1].value), Drop(title.rest, 2)))
  }

  function ReadWorkflowStart(ts: seq<Token>): Reading {
    if !IsWordAt(ts, "workflow", 0) || !IsWordAt(ts, "called", 1) || |ts| < 3 || !ts[2].Quoted? then None
    else Some(Parse(Workflow(ts[2].value), Drop(ts, 3)))
  }

  function ReadStart(ts: seq<Token>): Reading {
    var rest := SkipArticle(Drop(ts, 1));
    if !IsWordAt(rest, "new", 0) then None
    else if IsWordAt(rest, "workflow", 1) then ReadWorkflowStart(Drop(rest, 1))
    else if IsWordAt(rest, "page", 1) then Some(Parse(Clear, Drop(rest, 2)))
    else None
  }

  const FORM_CREATED := "FormSubmission.created"
  const USER_CREATED := "User.created"

  /** The event a spoken phrase names. */
  function EventOf(phrase: string): Option<string> {
    var lowered := Lower(phrase);
    if lowered == "someone submits a form" || lowered == "a form is submitted" then Some(FORM_CREATED)
    else if lowered == "someone joins" || lowered == "someone signs up" then Some(USER_CREATED)
    else None
  }

  function ReadRun(ts: seq<Token>): Reading {
    var rest := if IsWordAt(ts, "it", 1) then Drop(ts, 2) else Drop(ts, 1);
    if !IsWordAt(rest, "when", 0) then None
    else
      var what := Drop(rest, 1);
      if IsWordAt(what, "someone", 0) && IsWordAt(what, "submits", 1) && IsWordAt(what, "the", 2) then
        if |what| < 4 || !what[3].Quoted? || !IsWordAt(what, "form", 4) then None
        else Some(Parse(Trigger(FORM_CREATED, what[3].value), Drop(what, 5)))
      else
        var phrase := WordsUntil(what, {});
        match EventOf(phrase.value)
        case None => None
        case Some(event) => Some(Parse(Trigger(event, ""), phrase.rest))
  }

  function ReadThen(ts: seq<Token>): Reading {
    match Clause(Drop(ts, 1))
    case None => None
    case Some(c) => Some(Parse(Step(c.value.blockName, c.value.attrs), c.rest))
  }

  function Dispatch(ts: seq<Token>): Reading {
    if IsWordAt(ts, "start", 0) then ReadStart(ts)
    else if IsWordAt(ts, "publish", 0) then ReadPublish(ts)
    else if IsWordAt(ts, "apply", 0) then ReadApply(ts)
    else if IsWordAt(ts, "make", 0) then ReadStyle(ts)
    else if IsWordAt(ts, "give", 0) then ReadGive(ts)
    else if IsWordAt(ts, "inside", 0) then ReadInside(ts)
    else if IsWordAt(ts, "add", 0) then ReadAdd(ts)
    else if IsWordAt(ts, "run", 0) then ReadRun(ts)
    else if IsWordAt(ts, "then", 0) then ReadThen(ts)
    else None
  }

  /** A sentence is accepted only when nothing is left over. */
  function SentenceOf(ts: seq<Token>): Option<Sentence> {
    match Dispatch(ts)
    case None => None
    case Some(r) => if r.rest == [] then Some(r.value) else None
  }

  function StripTerminator(ts: seq<Token>): seq<Token> {
    if ts != [] && ts[|ts| - 1] == Punct(".") then ts[..|ts| - 1] else ts
  }

  function LineTokens(line: string): seq<Token> {
    StripTerminator(TokensOf(Trim(line)))
  }

  function SentenceIn(line: string): Option<Sentence> {
    SentenceOf(LineTokens(line))
  }
}

/** The SQL template engine: "{{ name|filter }}" replaced inside the very string that is being scanned. */
module SqlTemplates {
  import opened Text

  type Context = map<string, string>
  type Filter = string -> string
  type Filters = map<string, Filter>

  // ---------------------------------------------------------------------
  // Filters and expressions
  // ---------------------------------------------------------------------

  function Quote(s: string): string { "\"" + s + "\"" }

  function Backtick(s: string): string { "`" + s + "`" }

  function SingleQuote(s: string): string { "'" + s + "'" }

  function UpperChar(c: char): char {
    if 'a' <= c <= 'z' then c - 32 as char else c
  }

  function Upper(s: string): string {
    seq(|s|, i requires 0 <= i < |s| => UpperChar(s[i]))
  }

  function BuiltIn(): Filters {
    map["quote" := Quote, "backtick" := Backtick, "squote" := SingleQuote, "upper" := Upper, "lower" := Lower]
  }

  /** An unknown filter leaves the value alone. */
  function ApplyFilter(filters: Filters, value: string, name: string): string {
    if name in filters then filters[name](value) else value
  }

  /** What stands between the braces, as a name and a filter, "" for none. */
  function NameAndFilter(expr: string): (string, string) {
    var trimmed := Trim(expr);
    var pipe := FindChar(trimmed, '|', 0);
    if pipe == |trimmed| then (trimmed, "")
    else (TrimRight(trimmed[..pipe]), TrimLeft(trimmed[pipe + 1..]))
  }

  /** A name the context lacks stands for nothing. */
  function ValueOf(filters: Filters, context: Context, expr: string): string {
    var (name, filter) := NameAndFilter(expr);
    var value := if name in context then context[name] else "";
    if filter == "" then value else ApplyFilter(filters, value, filter)
  }

  // ---------------------------------------------------------------------
  // A template read as a value
  // ---------------------------------------------------------------------

  /** Text, or text up to a slot, the slot's expression, and the template after it. */
  datatype Template = Plain(s: string) | Slot(before: string, expr: string, rest: Template)

  lemma AtChars(s: string, pat: string, i: nat)
    requires At(s, pat, i)
    ensures forall j :: 0 <= j < |pat| ==> s[i + j] == pat[j]
  {
    forall j | 0 <= j < |pat|
      ensures s[i + j] == pat[j]
    {
      assert s[i..i + |pat|][j] == s[i + j];
    }
  }

  /** The first "{{" from `i` on, and the first "}}" after it. */
  function NextSlot(s: string, i: nat): (r: Option<(nat, nat)>)
    requires i <= |s|
    ensures r.Some? ==> i <= r.value.0 && r.value.0 + 2 <= r.value.1 <= |s| - 2
    ensures r.Some? ==> At(s, "{{", r.value.0) && At(s, "}}", r.value.1)
  {
    match FindText(s, "{{", i)
    case None => None
    case Some(open) =>
      match FindText(s, "}}", open)
      case None => None
      case Some(close) =>
        AtChars(s, "{{", open);
        AtChars(s, "}}", close);
        assert s[open] == '{' && s[open + 1] == '{' && s[close] == '}';
        Some((open, close))
  }

  function Parse(s: string, i: nat): Template
    requires i <= |s|
    decreases |s| - i
  {
    match NextSlot(s, i)
    case None => Plain(s[i..])
    case Some((open, close)) => Slot(s[i..open], s[open + 2..close], Parse(s, close + 2))
  }

  function Unparse(t: Template): string {
    match t
    case Plain(s) => s
    case Slot(before, expr, rest) => before + ("{{" + (expr + ("}}" + Unparse(rest))))
  }

  /** Every slot replaced by its value, once; values are not looked into. */
  function Fill(filters: Filters, context: Context, t: Template): string {
    match t
    case Plain(s) => s
    case Slot(before, expr, rest) => before + (ValueOf(filters, context, expr) + Fill(filters, context, rest))
  }

  // ---------------------------------------------------------------------
  // The scanned string and the template agree from where the scan is
  // ---------------------------------------------------------------------

  /** Where two texts agree to the end, they agree slice by slice. */
  lemma SliceSame(a: string, ai: nat, b: string, bi: nat, x: nat, y: nat)
    requires ai <= |a| && bi <= |b| && a[ai..] == b[bi..]
    requires x <= y && ai + y <= |a|
    ensures |a| - ai == |b| - bi
    ensures a[ai + x..ai + y] == b[bi + x..bi + y]
    ensures a[ai + x..] == b[bi + x..]
  {
    assert |a| - ai == |a[ai..]| == |b[bi..]| == |b| - bi;
    DropSlice(a, ai, x, y);
    DropSlice(b, bi, x, y);
  }

  lemma DropSlice(s: string, i: nat, x: nat, y: nat)
    requires x <= y && i + y <= |s|
    ensures s[i..][x..y] == s[i + x..i + y] && s[i..][x..] == s[i + x..]
  {
  }

  lemma AtSame(a: string, ai: nat, b: string, bi: nat, pat: string, k: nat)
    requires ai <= |a| && bi <= |b| && a[ai..] == b[bi..]
    ensures At(a, pat, ai + k) <==> At(b, pat, bi + k)
  {
    SliceSame(a, ai, b, bi, 0, 0);
    if ai + k + |pat| <= |a| { SliceSame(a, ai, b, bi, k, k + |pat|); }
  }

  lemma {:induction false} FindSame(a: string, ai: nat, b: string, bi: nat, pat: string, k: nat)
    requires ai + k <= |a| && bi + k <= |b| && a[ai..] == b[bi..]
    ensures
      match FindText(b, pat, bi + k)
      case None => FindText(a, pat, ai + k) == None
      case Some(at) => at >= bi && FindText(a, pat, ai + k) == Some(ai + (at - bi))
    decreases |a| - k
  {
    hide At;
    AtSame(a, ai, b, bi, pat, k);
    assert |a| - ai == |a[ai..]| == |b[bi..]| == |b| - bi;
    if !At(a, pat, ai + k) && ai + k < |a| { FindSame(a, ai, b, bi, pat, k + 1); }
  }

  lemma SlotSame(a: string, ai: nat, b: string, bi: nat)
    requires ai <= |a| && bi <= |b| && a[ai..] == b[bi..]
    ensures
      match NextSlot(b, bi)
      case None => NextSlot(a, ai) == None
      case Some((open, close)) => NextSlot(a, ai) == Some((ai + (open - bi), ai + (close - bi)))
  {
    hide At, FindText;
    FindSame(a, ai, b, bi, "{{", 0);
    match FindText(b, "{{", bi)
    case None =>
    case Some(open) => FindSame(a, ai, b, bi, "}}", open - bi);
  }

  /** Replacing a slot's text by its value moves the text before it and the value to what is done. */
  lemma SlotReplaced(filters: Filters, context: Context, template: string, i: nat, result: string, pos: nat)
    returns (next: nat)
    requires i <= |template| && pos <= |result| && result[pos..] == template[i..]
    requires NextSlot(result, pos).Some?
    ensures next <= |template|
    ensures
      var (open, close) := NextSlot(result, pos).value;
      var value := ValueOf(filters, context, result[open + 2..close]);
      && result[close + 2..] == template[next..]
      && result[..pos] + Fill(filters, context, Parse(template, i)) ==
         (result[..open] + value) + Fill(filters, context, Parse(template, next))
  {
    hide NextSlot, ValueOf, At, FindText;
    SlotSame(template, i, result, pos);
    var (open, close) := NextSlot(result, pos).value;
    var k := i - pos;
    next := close + k + 2;
    SliceSame(result, pos, template, i, 0, open - pos);
    SliceSame(result, pos, template, i, open + 2 - pos, close - pos);
    SliceSame(result, pos, template, i, close + 2 - pos, close + 2 - pos);
    var value, rest := ValueOf(filters, context, result[open + 2..close]), Fill(filters, context, Parse(template, next));
    assert result[..open] == result[..pos] + result[pos..open];
    assert Fill(filters, context, Parse(template, i)) == result[pos..open] + (value + rest);
    Assoc(result[..pos], result[pos..open], value + rest);
    Assoc(result[..open], value, rest);
  }

  lemma NothingLeft(filters: Filters, context: Context, template: string, i: nat, result: string, pos: nat)
    requires i <= |template| && pos <= |result| && result[pos..] == template[i..]
    requires NextSlot(result, pos).None?
    ensures result[..pos] + Fill(filters, context, Parse(template, i)) == result
  {
    hide NextSlot;
    SlotSame(template, i, result, pos);
  }

  // ---------------------------------------------------------------------
  // The engine
  // ---------------------------------------------------------------------

  class SqlTemplateEngine {
    var filters: Filters

    constructor ()
      ensures filters == BuiltIn()
    {
      filters := BuiltIn();
    }

    method RegisterFilter(name: string, filter: Filter)
      modifies this
      ensures filters == old(filters)[name := filter]
    {
      filters := filters[name := filter];
    }

    /** The scanned string may grow with each replacement; what is left to scan always shrinks. */
    method ReplaceVariables(template: string, context: Context) returns (result: string)
      ensures result == Fill(filters, context, Parse(template, 0))
    {
      hide Parse, Fill, FindText, At;
      result := template;
      var pos := 0;
      ghost var i := 0;
      while true
        invariant 0 <= i <= |template| && 0 <= pos <= |result|
        invariant result[pos..] == template[i..]
        invariant result[..pos] + Fill(filters, context, Parse(template, i)) == Fill(filters, context, Parse(template, 0))
        decreases |result| - pos
      {
        var start := FindText(result, "{{", pos);
        if start.None? { break; }
        var end := FindText(result, "}}", start.value);
        if end.None? { break; }
        ghost var next := SlotReplaced(filters, context, template, i, result, pos);
        pos := start.value;
        var varExpr := result[pos + 2..end.value];
        varExpr := TrimRight(TrimLeft(varExpr));
        var varName, filterName := varExpr, "";
        var pipePos := FindChar(varExpr, '|', 0);
        if pipePos != |varExpr| {
          varName := TrimRight(varExpr[..pipePos]);
          filterName := TrimLeft(varExpr[pipePos + 1..]);
        }
        var value := "";
        if varName in context { value := context[varName]; }
        if filterName != "" { value := ApplyFilter(filters, value, filterName); }
        ghost var done, rest := result[..pos] + value, result[end.value + 2..];
        result := result[..pos] + value + result[end.value + 2..];
        pos := pos + |value|;
        i := next;
        assert result[..pos] == done && result[pos..] == rest;
      }
      NothingLeft(filters, context, template, i, result, pos);
    }

    method Render(template: string, context: Context) returns (result: string)
      ensures result == Fill(filters, context, Parse(template, 0))
    {
      result := ReplaceVariables(template, context);
    }
  }

  // ---------------------------------------------------------------------
  // Reading a template and writing it out undo each other
  // ---------------------------------------------------------------------

  lemma {:induction false} UnparseParse(s: string, i: nat)
    requires i <= |s|
    ensures Unparse(Parse(s, i)) == s[i..]
    decreases |s| - i
  {
    hide FindText, At;
    match NextSlot(s, i)
    case None =>
    case Some((open, close)) =>
      UnparseParse(s, close + 2);
      SlotText(s, i, open, close);
  }

  lemma SlotText(s: string, i: nat, open: nat, close: nat)
    requires i <= open && open + 2 <= close <= |s| - 2 && At(s, "{{", open) && At(s, "}}", close)
    ensures s[i..] == s[i..open] + ("{{" + (s[open + 2..close] + ("}}" + s[close + 2..])))
  {
    assert s[i..] == s[i..open] + s[open..];
    assert s[open..] == s[open..open + 2] + s[open + 2..];
    assert s[open + 2..] == s[open + 2..close] + s[close..];
    assert s[close..] == s[close..close + 2] + s[close + 2..];
  }

  /** Written the way it is read: each slot is where the first "{{" and the first "}}" after it are found, and no
      slot is left in the text at the end. */
  predicate Readable(t: Template) {
    match t
    case Plain(s) => NextSlot(s, 0) == None
    case Slot(before, expr, rest) =>
      && FindText(before + "{{", "{{", 0) == Some(|before|)
      && FindText(expr + "}}", "}}", 0) == Some(|expr|)
      && Readable(rest)
  }

  /** `pat` is found right after `a`, wherever `a + pat` stands. */
  lemma FoundAfter(s: string, i: nat, a: string, pat: string)
    requires Reads(s, i, a + pat)
    requires FindText(a + pat, pat, 0) == Some(|a|)
    ensures FindText(s, pat, i) == Some(i + |a|)
  {
    forall k | i <= k < i + |a|
      ensures !At(s, pat, k)
    {
      AtWindow(s, i, a + pat, k - i, pat);
    }
    AtWindow(s, i, a + pat, |a|, pat);
    FoundFirst(s, pat, i, i + |a|);
  }

  lemma AtWindow(s: string, i: nat, window: string, k: nat, pat: string)
    requires Reads(s, i, window) && k + |pat| <= |window|
    ensures At(s, pat, i + k) <==> At(window, pat, k)
  {
    assert s[i + k..i + k + |pat|] == window[k..k + |pat|];
  }

  lemma {:induction false} FoundFirst(s: string, pat: string, from: nat, at: nat)
    requires from <= at <= |s| && At(s, pat, at)
    requires forall k :: from <= k < at ==> !At(s, pat, k)
    ensures FindText(s, pat, from) == Some(at)
    decreases at - from
  {
    if from < at { FoundFirst(s, pat, from + 1, at); }
  }

  /** `pat` first found at `at` is first found there in the text up to it, too. */
  lemma FoundWithin(s: string, from: nat, pat: string, at: nat)
    requires from <= at && At(s, pat, at)
    requires forall k :: from <= k < at ==> !At(s, pat, k)
    ensures FindText(s[from..at] + pat, pat, 0) == Some(at - from)
  {
    var window := s[from..at] + pat;
    forall k | 0 <= k < at - from
      ensures !At(window, pat, k)
    {
      AtWindow(s, from, window, k, pat);
    }
    AtWindow(s, from, window, at - from, pat);
    FoundFirst(window, pat, 0, at - from);
  }

  /** What the engine reads is always written the way it is read. */
  lemma {:induction false} ParseIsReadable(s: string, i: nat)
    requires i <= |s|
    ensures Readable(Parse(s, i))
    decreases |s| - i
  {
    hide At;
    match NextSlot(s, i)
    case None => SlotSame(s, i, s[i..], 0);
    case Some((open, close)) =>
      FoundWithin(s, i, "{{", open);
      FoundWithin(s, open + 2, "}}", close);
      ParseIsReadable(s, close + 2);
  }

  lemma {:induction false} ParseUnparse(s: string, i: nat, t: Template)
    requires Reads(s, i, Unparse(t)) && |s| == i + |Unparse(t)| && Readable(t)
    ensures Parse(s, i) == t
    decreases t
  {
    hide At, FindText, NextSlot, Reads;
    match t
    case Plain(text) =>
      ReadsSlice(s, i, text);
      assert s[i..i + |text|] == s[i..];
      SlotSame(s, i, text, 0);
    case Slot(before, expr, rest) =>
      SlotStands(s, i, before, expr, Unparse(rest));
      ReadsSlice(s, i, before);
      ReadsSlice(s, i + |before| + 2, expr);
      ParseUnparse(s, i + |before| + 2 + |expr| + 2, rest);
  }

  lemma Peel(s: string, i: nat, a: string, rest: string)
    requires Reads(s, i, a + rest)
    ensures Reads(s, i, a) && Reads(s, i + |a|, rest)
  {
    forall j | 0 <= j < |rest|
      ensures rest[j] == s[i + |a| + j]
    {
      assert rest[j] == (a + rest)[|a| + j];
    }
    forall j | 0 <= j < |a|
      ensures a[j] == s[i + j]
    {
      assert a[j] == (a + rest)[j];
    }
  }

  lemma ReadsSlice(s: string, i: nat, a: string)
    requires i + |a| <= |s|
    ensures Reads(s, i, a) <==> s[i..i + |a|] == a
  {
    if s[i..i + |a|] == a {
      forall j | 0 <= j < |a|
        ensures a[j] == s[i + j]
      {
        assert s[i..i + |a|][j] == s[i + j];
      }
    }
  }

  lemma SlotStands(s: string, i: nat, before: string, expr: string, rest: string)
    requires Reads(s, i, before + ("{{" + (expr + ("}}" + rest))))
    requires FindText(before + "{{", "{{", 0) == Some(|before|)
    requires FindText(expr + "}}", "}}", 0) == Some(|expr|)
    ensures
      var open := i + |before|;
      var close := open + 2 + |expr|;
      && NextSlot(s, i) == Some((open, close))
      && Reads(s, i, before) && Reads(s, open + 2, expr) && Reads(s, close + 2, rest)
  {
    hide At, FindText, Reads, NextSlot;
    var open := i + |before|;
    var close := open + 2 + |expr|;
    Peel(s, i, before, "{{" + (expr + ("}}" + rest)));
    Peel(s, open, "{{", expr + ("}}" + rest));
    Peel(s, open + 2, expr, "}}" + rest);
    Peel(s, close, "}}", rest);
    ReadsAppend(s, i, before, "{{");
    ReadsAppend(s, open + 2, expr, "}}");
    SlotFound(s, i, before, expr);
  }

  lemma SlotFound(s: string, i: nat, before: string, expr: string)
    requires Reads(s, i + |before|, "{{")
    requires Reads(s, i, before + "{{") && FindText(before + "{{", "{{", 0) == Some(|before|)
    requires Reads(s, i + |before| + 2, expr + "}}") && FindText(expr + "}}", "}}", 0) == Some(|expr|)
    ensures NextSlot(s, i) == Some((i + |before|, i + |before| + 2 + |expr|))
  {
    hide At, FindText, Reads;
    FoundAfter(s, i, before, "{{");
    FoundAfter(s, i + |before| + 2, expr, "}}");
    NotYetClosed(s, i + |before|);
  }

  /** The search for "}}" starts at the "{{" itself, and passes it. */
  lemma NotYetClosed(s: string, open: nat)
    requires Reads(s, open, "{{")
    ensures FindText(s, "}}", open) == FindText(s, "}}", open + 2)
  {
    assert s[open] == "{{"[0] && s[open + 1] == "{{"[1];
    assert s[open..open + 2][0] == '{';
    assert !At(s, "}}", open + 1) by {
      assert open + 3 <= |s| ==> s[open + 1..open + 3][0] == '{';
    }
    assert FindText(s, "}}", open + 1) == FindText(s, "}}", open + 2);
  }

  /** Templates and their texts correspond one to one: every text is read as one template that writes it. */
  lemma TemplatesAreTheirTexts(s: string, t: Template)
    requires Readable(t)
    ensures Unparse(t) == s <==> t == Parse(s, 0)
    ensures Readable(Parse(s, 0))
  {
    UnparseParse(s, 0);
    ParseIsReadable(s, 0);
    if Unparse(t) == s { ParseUnparse(s, 0, t); }
  }

  // ---------------------------------------------------------------------
  // What an expression stands for, and a template renders to
  // ---------------------------------------------------------------------

  /** Before the first pipe the name, after it the filter, both without the blanks around them. */
  ghost predicate SpellsExpr(expr: string, name: string, filter: string) {
    var pipe := FindChar(expr, '|', 0);
    TrimsTo(expr[..pipe], name) && if pipe == |expr| then filter == "" else TrimsTo(expr[pipe + 1..], filter)
  }

  /** The name's value, nothing if it has none, through the filter if there is one of that name. */
  ghost predicate StandsFor(filters: Filters, context: Context, expr: string, value: string) {
    exists name, filter :: SpellsExpr(expr, name, filter) && Filtered(filters, context, name, filter, value)
  }

  ghost predicate Filtered(filters: Filters, context: Context, name: string, filter: string, value: string) {
    var raw := if name in context then context[name] else "";
    value == if filter != "" && filter in filters then filters[filter](raw) else raw
  }

  lemma {:induction false} TrimLeftStops(a: string, b: string)
    requires b != "" && !IsBlank(b[0])
    ensures TrimLeft(a + b) == TrimLeft(a) + b
    ensures forall c :: c in TrimLeft(a) ==> c in a
  {
    if a == "" {
      assert a + b == b;
    } else if IsBlank(a[0]) {
      assert (a + b)[1..] == a[1..] + b;
      TrimLeftStops(a[1..], b);
    }
  }

  lemma {:induction false} TrimRightStops(a: string, b: string)
    requires a != "" && !IsBlank(a[|a| - 1])
    ensures TrimRight(a + b) == a + TrimRight(b)
    decreases |b|
  {
    if b == "" {
      assert a + b == a;
    } else if IsBlank(b[|b| - 1]) {
      assert (a + b)[..|a + b| - 1] == a + b[..|b| - 1];
      TrimRightStops(a, b[..|b| - 1]);
    }
  }

  /** Trimming both ends of the whole, and then the ends at the pipe, trims both parts. */
  lemma PipedParts(left: string, right: string)
    requires '|' !in left
    ensures NameAndFilter(left + ("|" + right)) == (Trim(left), Trim(right))
  {
    hide TrimLeft, TrimRight;
    var head, tail := TrimLeft(left), TrimRight(right);
    TrimLeftStops(left, "|" + right);
    Assoc(head, "|", right);
    TrimRightStops(head + "|", right);
    var trimmed := head + "|" + tail;
    assert Trim(left + ("|" + right)) == trimmed;
    assert trimmed[0..|head|] == head && trimmed[|head|] == '|' && trimmed[|head| + 1..] == tail;
    FoundAt(trimmed, '|', 0, |head|);
    assert trimmed[..|head|] == head;
    TrimCommutes(right);
  }

  lemma PlainParts(expr: string)
    requires '|' !in expr
    ensures NameAndFilter(expr) == (Trim(expr), "")
  {
    var i := TrimmedInk(expr);
    var trimmed := Trim(expr);
    assert '|' !in trimmed;
    assert trimmed[0..] == trimmed;
    NotFound(trimmed, '|', 0);
  }

  lemma NameAndFilterIff(expr: string, name: string, filter: string)
    ensures NameAndFilter(expr) == (name, filter) <==> SpellsExpr(expr, name, filter)
  {
    var pipe := FindChar(expr, '|', 0);
    var left := expr[..pipe];
    assert '|' !in left;
    TrimIff(left, name);
    if pipe == |expr| {
      assert left == expr;
      PlainParts(expr);
    } else {
      var right := expr[pipe + 1..];
      assert expr == left + ("|" + right);
      TrimIff(right, filter);
      PipedParts(left, right);
    }
  }

  /** An expression's value is the one it stands for. */
  lemma ValueIff(filters: Filters, context: Context, expr: string, value: string)
    ensures ValueOf(filters, context, expr) == value <==> StandsFor(filters, context, expr, value)
  {
    hide NameAndFilter, SpellsExpr;
    var (name, filter) := NameAndFilter(expr);
    NameAndFilterIff(expr, name, filter);
    if StandsFor(filters, context, expr, value) {
      var n, f :| SpellsExpr(expr, n, f) && Filtered(filters, context, n, f, value);
      NameAndFilterIff(expr, n, f);
    }
    assert Filtered(filters, context, name, filter, ValueOf(filters, context, expr));
  }

  /** `s` starts with its first slot: the first "{{" in it, and the first "}}" after that. */
  ghost predicate FirstSlot(s: string, before: string, expr: string, rest: string) {
    && s == before + ("{{" + (expr + ("}}" + rest)))
    && FindText(before + "{{", "{{", 0) == Some(|before|)
    && FindText(expr + "}}", "}}", 0) == Some(|expr|)
  }

  ghost predicate HasSlot(s: string) {
    exists before, expr, rest :: FirstSlot(s, before, expr, rest)
  }

  /** Each slot in turn is replaced by the value it stands for, and the rest of the text, not the value, goes on being
      rendered. */
  ghost predicate RendersTo(filters: Filters, context: Context, s: string, result: string)
    decreases |s|
  {
    if HasSlot(s) then
      exists before, expr, rest, value, more ::
        && FirstSlot(s, before, expr, rest) && StandsFor(filters, context, expr, value)
        && RendersTo(filters, context, rest, more) && result == before + (value + more)
    else result == s
  }

  lemma SlotIsFirst(s: string, before: string, expr: string, rest: string)
    requires FirstSlot(s, before, expr, rest)
    ensures NextSlot(s, 0) == Some((|before|, |before| + 2 + |expr|)) && |before| + |expr| + 4 + |rest| == |s|
    ensures Reads(s, 0, before) && Reads(s, |before| + 2, expr) && Reads(s, |before| + |expr| + 4, rest)
  {
    hide At, FindText, NextSlot;
    SlotStands(s, 0, before, expr, rest);
  }

  lemma NextIsFirst(s: string)
    requires NextSlot(s, 0).Some?
    ensures
      var (open, close) := NextSlot(s, 0).value;
      FirstSlot(s, s[..open], s[open + 2..close], s[close + 2..])
  {
    hide At;
    var (open, close) := NextSlot(s, 0).value;
    SlotText(s, 0, open, close);
    FoundWithin(s, 0, "{{", open);
    FoundWithin(s, open + 2, "}}", close);
    assert s[0..open] == s[..open] && s[0..] == s;
  }

  lemma {:induction false} ParseSame(a: string, ai: nat, b: string, bi: nat)
    requires ai <= |a| && bi <= |b| && a[ai..] == b[bi..]
    ensures Parse(a, ai) == Parse(b, bi)
    decreases |b| - bi
  {
    hide NextSlot;
    SlotSame(a, ai, b, bi);
    if NextSlot(b, bi).Some? {
      var (open, close) := NextSlot(b, bi).value;
      SliceSame(a, ai, b, bi, 0, open - bi);
      SliceSame(a, ai, b, bi, open + 2 - bi, close - bi);
      SliceSame(a, ai, b, bi, close + 2 - bi, close + 2 - bi);
      ParseSame(a, ai + (close - bi) + 2, b, close + 2);
    }
  }

  lemma SlotIsParsed(s: string, before: string, expr: string, rest: string)
    requires FirstSlot(s, before, expr, rest)
    ensures Parse(s, 0) == Slot(before, expr, Parse(rest, 0))
  {
    hide NextSlot, FindText, FirstSlot, Reads;
    SlotIsFirst(s, before, expr, rest);
    var close := |before| + 2 + |expr|;
    ReadsSlice(s, 0, before);
    ReadsSlice(s, |before| + 2, expr);
    ReadsSlice(s, close + 2, rest);
    assert rest[0..] == rest;
    assert s[close + 2..|s|] == s[close + 2..];
    ParseSame(s, close + 2, rest, 0);
  }

  lemma FillsSlot(filters: Filters, context: Context, s: string, before: string, expr: string, rest: string)
    requires FirstSlot(s, before, expr, rest)
    ensures
      Fill(filters, context, Parse(s, 0)) ==
      before + (ValueOf(filters, context, expr) + Fill(filters, context, Parse(rest, 0)))
  {
    hide ValueOf, FirstSlot, Parse;
    SlotIsParsed(s, before, expr, rest);
  }

  lemma {:induction false} FillIsRendered(filters: Filters, context: Context, s: string)
    ensures RendersTo(filters, context, s, Fill(filters, context, Parse(s, 0)))
    decreases |s|
  {
    hide FirstSlot, ValueOf, StandsFor, Fill, Parse, NextSlot;
    if HasSlot(s) {
      var before, expr, rest :| FirstSlot(s, before, expr, rest);
      SlotIsShorter(s, before, expr, rest);
      FillsSlot(filters, context, s, before, expr, rest);
      ValueIff(filters, context, expr, ValueOf(filters, context, expr));
      FillIsRendered(filters, context, rest);
    } else {
      NoSlot(filters, context, s);
    }
  }

  lemma {:induction false} RenderedIsFill(filters: Filters, context: Context, s: string, result: string)
    requires RendersTo(filters, context, s, result)
    ensures result == Fill(filters, context, Parse(s, 0))
    decreases |s|
  {
    hide FirstSlot, ValueOf, StandsFor, Fill, Parse, NextSlot;
    if HasSlot(s) {
      var before, expr, rest, value, more :| FirstSlot(s, before, expr, rest) && StandsFor(filters, context, expr, value) &&
                                             RendersTo(filters, context, rest, more) && result == before + (value + more);
      SlotIsShorter(s, before, expr, rest);
      FillsSlot(filters, context, s, before, expr, rest);
      ValueIff(filters, context, expr, value);
      RenderedIsFill(filters, context, rest, more);
    } else {
      NoSlot(filters, context, s);
    }
  }

  /** What the engine renders a text to is what the text renders to. */
  lemma RenderIff(filters: Filters, context: Context, s: string, result: string)
    ensures Fill(filters, context, Parse(s, 0)) == result <==> RendersTo(filters, context, s, result)
  {
    FillIsRendered(filters, context, s);
    if RendersTo(filters, context, s, result) { RenderedIsFill(filters, context, s, result); }
  }

  lemma SlotIsShorter(s: string, before: string, expr: string, rest: string)
    requires FirstSlot(s, before, expr, rest)
    ensures |rest| < |s|
  {
  }

  lemma NoSlot(filters: Filters, context: Context, s: string)
    requires !HasSlot(s)
    ensures Fill(filters, context, Parse(s, 0)) == s
  {
    hide FirstSlot, FindText;
    if NextSlot(s, 0).Some? { NextIsFirst(s); }
    assert s[0..] == s;
  }

  /** The five filters a new engine has: three kinds of quotes, and the text with no small or no capital letter left
      that reads the same when case is ignored. */
  lemma BuiltInsMean(s: string)
    ensures BuiltIn().Keys == {"quote", "backtick", "squote", "upper", "lower"}
    ensures BuiltIn()["quote"](s) == "\"" + s + "\"" && BuiltIn()["backtick"](s) == "`" + s + "`"
    ensures BuiltIn()["squote"](s) == "'" + s + "'"
    ensures var upper := BuiltIn()["upper"](s); Lower(upper) == Lower(s) && forall c :: c in upper ==> !('a' <= c <= 'z')
    ensures var lower := BuiltIn()["lower"](s); Upper(lower) == Upper(s) && forall c :: c in lower ==> !('A' <= c <= 'Z')
  {
  }
}

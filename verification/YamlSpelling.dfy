/** How things are spelled: exactly which lines are read as which entries, and which texts as which values. */
module YamlSpelling {
  import opened Text
  import opened Yaml

  // ---------------------------------------------------------------------
  // White space around text
  // ---------------------------------------------------------------------

  predicate AllSpace(s: string) {
    forall k :: 0 <= k < |s| ==> IsSpace(s[k])
  }

  predicate Trimmed(s: string) {
    s == "" || (!IsSpace(s[0]) && !IsSpace(s[|s| - 1]))
  }

  /** In `whole` there is `s` at position `i`, and else nothing but white space. */
  ghost predicate StandsAlone(whole: string, i: nat, s: string) {
    && Reads(whole, i, s) && Trimmed(s)
    && (forall k :: 0 <= k < i ==> IsSpace(whole[k]))
    && (forall k :: i + |s| <= k < |whole| ==> IsSpace(whole[k]))
  }

  lemma {:induction false} FirstInkAt(s: string, i: nat, at: nat)
    requires i <= at <= |s| && (forall k :: i <= k < at ==> IsSpace(s[k])) && (at < |s| ==> !IsSpace(s[at]))
    ensures FirstInk(s, i) == at
    decreases at - i
  {
    if i < at { FirstInkAt(s, i + 1, at); }
  }

  lemma {:induction false} LastInkAt(s: string, a: nat, b: nat, at: nat)
    requires a <= at <= b <= |s| && (forall k :: at <= k < b ==> IsSpace(s[k])) && (a < at ==> !IsSpace(s[at - 1]))
    ensures LastInk(s, a, b) == at
    decreases b - at
  {
    if at < b { LastInkAt(s, a, b - 1, at); }
  }

  /** Trimming gives what stands alone among the white space. */
  lemma TrimIff(whole: string, s: string)
    ensures JsTrim(whole) == s <==> exists i: nat :: StandsAlone(whole, i, s)
  {
    if i: nat :| StandsAlone(whole, i, s) { StandingIsTrimmed(whole, i, s); }
    TrimmedStands(whole);
  }

  lemma StandingIsTrimmed(whole: string, i: nat, s: string)
    requires StandsAlone(whole, i, s)
    ensures JsTrim(whole) == s
    ensures s != "" ==> FirstInk(whole, 0) == i
  {
    if s == "" {
      FirstInkAt(whole, 0, |whole|);
    } else {
      FirstInkAt(whole, 0, i);
      LastInkAt(whole, i, |whole|, i + |s|);
      assert whole[i..i + |s|] == s;
    }
  }

  lemma TrimmedStands(whole: string)
    ensures StandsAlone(whole, FirstInk(whole, 0), JsTrim(whole))
  {
    var a := FirstInk(whole, 0);
    var b := LastInk(whole, a, |whole|);
    hide FirstInk, LastInk, IsSpace;
    var s := whole[a..b];
    assert forall k :: 0 <= k < |s| ==> s[k] == whole[a + k];
  }

  // ---------------------------------------------------------------------
  // Lines
  // ---------------------------------------------------------------------

  /** White space that sets the indent, then something else. */
  ghost predicate Indents(line: string, pad: string, rest: string) {
    line == pad + rest && AllSpace(pad) && (rest != "" ==> !IsSpace(rest[0]))
  }

  /** White space, which sets the indent, and a key that holds no colon and opens no comment. */
  ghost predicate SpellsKey(head: string, indent: nat, key: string) {
    StandsAlone(head, indent, key) && ':' !in key && if key == "" then indent == |head| else key[0] != '#'
  }

  /** A key, a colon and a value. */
  ghost predicate SpellsEntry(line: string, head: string, indent: nat, key: string, tail: string, value: string) {
    line == head + ":" + tail && SpellsKey(head, indent, key) && exists i: nat :: StandsAlone(tail, i, value)
  }

  ghost predicate IsLine(line: string, read: Line) {
    match read
    case Ignored => exists pad, rest :: Indents(line, pad, rest) && (rest == "" || rest[0] == '#')
    case Bare(indent) =>
      ':' !in line && exists pad, rest :: Indents(line, pad, rest) && |pad| == indent && rest != "" && rest[0] != '#'
    case Entry(indent, key, value) =>
      exists head, tail :: SpellsEntry(line, head, indent, key, tail, value)
  }

  lemma IndentOf(line: string, pad: string, rest: string)
    requires Indents(line, pad, rest)
    ensures FirstInk(line, 0) == |pad|
    ensures rest == "" <==> JsTrim(line) == ""
    ensures rest != "" ==> JsTrim(line)[0] == rest[0]
  {
    assert forall k :: 0 <= k < |pad| ==> line[k] == pad[k];
    assert rest != "" ==> line[|pad|] == rest[0];
    FirstInkAt(line, 0, |pad|);
    assert JsTrim(line) == line[|pad|..LastInk(line, |pad|, |line|)];
  }

  lemma EveryLineIndents(line: string) returns (pad: string, rest: string)
    ensures Indents(line, pad, rest)
  {
    var a := FirstInk(line, 0);
    pad, rest := line[..a], line[a..];
  }

  lemma ColonAt(head: string, tail: string)
    requires ':' !in head
    ensures
      var line := head + ":" + tail;
      FindChar(line, ':', 0) == |head| < |line| && line[..|head|] == head && line[|head| + 1..] == tail
  {
    var line := head + ":" + tail;
    assert line[0..|head|] == head;
    FoundAt(line, ':', 0, |head|);
  }

  /** Before the key there is nothing but the indent. */
  lemma KeyStartsLine(head: string, indent: nat, key: string, tail: string)
    requires StandsAlone(head, indent, key) && (key == "" ==> indent == |head|)
    ensures
      var line := head + ":" + tail;
      && JsTrim(line) != "" && JsTrim(line)[0] == (if key == "" then ':' else key[0])
      && FirstInk(line, 0) == indent
  {
    hide JsTrim, FirstInk;
    var line := head + ":" + tail;
    assert line[indent] == if key == "" then ':' else key[0];
    assert forall k :: 0 <= k < indent ==> line[k] == head[k];
    assert line == line[..indent] + line[indent..] && line[indent..][0] == line[indent];
    IndentOf(line, line[..indent], line[indent..]);
  }

  lemma NoColonInHead(head: string, i: nat, key: string)
    requires StandsAlone(head, i, key)
    ensures ':' in head <==> ':' in key
  {
    if k :| 0 <= k < |key| && key[k] == ':' { assert head[i + k] == ':'; }
    if k :| 0 <= k < |head| && head[k] == ':' { assert i <= k < i + |key| && key[k - i] == head[i + (k - i)]; }
  }

  lemma EntryIsRead(line: string, head: string, indent: nat, key: string, tail: string, value: string)
    requires SpellsEntry(line, head, indent, key, tail, value)
    ensures ReadLine(line) == Entry(indent, key, value)
  {
    hide JsTrim, FirstInk, FindChar, StandsAlone;
    NoColonInHead(head, indent, key);
    ColonAt(head, tail);
    KeyStartsLine(head, indent, key, tail);
    TrimIff(head, key);
    TrimIff(tail, value);
  }

  lemma ReadEntryIsSpelled(line: string)
    requires ReadLine(line).Entry?
    ensures IsLine(line, ReadLine(line))
  {
    hide JsTrim, FirstInk, StandsAlone;
    var colon := FindChar(line, ':', 0);
    var head, tail := line[..colon], line[colon + 1..];
    assert line == head + ":" + tail;
    var key, value := JsTrim(head), JsTrim(tail);
    var indent := KeyPlace(head);
    TrimIff(tail, value);
    assert ':' !in head;
    NoColonInHead(head, indent, key);
    KeyStartsLine(head, indent, key, tail);
    assert SpellsEntry(line, head, indent, key, tail, value);
  }

  /** Where there is no key the white space all counts as indent. */
  lemma KeyPlace(head: string) returns (indent: nat)
    ensures StandsAlone(head, indent, JsTrim(head)) && (JsTrim(head) == "" ==> indent == |head|)
  {
    TrimmedStands(head);
    indent := if JsTrim(head) == "" then |head| else FirstInk(head, 0);
  }

  /** Every line is read as what it spells, and as nothing else. */
  lemma LineIff(line: string, read: Line)
    ensures ReadLine(line) == read <==> IsLine(line, read)
  {
    var pad, rest := EveryLineIndents(line);
    IndentOf(line, pad, rest);
    match ReadLine(line) {
      case Ignored =>
      case Bare(_) =>
      case Entry(_, _, _) => ReadEntryIsSpelled(line);
    }
    if IsLine(line, read) {
      match read
      case Ignored =>
        var p, r :| Indents(line, p, r) && (r == "" || r[0] == '#');
        IndentOf(line, p, r);
      case Bare(indent) =>
        var p, r :| Indents(line, p, r) && |p| == indent && r != "" && r[0] != '#';
        IndentOf(line, p, r);
      case Entry(indent, key, value) =>
        var head, tail :| SpellsEntry(line, head, indent, key, tail, value);
        EntryIsRead(line, head, indent, key, tail, value);
    }
  }

  // ---------------------------------------------------------------------
  // Values
  // ---------------------------------------------------------------------

  predicate Bracketed(s: string) {
    s != "" && s[0] == '[' && s[|s| - 1] == ']'
  }

  /** Items are what stands between commas without the white space around it; blank ones do not count. */
  ghost predicate SpellsItems(parts: seq<string>, items: seq<string>)
    decreases |parts|
  {
    if parts == [] then items == []
    else if AllSpace(parts[0]) then SpellsItems(parts[1..], items)
    else
      && items != [] && (exists i: nat :: StandsAlone(parts[0], i, items[0]))
      && SpellsItems(parts[1..], items[1..])
  }

  ghost predicate SpellsList(s: string, parts: seq<string>, items: seq<string>) {
    && parts != [] && (forall p :: p in parts ==> ',' !in p)
    && s == "[" + Join(parts, ',') + "]" && SpellsItems(parts, items)
  }

  /** At most one quote at each end, of either kind; where there is none, none is left to take off. */
  ghost predicate SpellsText(s: string, open: string, text: string, close: string) {
    && s == open + (text + close)
    && open in {"", "\"", "'"} && close in {"", "\"", "'"}
    && (open == "" && s != "" ==> !IsQuote(s[0]))
    && (close == "" && text != "" ==> !IsQuote(text[|text| - 1]))
  }

  ghost predicate Spells(numeric: Numeric, s: string, value: Yaml) {
    && s != ""
    && match value
       case Obj(_) => false
       case List(items) => exists parts :: SpellsList(s, parts, items)
       case Bool(b) => s == if b then "true" else "false"
       case Number(text) => s == text && numeric(s) && !Bracketed(s) && s != "true" && s != "false"
       case Text(text) =>
         && !numeric(s) && !Bracketed(s) && s != "true" && s != "false"
         && exists open, close :: SpellsText(s, open, text, close)
  }

  lemma BlankIff(part: string)
    ensures JsTrim(part) == "" <==> AllSpace(part)
  {
    TrimIff(part, "");
    if AllSpace(part) { assert StandsAlone(part, 0, ""); }
  }

  lemma {:induction false} ItemsIff(parts: seq<string>, items: seq<string>)
    ensures NonEmpty(parts) == items <==> SpellsItems(parts, items)
    decreases |parts|
  {
    hide JsTrim, StandsAlone;
    if parts != [] {
      BlankIff(parts[0]);
      if AllSpace(parts[0]) {
        ItemsIff(parts[1..], items);
      } else if items != [] {
        TrimIff(parts[0], items[0]);
        ItemsIff(parts[1..], items[1..]);
        assert items == [items[0]] + items[1..];
      }
    }
  }

  lemma ListIff(s: string, items: seq<string>)
    requires Bracketed(s)
    ensures NonEmpty(Split(s[1..|s| - 1], ',')) == items <==> exists parts :: SpellsList(s, parts, items)
  {
    hide NonEmpty, SpellsItems;
    var inner := s[1..|s| - 1];
    if parts :| SpellsList(s, parts, items) {
      assert inner == Join(parts, ',');
      SplitJoin(parts, ',');
      ItemsIff(parts, items);
    }
    var split := Split(inner, ',');
    JoinSplit(inner, ',');
    SplitParts(inner, ',');
    ItemsIff(split, items);
    assert s == "[" + inner + "]";
    if NonEmpty(split) == items { assert SpellsList(s, split, items); }
  }

  lemma TextIsRead(s: string, open: string, text: string, close: string)
    requires SpellsText(s, open, text, close)
    ensures Unquote(s) == text
  {
    var front := text + close;
    assert s[|open|..] == front;
    assert front[..|text|] == text;
    assert (if s != "" && IsQuote(s[0]) then s[1..] else s) == front;
    assert close != "" ==> front[|front| - 1] == close[0];
    assert close == "" ==> front == text;
  }

  lemma OpenQuote(s: string) returns (open: string, front: string)
    ensures s == open + front && open in {"", "\"", "'"} && (open == "" && s != "" ==> !IsQuote(s[0]))
    ensures front == if s != "" && IsQuote(s[0]) then s[1..] else s
  {
    open, front := "", s;
    if s != "" && IsQuote(s[0]) {
      open, front := if s[0] == '"' then "\"" else "'", s[1..];
    }
  }

  lemma CloseQuote(front: string) returns (text: string, close: string)
    ensures front == text + close && close in {"", "\"", "'"} && (close == "" && text != "" ==> !IsQuote(text[|text| - 1]))
    ensures text == if front != "" && IsQuote(front[|front| - 1]) then front[..|front| - 1] else front
  {
    text, close := front, "";
    if front != "" && IsQuote(front[|front| - 1]) {
      text, close := front[..|front| - 1], if front[|front| - 1] == '"' then "\"" else "'";
    }
  }

  lemma EveryTextIsSpelled(s: string)
    ensures exists open, close :: SpellsText(s, open, Unquote(s), close)
  {
    var open, front := OpenQuote(s);
    var text, close := CloseQuote(front);
    assert text == Unquote(s);
    assert SpellsText(s, open, text, close);
  }

  lemma TextIff(s: string, text: string)
    ensures Unquote(s) == text <==> exists open, close :: SpellsText(s, open, text, close)
  {
    EveryTextIsSpelled(s);
    if open, close :| SpellsText(s, open, text, close) { TextIsRead(s, open, text, close); }
  }

  /** Every value text is read as the value it spells, and as no other. */
  lemma ValueIff(numeric: Numeric, s: string, value: Yaml)
    requires s != ""
    ensures ReadValue(numeric, s) == value <==> Spells(numeric, s, value)
  {
    hide NonEmpty, Unquote, Split, SpellsList, SpellsText;
    match value
    case List(items) =>
      if Bracketed(s) {
        ListIff(s, items);
      } else if parts :| SpellsList(s, parts, items) {
        ListIsBracketed(s, parts, items);
      }
    case Text(text) => TextIff(s, text);
    case _ =>
  }

  lemma ListIsBracketed(s: string, parts: seq<string>, items: seq<string>)
    requires SpellsList(s, parts, items)
    ensures Bracketed(s)
  {
  }

  /** Text that is no list, boolean or number spells itself when no quote stands at either end, and any text does so
      between two quotes, single or double. */
  lemma TextSpellsItself(numeric: Numeric, s: string)
    ensures
      s != "" && !Bracketed(s) && s != "true" && s != "false" && !numeric(s) && !IsQuote(s[0]) && !IsQuote(s[|s| - 1]) ==>
        ReadValue(numeric, s) == Text(s)
    ensures !numeric("'" + s + "'") ==> ReadValue(numeric, "'" + s + "'") == Text(s)
    ensures !numeric("\"" + s + "\"") ==> ReadValue(numeric, "\"" + s + "\"") == Text(s)
  {
    if s != "" && !IsQuote(s[0]) && !IsQuote(s[|s| - 1]) {
      assert SpellsText(s, "", s, "") by { assert s == "" + (s + ""); }
      ValueIff(numeric, s, Text(s));
    }
    QuotedSpells(numeric, "'", s);
    QuotedSpells(numeric, "\"", s);
  }

  lemma QuotedSpells(numeric: Numeric, quote: string, s: string)
    requires quote in {"'", "\""}
    ensures !numeric(quote + s + quote) ==> Spells(numeric, quote + s + quote, Text(s))
    ensures !numeric(quote + s + quote) ==> ReadValue(numeric, quote + s + quote) == Text(s)
  {
    var q := quote + s + quote;
    assert IsQuote(q[0]);
    Assoc(quote, s, quote);
    assert SpellsText(q, quote, s, quote);
    ValueIff(numeric, q, Text(s));
  }
}

/** Layout and meaning: every text is a tree of indented lines, and parsing it gives the map that tree stands for. */
module YamlRoundTrip {
  import opened Text
  import opened Yaml
  import opened YamlSpelling

  // ---------------------------------------------------------------------
  // Documents: the lines of one map, with those of the maps inside it
  // ---------------------------------------------------------------------

  /** A line that is ignored; one without a colon; an entry with its value; or an entry that opens a map. */
  datatype Doc =
    | End
    | Blank(line: string, rest: Doc)
    | Stray(line: string, indent: nat, rest: Doc)
    | Field(line: string, indent: nat, key: string, written: string, value: Yaml, rest: Doc)
    | Section(line: string, indent: nat, key: string, inner: Doc, rest: Doc)

  /** The map a document stands for; of two entries with one key the later counts. */
  function Meaning(doc: Doc, fields: Fields): Fields
    decreases doc
  {
    match doc
    case End => fields
    case Blank(_, rest) => Meaning(rest, fields)
    case Stray(_, _, rest) => Meaning(rest, fields)
    case Field(_, _, key, _, value, rest) => Meaning(rest, fields[key := value])
    case Section(_, _, key, inner, rest) => Meaning(rest, fields[key := Obj(Meaning(inner, map[]))])
  }

  function Print(doc: Doc): seq<string>
    decreases doc
  {
    match doc
    case End => []
    case Blank(line, rest) => [line] + Print(rest)
    case Stray(line, _, rest) => [line] + Print(rest)
    case Field(line, _, _, _, _, rest) => [line] + Print(rest)
    case Section(line, _, _, inner, rest) => [line] + (Print(inner) + Print(rest))
  }

  /** Deeper than the line that opened the map, and no deeper than the section just before, if there is one. */
  predicate Fits(indent: nat, parent: int, limit: Option<nat>) {
    parent < indent && (limit.Some? ==> indent <= limit.value)
  }

  ghost predicate Laid(line: string, read: Line) {
    '\n' !in line && IsLine(line, read)
  }

  /** Every line spells its part of the document, and stands where it belongs. Only right after a section is there a
      limit: a line that goes deeper there would be part of the section. */
  ghost predicate WellLaid(numeric: Numeric, doc: Doc, parent: int, limit: Option<nat>)
    decreases doc
  {
    match doc
    case End => true
    case Blank(line, rest) => Laid(line, Ignored) && WellLaid(numeric, rest, parent, limit)
    case Stray(line, indent, rest) =>
      Laid(line, Bare(indent)) && Fits(indent, parent, limit) && WellLaid(numeric, rest, parent, None)
    case Field(line, indent, key, written, value, rest) =>
      && Laid(line, Entry(indent, key, written)) && Spells(numeric, written, value)
      && Fits(indent, parent, limit) && WellLaid(numeric, rest, parent, None)
    case Section(line, indent, key, inner, rest) =>
      && Laid(line, Entry(indent, key, "")) && Fits(indent, parent, limit)
      && WellLaid(numeric, inner, indent, None) && WellLaid(numeric, rest, parent, Some(indent))
  }

  // ---------------------------------------------------------------------
  // The stack over a document
  // ---------------------------------------------------------------------

  /** The map being filled, once what was opened inside it is closed. */
  function Filled(below: Stack, fields: Fields): Stack {
    var n := |below| - 1;
    below[n := below[n].(fields := fields)]
  }

  /** For any line that fits, the stack closes down to the map on top of `below`, which then holds `fields`. */
  ghost predicate Settles(z: Stack, limit: Option<nat>, below: Stack, fields: Fields) {
    var parent := below[|below| - 1].indent;
    && (limit.Some? ==> parent < limit.value)
    && (|below| == 1 ==> parent == -1)
    && forall indent: nat :: Fits(indent, parent, limit) ==> PopTo(z, indent) == Filled(below, fields)
  }

  lemma {:induction false} PopToTwice(z: Stack, deep: nat, indent: nat)
    requires indent <= deep
    ensures PopTo(PopTo(z, deep), indent) == PopTo(z, indent)
    decreases |z|
  {
    if |z| > 1 && deep <= z[|z| - 1].indent { PopToTwice(Pop(z), deep, indent); }
  }

  lemma {:induction false} RunConcat(numeric: Numeric, z: Stack, a: seq<string>, b: seq<string>)
    ensures Run(numeric, z, a + b) == Run(numeric, Run(numeric, z, a), b)
    decreases |a|
  {
    hide Step;
    if a == [] {
      assert a + b == b;
    } else {
      assert (a + b)[0] == a[0] && (a + b)[1..] == a[1..] + b;
      RunConcat(numeric, Step(numeric, z, a[0]), a[1..], b);
    }
  }

  lemma RunOne(numeric: Numeric, z: Stack, line: string, rest: seq<string>)
    ensures Run(numeric, z, [line] + rest) == Run(numeric, Step(numeric, z, line), rest)
  {
    hide Step;
    assert ([line] + rest)[1..] == rest;
  }

  lemma FilledSettles(below: Stack, fields: Fields)
    requires |below| == 1 ==> below[|below| - 1].indent == -1
    ensures Settles(Filled(below, fields), None, below, fields)
  {
  }

  lemma StraySettles(z: Stack, limit: Option<nat>, below: Stack, fields: Fields, indent: nat)
    requires Settles(z, limit, below, fields) && Fits(indent, below[|below| - 1].indent, limit)
    ensures Settles(PopTo(z, indent), None, below, fields)
  {
    FilledSettles(below, fields);
  }

  lemma FieldSettles(z: Stack, limit: Option<nat>, below: Stack, fields: Fields, indent: nat, key: string, value: Yaml)
    requires Settles(z, limit, below, fields) && Fits(indent, below[|below| - 1].indent, limit)
    ensures Settles(SetTop(PopTo(z, indent), key, value), None, below, fields[key := value])
  {
    FilledSettles(below, fields[key := value]);
    assert SetTop(Filled(below, fields), key, value) == Filled(below, fields[key := value]);
  }

  function Opened(below: Stack, fields: Fields, indent: nat, key: string): Stack {
    Filled(below, fields) + [Frame(key, map[], indent)]
  }

  lemma SectionOpens(below: Stack, fields: Fields, indent: nat, key: string)
    ensures Settles(Opened(below, fields, indent, key), None, Opened(below, fields, indent, key), map[])
  {
    var open := Opened(below, fields, indent, key);
    assert Filled(open, map[]) == open;
    FilledSettles(open, map[]);
  }

  lemma SectionCloses(z: Stack, inside: Option<nat>, below: Stack, fields: Fields, indent: nat, key: string, inner: Fields)
    requires Settles(z, inside, Opened(below, fields, indent, key), inner)
    requires below[|below| - 1].indent < indent && (|below| == 1 ==> below[|below| - 1].indent == -1)
    ensures Settles(z, Some(indent), below, fields[key := Obj(inner)])
  {
    var parent := below[|below| - 1].indent;
    var open, base := Opened(below, fields, indent, key), Filled(below, fields);
    var full := Filled(open, inner);
    assert Fits(indent + 1, indent, inside);
    assert PopTo(z, indent + 1) == full;
    assert full == base + [Frame(key, inner, indent)];
    assert full[..|base|] == base;
    assert Pop(full) == Filled(below, fields[key := Obj(inner)]);
    forall j: nat | Fits(j, parent, Some(indent))
      ensures PopTo(z, j) == Filled(below, fields[key := Obj(inner)])
    {
      PopToTwice(z, indent + 1, j);
    }
  }

  lemma StepReads(numeric: Numeric, z: Stack, line: string, read: Line)
    requires Laid(line, read)
    ensures
      && (read.Ignored? ==> Step(numeric, z, line) == z)
      && (read.Bare? ==> Step(numeric, z, line) == PopTo(z, read.indent))
      && (read.Entry? ==>
            Step(numeric, z, line) ==
            if read.value == "" then PopTo(z, read.indent) + [Frame(read.key, map[], read.indent)]
            else SetTop(PopTo(z, read.indent), read.key, ReadValue(numeric, read.value)))
  {
    hide ReadLine, IsLine, PopTo, SetTop, ReadValue;
    LineIff(line, read);
  }

  /** Running a document leaves everything below as it was, and its entries in the map on top. */
  lemma {:induction false} DocSettles(numeric: Numeric, z: Stack, doc: Doc, limit: Option<nat>, below: Stack, fields: Fields)
    returns (after: Option<nat>)
    requires Settles(z, limit, below, fields) && WellLaid(numeric, doc, below[|below| - 1].indent, limit)
    ensures Settles(Run(numeric, z, Print(doc)), after, below, Meaning(doc, fields))
    decreases doc
  {
    hide Settles, Step, PopTo, Laid, Spells, SetTop, Filled, Run;
    match doc
    case End =>
      after := limit;
      RunNone(numeric, z);
    case Blank(line, rest) =>
      StepReads(numeric, z, line, Ignored);
      RunOne(numeric, z, line, Print(rest));
      after := DocSettles(numeric, z, rest, limit, below, fields);
    case Stray(line, indent, rest) =>
      StepReads(numeric, z, line, Bare(indent));
      RunOne(numeric, z, line, Print(rest));
      StraySettles(z, limit, below, fields, indent);
      after := DocSettles(numeric, PopTo(z, indent), rest, None, below, fields);
    case Field(line, indent, key, written, value, rest) =>
      SpelledIsRead(numeric, written, value);
      StepReads(numeric, z, line, Entry(indent, key, written));
      RunOne(numeric, z, line, Print(rest));
      FieldSettles(z, limit, below, fields, indent, key, value);
      after := DocSettles(numeric, SetTop(PopTo(z, indent), key, value), rest, None, below, fields[key := value]);
    case Section(line, indent, key, inner, rest) =>
      var open := Opened(below, fields, indent, key);
      SettledAt(z, limit, below, fields, indent);
      StepReads(numeric, z, line, Entry(indent, key, ""));
      SectionOpens(below, fields, indent, key);
      var inside := DocSettles(numeric, open, inner, None, open, map[]);
      var next := Run(numeric, open, Print(inner));
      SectionCloses(next, inside, below, fields, indent, key, Meaning(inner, map[]));
      after := DocSettles(numeric, next, rest, Some(indent), below, fields[key := Obj(Meaning(inner, map[]))]);
      RunOne(numeric, z, line, Print(inner) + Print(rest));
      RunConcat(numeric, open, Print(inner), Print(rest));
  }

  lemma SpelledIsRead(numeric: Numeric, written: string, value: Yaml)
    requires Spells(numeric, written, value)
    ensures written != "" && ReadValue(numeric, written) == value
  {
    ValueIff(numeric, written, value);
  }

  lemma SettledAt(z: Stack, limit: Option<nat>, below: Stack, fields: Fields, indent: nat)
    requires Settles(z, limit, below, fields) && Fits(indent, below[|below| - 1].indent, limit)
    ensures PopTo(z, indent) == Filled(below, fields)
    ensures |below| == 1 ==> below[|below| - 1].indent == -1
  {
  }

  lemma {:induction false} PopToKeepsTree(z: Stack, indent: nat)
    ensures Closed(PopTo(z, indent), 0) == Closed(z, 0)
    decreases |z|
  {
    if |z| > 1 && indent <= z[|z| - 1].indent {
      PopKeepsTree(z, 0);
      PopToKeepsTree(Pop(z), indent);
    }
  }

  /** Reading the lines of a document gives the map it stands for. */
  lemma LinesReadBack(numeric: Numeric, doc: Doc)
    requires WellLaid(numeric, doc, -1, None)
    ensures Closed(Run(numeric, START, Print(doc)), 0) == Meaning(doc, map[])
  {
    assert Filled(START, map[]) == START;
    FilledSettles(START, map[]);
    var after := DocSettles(numeric, START, doc, None, START, map[]);
    var z := Run(numeric, START, Print(doc));
    assert Fits(0, -1, after);
    PopToKeepsTree(z, 0);
    assert PopTo(z, 0) == [Frame("", Meaning(doc, map[]), -1)];
  }

  lemma {:induction false} PrintedLinesAreLines(numeric: Numeric, doc: Doc, parent: int, limit: Option<nat>)
    requires WellLaid(numeric, doc, parent, limit)
    ensures forall line :: line in Print(doc) ==> '\n' !in line
    decreases doc
  {
    hide IsLine, Spells;
    match doc
    case End =>
    case Blank(_, rest) => PrintedLinesAreLines(numeric, rest, parent, limit);
    case Stray(_, _, rest) => PrintedLinesAreLines(numeric, rest, parent, None);
    case Field(_, _, _, _, _, rest) => PrintedLinesAreLines(numeric, rest, parent, None);
    case Section(_, indent, _, inner, rest) =>
      PrintedLinesAreLines(numeric, inner, indent, None);
      PrintedLinesAreLines(numeric, rest, parent, Some(indent));
  }

  // ---------------------------------------------------------------------
  // The theorems
  // ---------------------------------------------------------------------

  /** Lines joined by newlines are read as those lines; no lines at all are read as one blank one. */
  lemma JoinedLinesParse(numeric: Numeric, lines: seq<string>)
    requires forall line :: line in lines ==> '\n' !in line
    ensures Parse(numeric, Join(lines, '\n')) == Closed(Run(numeric, START, lines), 0)
  {
    hide Step;
    if lines == [] {
      assert FindChar("", '\n', 0) == 0;
      assert Split("", '\n') == [""];
      StepIgnored(numeric, START, "");
      RunOne(numeric, START, "", []);
      assert [""] + [] == [""];
    } else {
      SplitJoin(lines, '\n');
    }
  }

  lemma StepIgnored(numeric: Numeric, z: Stack, line: string)
    requires ReadLine(line).Ignored?
    ensures Step(numeric, z, line) == z
  {
  }

  /** Reading the text of a document, however it is spelled and laid out, gives the tree of maps it stands for. */
  lemma PrintThenParse(numeric: Numeric, doc: Doc)
    requires WellLaid(numeric, doc, -1, None)
    ensures Parse(numeric, Join(Print(doc), '\n')) == Meaning(doc, map[])
  {
    PrintedLinesAreLines(numeric, doc, -1, None);
    JoinedLinesParse(numeric, Print(doc));
    LinesReadBack(numeric, doc);
  }


  // ---------------------------------------------------------------------
  // Every text has such a layout
  // ---------------------------------------------------------------------

  /** Line `i` is an entry or stray line no deeper than `indent`, or there is none. */
  ghost predicate NoDeeper(lines: seq<string>, i: nat, indent: int) {
    i >= |lines| || (!ReadLine(lines[i]).Ignored? && ReadLine(lines[i]).indent <= indent)
  }

  lemma ReadIsLaid(line: string)
    requires '\n' !in line
    ensures Laid(line, ReadLine(line))
  {
    LineIff(line, ReadLine(line));
  }

  lemma ReadIsSpelled(numeric: Numeric, s: string)
    requires s != ""
    ensures Spells(numeric, s, ReadValue(numeric, s))
  {
    ValueIff(numeric, s, ReadValue(numeric, s));
  }

  /** The document is lines `i` to `j`. */
  ghost predicate Covers(doc: Doc, lines: seq<string>, i: nat, j: nat) {
    i <= j <= |lines| && Print(doc) == lines[i..j]
  }

  lemma CoversNone(lines: seq<string>, i: nat)
    requires i <= |lines|
    ensures Covers(End, lines, i, i)
  {
  }

  lemma CoversMore(doc: Doc, rest: Doc, lines: seq<string>, i: nat, j: nat)
    requires i < |lines| && Covers(rest, lines, i + 1, j) && Print(doc) == [lines[i]] + Print(rest)
    ensures Covers(doc, lines, i, j)
  {
    assert lines[i..j] == [lines[i]] + lines[i + 1..j];
  }

  lemma CoversSection(doc: Doc, inner: Doc, rest: Doc, lines: seq<string>, i: nat, k: nat, j: nat)
    requires i < |lines| && Covers(inner, lines, i + 1, k) && Covers(rest, lines, k, j)
    requires Print(doc) == [lines[i]] + (Print(inner) + Print(rest))
    ensures Covers(doc, lines, i, j)
  {
    assert lines[i..j] == [lines[i]] + (lines[i + 1..k] + lines[k..j]);
  }

  /** The lines from `i` on that belong to one map, laid out. */
  lemma {:induction false} LayOut(numeric: Numeric, lines: seq<string>, i: nat, parent: int, limit: Option<nat>)
    returns (doc: Doc, j: nat)
    requires i <= |lines| && forall line :: line in lines ==> '\n' !in line
    requires limit.Some? ==> NoDeeper(lines, i, limit.value)
    ensures i <= j <= |lines| && NoDeeper(lines, j, parent)
    ensures WellLaid(numeric, doc, parent, limit) && Covers(doc, lines, i, j)
    decreases |lines| - i
  {
    hide ReadLine, ReadValue, Spells, Laid, Covers;
    doc, j := End, i;
    CoversNone(lines, i);
    if i < |lines| {
      var line := lines[i];
      ReadIsLaid(line);
      match ReadLine(line)
      case Ignored =>
        var rest;
        rest, j := LayOut(numeric, lines, i + 1, parent, None);
        doc := Blank(line, rest);
        CoversMore(doc, rest, lines, i, j);
      case Bare(indent) =>
        if parent < indent {
          var rest;
          rest, j := LayOut(numeric, lines, i + 1, parent, None);
          doc := Stray(line, indent, rest);
          CoversMore(doc, rest, lines, i, j);
        }
      case Entry(indent, key, written) =>
        if parent < indent {
          if written != "" {
            var rest;
            ReadIsSpelled(numeric, written);
            rest, j := LayOut(numeric, lines, i + 1, parent, None);
            doc := Field(line, indent, key, written, ReadValue(numeric, written), rest);
            CoversMore(doc, rest, lines, i, j);
          } else {
            var inner, k := LayOut(numeric, lines, i + 1, indent, None);
            var rest;
            rest, j := LayOut(numeric, lines, k, parent, Some(indent));
            doc := Section(line, indent, key, inner, rest);
            CoversSection(doc, inner, rest, lines, i, k, j);
          }
        }
    }
  }

  lemma NothingLeft(lines: seq<string>, doc: Doc, j: nat)
    requires NoDeeper(lines, j, -1) && Covers(doc, lines, 0, j)
    ensures Print(doc) == lines
  {
    assert lines[0..|lines|] == lines;
  }

  /** Any text at all is the text of a document, and is read as what that document stands for. */
  lemma EveryTextIsLaidOut(numeric: Numeric, content: string) returns (doc: Doc)
    ensures WellLaid(numeric, doc, -1, None)
    ensures Join(Print(doc), '\n') == content
    ensures Parse(numeric, content) == Meaning(doc, map[])
  {
    hide *;
    var lines := Split(content, '\n');
    JoinSplit(content, '\n');
    SplitParts(content, '\n');
    var j;
    doc, j := LayOut(numeric, lines, 0, -1, None);
    NothingLeft(lines, doc, j);
    PrintThenParse(numeric, doc);
  }

  // ---------------------------------------------------------------------
  // Every tree of values that can be written has such a document
  // ---------------------------------------------------------------------

  predicate PlainKey(key: string) {
    Trimmed(key) && ':' !in key && '\n' !in key && (key != "" ==> key[0] != '#')
  }

  ghost predicate Writes(numeric: Numeric, written: string, value: Yaml) {
    Trimmed(written) && '\n' !in written && Spells(numeric, written, value)
  }

  ghost predicate Writable(numeric: Numeric, tree: Yaml) {
    match tree
    case Obj(fields) => forall k :: k in fields ==> PlainKey(k) && Writable(numeric, fields[k])
    case _ => exists written :: Writes(numeric, written, tree)
  }

  predicate PlainItem(item: string) {
    item != "" && Trimmed(item) && ',' !in item && '\n' !in item
  }

  lemma {:induction false} PlainItemsSpell(items: seq<string>)
    requires forall i :: 0 <= i < |items| ==> PlainItem(items[i])
    ensures SpellsItems(items, items)
  {
    if items != [] {
      assert !IsSpace(items[0][0]);
      assert StandsAlone(items[0], 0, items[0]);
      PlainItemsSpell(items[1..]);
    }
  }

  lemma {:induction false} JoinedIsLine(parts: seq<string>)
    requires forall i :: 0 <= i < |parts| ==> '\n' !in parts[i]
    ensures '\n' !in Join(parts, ',')
    decreases |parts|
  {
    if |parts| > 1 { JoinedIsLine(parts[1..]); }
  }

  lemma PlainListWrites(numeric: Numeric, items: seq<string>)
    requires forall i :: 0 <= i < |items| ==> PlainItem(items[i])
    ensures Writable(numeric, List(items))
  {
    hide Join, SpellsItems;
    var parts := if items == [] then [""] else items;
    if items == [] { BlankItemSpells(); } else { PlainItemsSpell(items); }
    JoinedIsLine(parts);
    var written := "[" + Join(parts, ',') + "]";
    assert SpellsList(written, parts, items);
    assert Writes(numeric, written, List(items));
  }

  lemma BlankItemSpells()
    ensures SpellsItems([""], [])
  {
    assert [""][1..] == [];
  }

  /** What can be written: booleans, numbers as they stand, lists of plain items, and texts of one line if nothing that
      begins with a quote is a number. */
  lemma PlainValuesAreWritable(numeric: Numeric, value: Yaml)
    requires
      match value
      case Obj(_) => false
      case List(items) => forall i :: 0 <= i < |items| ==> PlainItem(items[i])
      case Bool(_) => true
      case Number(text) =>
        && text != "" && Trimmed(text) && '\n' !in text && numeric(text)
        && text != "true" && text != "false" && !Bracketed(text)
      case Text(text) => '\n' !in text && !numeric("\"" + text + "\"")
    ensures Writable(numeric, value)
  {
    match value
    case List(items) => PlainListWrites(numeric, items);
    case Bool(b) => assert Writes(numeric, if b then "true" else "false", value);
    case Number(text) => assert Writes(numeric, text, value);
    case Text(text) =>
      QuotedSpells(numeric, "\"", text);
      assert Writes(numeric, "\"" + text + "\"", value);
  }

  function Spaces(n: nat): (r: string)
    ensures |r| == n && forall i :: 0 <= i < n ==> r[i] == ' '
  {
    seq(n, i => ' ')
  }

  function FieldLine(indent: nat, key: string, written: string): string {
    Spaces(indent) + key + ":" + (" " + written)
  }

  function SectionLine(indent: nat, key: string): string {
    Spaces(indent) + key + ":" + ""
  }

  lemma LineOf(indent: nat, key: string, tail: string, value: string)
    requires PlainKey(key) && Trimmed(value) && '\n' !in tail
    requires exists i: nat :: StandsAlone(tail, i, value)
    ensures Laid(Spaces(indent) + key + ":" + tail, Entry(indent, key, value))
  {
    var head := Spaces(indent) + key;
    assert StandsAlone(head, indent, key);
    assert SpellsEntry(head + ":" + tail, head, indent, key, tail, value);
  }

  lemma FieldLineIsLaid(indent: nat, key: string, written: string)
    requires PlainKey(key) && Trimmed(written) && '\n' !in written
    ensures Laid(FieldLine(indent, key, written), Entry(indent, key, written))
  {
    assert StandsAlone(" " + written, 1, written);
    LineOf(indent, key, " " + written, written);
  }

  lemma SectionLineIsLaid(indent: nat, key: string)
    requires PlainKey(key)
    ensures Laid(SectionLine(indent, key), Entry(indent, key, ""))
  {
    assert StandsAlone("", 0, "");
    LineOf(indent, key, "", "");
  }

  lemma {:induction false} MeaningMerges(doc: Doc, fields: Fields)
    ensures Meaning(doc, fields) == fields + Meaning(doc, map[])
    decreases doc
  {
    match doc
    case End =>
    case Blank(_, rest) => MeaningMerges(rest, fields);
    case Stray(_, _, rest) => MeaningMerges(rest, fields);
    case Field(_, _, key, _, value, rest) =>
      MeaningMerges(rest, fields[key := value]);
      MeaningMerges(rest, map[key := value]);
    case Section(_, _, key, inner, rest) =>
      var value := Obj(Meaning(inner, map[]));
      MeaningMerges(rest, fields[key := value]);
      MeaningMerges(rest, map[key := value]);
  }

  function Part(fields: Fields, keys: set<string>): Fields {
    map k | k in keys && k in fields :: fields[k]
  }

  lemma {:induction false} LimitLifts(numeric: Numeric, doc: Doc, parent: int, limit: Option<nat>)
    requires WellLaid(numeric, doc, parent, limit)
    ensures WellLaid(numeric, doc, parent, None)
    decreases doc
  {
    if doc.Blank? { LimitLifts(numeric, doc.rest, parent, limit); }
  }

  lemma {:induction false} DocumentOf(numeric: Numeric, tree: Yaml, indent: nat, parent: int) returns (doc: Doc)
    requires tree.Obj? && Writable(numeric, tree) && parent < indent
    ensures WellLaid(numeric, doc, parent, None) && Meaning(doc, map[]) == tree.fields
    decreases tree, |tree.fields|
  {
    doc := DocumentOfPart(numeric, tree, tree.fields.Keys, indent, parent);
    LimitLifts(numeric, doc, parent, Some(indent));
    assert Part(tree.fields, tree.fields.Keys) == tree.fields;
  }

  lemma {:induction false} DocumentOfPart(numeric: Numeric, tree: Yaml, keys: set<string>, indent: nat, parent: int)
    returns (doc: Doc)
    requires tree.Obj? && Writable(numeric, tree) && keys <= tree.fields.Keys && parent < indent
    ensures WellLaid(numeric, doc, parent, Some(indent)) && Meaning(doc, map[]) == Part(tree.fields, keys)
    decreases tree, |tree.fields|, keys
  {
    hide PlainKey, Spells, Laid, FieldLine, SectionLine, Part;
    if keys == {} {
      doc := End;
      PartOfNone(tree.fields);
    } else {
      var key :| key in keys;
      var rest := DocumentOfPart(numeric, tree, keys - {key}, indent, parent);
      var value := tree.fields[key];
      assert PlainKey(key) && Writable(numeric, value);
      if value.Obj? {
        var inner := DocumentOf(numeric, value, indent + 2, indent);
        SectionLineIsLaid(indent, key);
        doc := Section(SectionLine(indent, key), indent, key, inner, rest);
      } else {
        var written :| Writes(numeric, written, value);
        FieldLineIsLaid(indent, key, written);
        LimitLifts(numeric, rest, parent, Some(indent));
        doc := Field(FieldLine(indent, key, written), indent, key, written, value, rest);
      }
      MeaningMerges(rest, map[key := value]);
      PartGrows(tree.fields, keys, key);
    }
  }

  lemma PartOfNone(fields: Fields)
    ensures Part(fields, {}) == map[]
  {
  }

  lemma PartGrows(fields: Fields, keys: set<string>, key: string)
    requires key in keys && key in fields
    ensures map[key := fields[key]] + Part(fields, keys - {key}) == Part(fields, keys)
  {
  }

  /** Any tree of maps over values that can be written has a text, at any indent, that is read back as it. */
  lemma TreesReadBack(numeric: Numeric, fields: Fields, indent: nat) returns (doc: Doc)
    requires Writable(numeric, Obj(fields))
    ensures WellLaid(numeric, doc, -1, None)
    ensures Parse(numeric, Join(Print(doc), '\n')) == fields
  {
    doc := DocumentOf(numeric, Obj(fields), indent, -1);
    PrintThenParse(numeric, doc);
  }

  // ---------------------------------------------------------------------
  // What does not change a reading
  // ---------------------------------------------------------------------

  /** Blank and comment lines can be put anywhere into any text without changing what it is read as. */
  lemma IgnoredLinesDoNotMatter(numeric: Numeric, before: seq<string>, line: string, after: seq<string>)
    requires forall l :: l in before + [line] + after ==> '\n' !in l
    requires ReadLine(line).Ignored?
    ensures
      Parse(numeric, Join(before + [line] + after, '\n')) == Parse(numeric, Join(before + after, '\n'))
  {
    hide Step;
    assert forall l :: l in before + after ==> l in before + [line] + after;
    JoinedLinesParse(numeric, before + [line] + after);
    JoinedLinesParse(numeric, before + after);
    var z := Run(numeric, START, before);
    assert before + [line] + after == before + ([line] + after);
    RunConcat(numeric, START, before, [line] + after);
    RunOne(numeric, z, line, after);
    StepIgnored(numeric, z, line);
    RunConcat(numeric, START, before, after);
  }

  /** The indents on the stack grow strictly, after any lines whatever. */
  lemma {:induction false} StackIsIncreasing(numeric: Numeric, z: Stack, lines: seq<string>)
    requires Increasing(z)
    ensures Increasing(Run(numeric, z, lines))
    decreases |lines|
  {
    hide Increasing, Step;
    if lines != [] {
      StepKeepsIncreasing(numeric, z, lines[0]);
      StackIsIncreasing(numeric, Step(numeric, z, lines[0]), lines[1..]);
    }
  }

  lemma StepKeepsIncreasing(numeric: Numeric, z: Stack, line: string)
    requires Increasing(z)
    ensures Increasing(Step(numeric, z, line))
  {
    hide PopTo, ReadLine, ReadValue, SetTop, Increasing;
    match ReadLine(line)
    case Ignored =>
    case Bare(indent) => PopToKeepsIncreasing(z, indent);
    case Entry(indent, key, value) =>
      PopToKeepsIncreasing(z, indent);
      if value == "" {
        OpenKeepsIncreasing(PopTo(z, indent), key, indent);
      } else {
        WriteKeepsIncreasing(PopTo(z, indent), key, ReadValue(numeric, value));
      }
  }

  lemma OpenKeepsIncreasing(z: Stack, key: string, indent: nat)
    requires Increasing(z) && (|z| == 1 || z[|z| - 1].indent < indent)
    ensures Increasing(z + [Frame(key, map[], indent)])
  {
    var n := |z| - 1;
    assert z[n].indent < indent;
  }

  lemma WriteKeepsIncreasing(z: Stack, key: string, value: Yaml)
    requires Increasing(z)
    ensures Increasing(SetTop(z, key, value))
  {
    var top := SetTop(z, key, value);
    assert forall i :: 0 <= i < |z| ==> top[i].indent == z[i].indent;
  }

  lemma {:induction false} PopToKeepsIncreasing(z: Stack, indent: nat)
    requires Increasing(z)
    ensures Increasing(PopTo(z, indent))
    decreases |z|
  {
    if |z| > 1 && indent <= z[|z| - 1].indent { PopToKeepsIncreasing(Pop(z), indent); }
  }
}

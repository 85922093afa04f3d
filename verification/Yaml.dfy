/** The reader of the YAML subset that entity schemas use: an indentation stack over lines, writing into the object
    on top of it. */
module Yaml {
  import opened Text

  type Fields = map<string, Yaml>

  /** A number stays the text it was read from. */
  datatype Yaml =
    | Obj(fields: Fields)
    | List(items: seq<string>)
    | Bool(b: bool)
    | Number(text: string)
    | Text(s: string)

  // ---------------------------------------------------------------------
  // Lines
  // ---------------------------------------------------------------------

  /** What ECMAScript calls white space or a line terminator. */
  predicate IsSpace(c: char) {
    || c == ' ' || '\t' <= c <= '\r' || c == '\U{A0}' || c == '\U{FEFF}' || c == '\U{1680}'
    || '\U{2000}' <= c <= '\U{200A}' || c == '\U{2028}' || c == '\U{2029}' || c == '\U{202F}' || c == '\U{205F}'
    || c == '\U{3000}'
  }

  /** First position from `i` on that is not white space, or |s|. */
  function FirstInk(s: string, i: nat): (r: nat)
    requires i <= |s|
    ensures i <= r <= |s| && forall k :: i <= k < r ==> IsSpace(s[k])
    ensures r < |s| ==> !IsSpace(s[r])
    decreases |s| - i
  {
    if i < |s| && IsSpace(s[i]) then FirstInk(s, i + 1) else i
  }

  /** The end of the text in s[a..b] once white space is taken off its right end. */
  function LastInk(s: string, a: nat, b: nat): (r: nat)
    requires a <= b <= |s|
    ensures a <= r <= b && forall k :: r <= k < b ==> IsSpace(s[k])
    ensures r > a ==> !IsSpace(s[r - 1])
  {
    if a < b && IsSpace(s[b - 1]) then LastInk(s, a, b - 1) else b
  }

  function JsTrim(s: string): string {
    var a := FirstInk(s, 0);
    s[a..LastInk(s, a, |s|)]
  }

  /** A blank line or comment; a line without a colon, of which only the indent matters; or a key and its value. */
  datatype Line = Ignored | Bare(indent: nat) | Entry(indent: nat, key: string, value: string)

  function ReadLine(line: string): Line {
    var trimmed := JsTrim(line);
    if trimmed == "" || trimmed[0] == '#' then Ignored
    else
      var indent, colon := FirstInk(line, 0), FindChar(line, ':', 0);
      if colon == |line| then Bare(indent)
      else Entry(indent, JsTrim(line[..colon]), JsTrim(line[colon + 1..]))
  }

  // ---------------------------------------------------------------------
  // Values
  // ---------------------------------------------------------------------

  /** The texts the language reads as numbers. */
  type Numeric = string -> bool

  predicate IsQuote(c: char) {
    c == '"' || c == '\''
  }

  /** One quote taken off the front, and one off the end. */
  function Unquote(s: string): string {
    var front := if s != "" && IsQuote(s[0]) then s[1..] else s;
    if front != "" && IsQuote(front[|front| - 1]) then front[..|front| - 1] else front
  }

  function NonEmpty(items: seq<string>): seq<string> {
    if items == [] then []
    else if JsTrim(items[0]) == "" then NonEmpty(items[1..])
    else [JsTrim(items[0])] + NonEmpty(items[1..])
  }

  function ReadValue(numeric: Numeric, value: string): Yaml
    requires value != ""
  {
    if value[0] == '[' && value[|value| - 1] == ']' then List(NonEmpty(Split(value[1..|value| - 1], ',')))
    else if value == "true" || value == "false" then Bool(value == "true")
    else if numeric(value) then Number(value)
    else Text(Unquote(value))
  }

  // ---------------------------------------------------------------------
  // The stack
  // ---------------------------------------------------------------------

  /** An object still open: the key it is under, its fields but for the open one, and the indent of its line. */
  datatype Frame = Frame(key: string, fields: Fields, indent: int)

  type Stack = s: seq<Frame> | |s| > 0 witness [Frame("", map[], -1)]

  const START: Stack := [Frame("", map[], -1)]

  function SetTop(z: Stack, key: string, value: Yaml): Stack {
    var n := |z| - 1;
    z[n := z[n].(fields := z[n].fields[key := value])]
  }

  /** Closing the top object puts it into the one below. */
  function Pop(z: Stack): Stack
    requires |z| > 1
  {
    var n := |z| - 1;
    SetTop(z[..n], z[n].key, Obj(z[n].fields))
  }

  function PopTo(z: Stack, indent: nat): (r: Stack)
    ensures r[|r| - 1].indent < indent || |r| == 1
    decreases |z|
  {
    if |z| > 1 && indent <= z[|z| - 1].indent then PopTo(Pop(z), indent) else z
  }

  function Step(numeric: Numeric, z: Stack, line: string): Stack {
    match ReadLine(line)
    case Ignored => z
    case Bare(indent) => PopTo(z, indent)
    case Entry(indent, key, value) =>
      if value == "" then PopTo(z, indent) + [Frame(key, map[], indent)]
      else SetTop(PopTo(z, indent), key, ReadValue(numeric, value))
  }

  function Run(numeric: Numeric, z: Stack, lines: seq<string>): Stack
    decreases |lines|
  {
    if lines == [] then z else Run(numeric, Step(numeric, z, lines[0]), lines[1..])
  }

  /** The object of frame `k`, everything above it closed. */
  function Closed(z: Stack, k: nat): Fields
    requires k < |z|
    decreases |z| - k
  {
    if k == |z| - 1 then z[k].fields else z[k].fields[z[k + 1].key := Obj(Closed(z, k + 1))]
  }

  function Parse(numeric: Numeric, content: string): Fields {
    Closed(Run(numeric, START, Split(content, '\n')), 0)
  }

  // ---------------------------------------------------------------------
  // The parser, writing into one tree that grows as it goes
  // ---------------------------------------------------------------------

  /** An object on the parser's stack: where in the tree it is, and the indent of its line. */
  datatype Place = Place(path: seq<string>, indent: int)

  predicate Leads(tree: Fields, path: seq<string>)
    decreases |path|
  {
    path == [] || (path[0] in tree && tree[path[0]].Obj? && Leads(tree[path[0]].fields, path[1..]))
  }

  /** current[key] = value, for the object the path leads to. */
  function Assign(tree: Fields, path: seq<string>, key: string, value: Yaml): Fields
    requires Leads(tree, path)
    decreases |path|
  {
    if path == [] then tree[key := value]
    else tree[path[0] := Obj(Assign(tree[path[0]].fields, path[1..], key, value))]
  }

  /** The keys that lead to frame `k`. */
  function Path(z: Stack, k: nat): (r: seq<string>)
    requires k < |z|
    ensures |r| == k
  {
    seq(k, j requires 0 <= j < k => z[j + 1].key)
  }

  /** Indents grow strictly from the bottom of the stack to the top. */
  ghost predicate Increasing(z: Stack) {
    z[0].indent == -1 && forall i, j :: 0 <= i < j < |z| ==> z[i].indent < z[j].indent
  }

  /** The tree and the places are those of the frames. */
  ghost predicate Shows(z: Stack, tree: Fields, stack: seq<Place>) {
    && tree == Closed(z, 0)
    && |stack| == |z|
    && forall k :: 0 <= k < |z| ==> stack[k] == Place(Path(z, k), z[k].indent)
  }

  /** Writing at the path of the top object is writing into the top frame. */
  lemma {:induction false} AssignIsSetTop(z: Stack, k: nat, key: string, value: Yaml)
    requires k < |z|
    ensures Leads(Closed(z, k), Path(z, |z| - 1)[k..])
    ensures Assign(Closed(z, k), Path(z, |z| - 1)[k..], key, value) == Closed(SetTop(z, key, value), k)
    decreases |z| - k
  {
    var path, top := Path(z, |z| - 1), SetTop(z, key, value);
    if k < |z| - 1 {
      AssignIsSetTop(z, k + 1, key, value);
      assert path[k..][0] == z[k + 1].key && path[k..][1..] == path[k + 1..];
      assert top[k] == z[k] && top[k + 1].key == z[k + 1].key;
    }
  }

  lemma {:induction false} PopKeepsTree(z: Stack, k: nat)
    requires k < |z| - 1
    ensures Closed(Pop(z), k) == Closed(z, k)
    decreases |z| - k
  {
    var popped := Pop(z);
    if k < |z| - 2 {
      PopKeepsTree(z, k + 1);
      assert popped[k] == z[k] && popped[k + 1].key == z[k + 1].key;
    }
  }

  lemma {:induction false} PushOpensObject(z: Stack, k: nat, key: string, indent: int)
    requires k < |z|
    ensures Closed(z + [Frame(key, map[], indent)], k) == Closed(SetTop(z, key, Obj(map[])), k)
    decreases |z| - k
  {
    var pushed, top := z + [Frame(key, map[], indent)], SetTop(z, key, Obj(map[]));
    if k < |z| - 1 {
      PushOpensObject(z, k + 1, key, indent);
      assert pushed[k] == z[k] == top[k] && pushed[k + 1].key == z[k + 1].key == top[k + 1].key;
    }
  }

  lemma PopShows(z: Stack, tree: Fields, stack: seq<Place>)
    requires |z| > 1 && Shows(z, tree, stack) && Increasing(z)
    ensures Shows(Pop(z), tree, stack[..|stack| - 1]) && Increasing(Pop(z))
  {
    PopKeepsTree(z, 0);
    var popped := Pop(z);
    forall k | 0 <= k < |popped|
      ensures Path(popped, k) == Path(z, k)
    {
    }
  }

  lemma WriteShows(z: Stack, tree: Fields, stack: seq<Place>, key: string, value: Yaml)
    requires Shows(z, tree, stack) && Increasing(z)
    ensures Leads(tree, stack[|stack| - 1].path)
    ensures Shows(SetTop(z, key, value), Assign(tree, stack[|stack| - 1].path, key, value), stack)
    ensures Increasing(SetTop(z, key, value))
  {
    AssignIsSetTop(z, 0, key, value);
    var top := SetTop(z, key, value);
    forall k | 0 <= k < |top|
      ensures Path(top, k) == Path(z, k)
    {
    }
  }

  lemma PushShows(z: Stack, tree: Fields, stack: seq<Place>, key: string, indent: nat)
    requires Shows(z, tree, stack) && Increasing(z) && (|z| == 1 || z[|z| - 1].indent < indent)
    ensures Leads(tree, stack[|stack| - 1].path)
    ensures
      var path := stack[|stack| - 1].path;
      Shows(z + [Frame(key, map[], indent)], Assign(tree, path, key, Obj(map[])), stack + [Place(path + [key], indent)])
    ensures Increasing(z + [Frame(key, map[], indent)])
  {
    WriteShows(z, tree, stack, key, Obj(map[]));
    PushOpensObject(z, 0, key, indent);
    var pushed := z + [Frame(key, map[], indent)];
    forall k | 0 <= k < |z|
      ensures Path(pushed, k) == Path(z, k)
    {
    }
    assert Path(pushed, |z|) == Path(z, |z| - 1) + [key];
  }

  method ParseYaml(content: string, numeric: Numeric) returns (result: Fields)
    ensures result == Parse(numeric, content)
  {
    hide Run, Closed, SetTop, Pop, PopTo, Path, Assign, Leads, Increasing, Shows, Unquote, NonEmpty, Split, JsTrim, FirstInk,
      FindChar;
    var lines := Split(content, '\n');
    result := map[];
    var stack := [Place([], -1)];
    ghost var z := START;
    StartShows();
    for i := 0 to |lines|
      invariant Shows(z, result, stack)
      invariant Increasing(z)
      invariant Run(numeric, z, lines[i..]) == Run(numeric, START, lines)
    {
      var line := lines[i];
      RunStep(numeric, z, lines, i);
      var trimmed := JsTrim(line);
      if trimmed == "" || trimmed[0] == '#' { continue; }

      var indent := FirstInk(line, 0);
      ghost var before := z;
      TopShows(z, result, stack);
      PopToUnfolds(z, indent);
      while |stack| > 1 && indent <= stack[|stack| - 1].indent
        invariant Shows(z, result, stack) && |stack| == |z| && stack[|stack| - 1].indent == z[|z| - 1].indent
        invariant Increasing(z)
        invariant PopTo(before, indent) == if |z| > 1 && indent <= z[|z| - 1].indent then PopTo(Pop(z), indent) else z
      {
        PopShows(z, result, stack);
        stack := stack[..|stack| - 1];
        z := Pop(z);
        TopShows(z, result, stack);
        PopToUnfolds(z, indent);
      }
      var current := stack[|stack| - 1].path;
      var colonIndex := FindChar(line, ':', 0);
      if colonIndex < |line| {
        var key := JsTrim(line[..colonIndex]);
        var value := JsTrim(line[colonIndex + 1..]);
        if value == "" {
          PushShows(z, result, stack, key, indent);
          result := Assign(result, current, key, Obj(map[]));
          stack := stack + [Place(current + [key], indent)];
          z := z + [Frame(key, map[], indent)];
        } else {
          var parsed;
          if value[0] == '[' && value[|value| - 1] == ']' {
            parsed := List(NonEmpty(Split(value[1..|value| - 1], ',')));
          } else if value == "true" || value == "false" {
            parsed := Bool(value == "true");
          } else if numeric(value) {
            parsed := Number(value);
          } else {
            parsed := Text(Unquote(value));
          }
          WriteShows(z, result, stack, key, parsed);
          result := Assign(result, current, key, parsed);
          z := SetTop(z, key, parsed);
        }
      }
    }
    TopShows(z, result, stack);
    assert lines[|lines|..] == [];
    RunNone(numeric, z);
  }

  lemma PopToUnfolds(z: Stack, indent: nat)
    ensures PopTo(z, indent) == if |z| > 1 && indent <= z[|z| - 1].indent then PopTo(Pop(z), indent) else z
  {
  }

  lemma RunNone(numeric: Numeric, z: Stack)
    ensures Run(numeric, z, []) == z
  {
  }

  lemma StartShows()
    ensures Shows(START, map[], [Place([], -1)]) && Increasing(START)
  {
  }

  lemma TopShows(z: Stack, tree: Fields, stack: seq<Place>)
    requires Shows(z, tree, stack)
    ensures tree == Closed(z, 0) && |stack| == |z| && stack[|stack| - 1].indent == z[|z| - 1].indent
  {
  }

  lemma RunStep(numeric: Numeric, z: Stack, lines: seq<string>, i: nat)
    requires i < |lines|
    ensures Run(numeric, z, lines[i..]) == Run(numeric, Step(numeric, z, lines[i]), lines[i + 1..])
  {
    assert lines[i..][1..] == lines[i + 1..];
  }
}

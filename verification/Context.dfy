/** Workflow variables and the resolution of "${key}" templates against them. */
module Context {
  import opened Text
  import opened Json

  type Vars = map<string, Json>

  // ---------------------------------------------------------------------
  // Lookup
  // ---------------------------------------------------------------------

  function GetPath(obj: Json, path: string, def: Json): Json
    decreases |path|
  {
    var dot := FindChar(path, '.', 0);
    var key := path[..dot];
    if !obj.Obj? || key !in obj.fields then def
    else if dot == |path| then obj.fields[key]
    else GetPath(obj.fields[key], path[dot + 1..], def)
  }

  function Get(vars: Vars, key: string, def: Json): Json {
    var dot := FindChar(key, '.', 0);
    if dot < |key| then
      var root, rest := key[..dot], key[dot + 1..];
      if root !in vars || !vars[root].Obj? then def
      else GetPath(vars[root], rest, def)
    else if key in vars then vars[key] else def
  }

  /** Follows a list of member names down from `j`. */
  ghost function Walk(j: Json, names: seq<string>, def: Json): Json {
    if names == [] then j
    else if j.Obj? && names[0] in j.fields then Walk(j.fields[names[0]], names[1..], def)
    else def
  }

  lemma {:induction false} GetPathWalks(obj: Json, path: string, def: Json)
    ensures GetPath(obj, path, def) == Walk(obj, Split(path, '.'), def)
    decreases |path|
  {
    var dot := FindChar(path, '.', 0);
    var key := path[..dot];
    if obj.Obj? && key in obj.fields {
      if dot == |path| {
        assert Split(path, '.') == [path] && key == path;
        assert Walk(obj.fields[key], [], def) == obj.fields[key];
      } else {
        assert Split(path, '.')[1..] == Split(path[dot + 1..], '.');
        GetPathWalks(obj.fields[key], path[dot + 1..], def);
      }
    } else {
      assert Split(path, '.')[0] == key;
    }
  }

  /** A lookup is a walk from the variables along the key split at its dots. */
  lemma GetWalks(vars: Vars, key: string, def: Json)
    ensures Get(vars, key, def) == Walk(Obj(vars), Split(key, '.'), def)
  {
    GetPathWalks(Obj(vars), key, def);
    var dot := FindChar(key, '.', 0);
    if dot < |key| && key[..dot] in vars && !vars[key[..dot]].Obj? {
      assert GetPath(vars[key[..dot]], key[dot + 1..], def) == def;
    }
  }

  // ---------------------------------------------------------------------
  // Interpolation
  // ---------------------------------------------------------------------

  datatype Segment = Literal(c: char) | Placeholder(key: string)

  /** A placeholder opens at `i` and is closed: "${", then a "}" somewhere after it. */
  predicate OpensAt(t: string, i: nat) {
    i + 1 < |t| && t[i] == '$' && t[i + 1] == '{' && FindChar(t, '}', i + 2) < |t|
  }

  /** The segment that starts at `i` and the position after it. */
  function SegmentAt(t: string, i: nat): (r: (Segment, nat))
    requires i < |t|
    ensures i < r.1 <= |t|
  {
    if OpensAt(t, i) then
      var end := FindChar(t, '}', i + 2);
      (Placeholder(t[i + 2..end]), end + 1)
    else (Literal(t[i]), i + 1)
  }

  function SegmentsFrom(t: string, i: nat): seq<Segment>
    requires i <= |t|
    decreases |t| - i
  {
    if i == |t| then []
    else
      var (seg, next) := SegmentAt(t, i);
      [seg] + SegmentsFrom(t, next)
  }

  function Segments(t: string): seq<Segment> {
    SegmentsFrom(t, 0)
  }

  /** What a looked-up value contributes to text: strings as they are, null nothing, the rest dumped. */
  function Shown(codec: Codec, v: Json): string {
    match v
    case Str(s) => s
    case Null => ""
    case _ => codec.dump(v)
  }

  function Substituted(vars: Vars, codec: Codec, seg: Segment): string {
    match seg
    case Literal(c) => [c]
    case Placeholder(key) => Shown(codec, Get(vars, key, Null))
  }

  /** Every segment substituted once, in order. */
  function Rendered(vars: Vars, codec: Codec, segs: seq<Segment>): string {
    if segs == [] then ""
    else Substituted(vars, codec, segs[0]) + Rendered(vars, codec, segs[1..])
  }

  function SourceOf(seg: Segment): string {
    match seg
    case Literal(c) => [c]
    case Placeholder(key) => "${" + key + "}"
  }

  function SourceText(segs: seq<Segment>): string {
    if segs == [] then "" else SourceOf(segs[0]) + SourceText(segs[1..])
  }

  /** Placeholders hold no brace that would close them early, and no literal '$' really opens one. */
  ghost predicate Canonical(segs: seq<Segment>) {
    segs != [] ==>
      && (segs[0].Literal? ==> !OpensAt(SourceText(segs), 0))
      && (segs[0].Placeholder? ==> '}' !in segs[0].key)
      && Canonical(segs[1..])
  }

  lemma OpensShift(pre: string, t: string, k: nat)
    ensures OpensAt(pre + t, |pre| + k) <==> OpensAt(t, k)
    ensures OpensAt(t, k) ==> FindChar(pre + t, '}', |pre| + k + 2) == |pre| + FindChar(t, '}', k + 2)
  {
    if k + 1 < |t| { FindCharShift(pre, t, '}', k + 2); }
  }

  lemma SegmentAtShift(pre: string, t: string, k: nat)
    requires k < |t|
    ensures SegmentAt(pre + t, |pre| + k) == (SegmentAt(t, k).0, |pre| + SegmentAt(t, k).1)
  {
    OpensShift(pre, t, k);
    if OpensAt(t, k) { ShiftSlice(pre, t, k + 2, FindChar(t, '}', k + 2)); }
  }

  /** The scan looks only forward: what precedes the position does not matter. */
  lemma {:induction false} SegmentsShift(pre: string, t: string, k: nat)
    requires k <= |t|
    ensures SegmentsFrom(pre + t, |pre| + k) == SegmentsFrom(t, k)
    decreases |t| - k
  {
    hide SegmentAt;
    if k < |t| {
      SegmentAtShift(pre, t, k);
      SegmentsShift(pre, t, SegmentAt(t, k).1);
    }
  }

  lemma SourceCons(seg: Segment, rest: seq<Segment>)
    ensures SourceText([seg] + rest) == SourceOf(seg) + SourceText(rest)
  {
    assert ([seg] + rest)[1..] == rest;
  }

  lemma SegmentText(t: string, i: nat)
    requires i < |t|
    ensures Reads(t, i, SourceOf(SegmentAt(t, i).0))
    ensures i + |SourceOf(SegmentAt(t, i).0)| == SegmentAt(t, i).1
  {
    if OpensAt(t, i) {
      var end := FindChar(t, '}', i + 2);
      hide FindChar, OpensAt;
      PlaceholderText(t, i, end);
    }
  }

  lemma PlaceholderText(t: string, i: nat, end: nat)
    requires i + 2 <= end < |t| && t[i] == '$' && t[i + 1] == '{' && t[end] == '}'
    ensures var source := SourceOf(Placeholder(t[i + 2..end])); Reads(t, i, source) && i + |source| == end + 1
  {
    var key := t[i + 2..end];
    hide SourceOf;
    assert forall k :: 0 <= k < |key| ==> key[k] == t[i + 2 + k];
    ReadsAppend(t, i, "${", key);
    ReadsAppend(t, i, "${" + key, "}");
    SourceIs(key);
  }

  lemma SourceIs(key: string)
    ensures SourceOf(Placeholder(key)) == "${" + key + "}"
  {
  }

  lemma {:induction false} SegmentsCoverFrom(t: string, i: nat)
    requires i <= |t|
    ensures Reads(t, i, SourceText(SegmentsFrom(t, i)))
    ensures i + |SourceText(SegmentsFrom(t, i))| == |t|
    decreases |t| - i
  {
    if i < |t| {
      var (seg, next) := SegmentAt(t, i);
      SegmentsCoverFrom(t, next);
      SegmentText(t, i);
      SourceCons(seg, SegmentsFrom(t, next));
      ReadsAppend(t, i, SourceOf(seg), SourceText(SegmentsFrom(t, next)));
      hide SegmentAt, SourceOf, SourceText, Reads;
    }
  }

  lemma {:induction false} SegmentsCanonical(t: string, i: nat)
    requires i <= |t|
    ensures Canonical(SegmentsFrom(t, i))
    decreases |t| - i
  {
    if i < |t| {
      var (seg, next) := SegmentAt(t, i);
      SegmentsCanonical(t, next);
      SegmentsCoverFrom(t, i);
      WholeText(t, i, SourceText(SegmentsFrom(t, i)));
      OpensSuffix(t, i);
      CanonicalCons(seg, SegmentsFrom(t, next));
    }
  }

  lemma OpensSuffix(t: string, i: nat)
    requires i <= |t|
    ensures OpensAt(t, i) <==> OpensAt(t[i..], 0)
  {
    OpensShift(t[..i], t[i..], 0);
    assert t == t[..i] + t[i..];
  }

  lemma WholeText(t: string, i: nat, a: string)
    requires Reads(t, i, a) && i + |a| == |t|
    ensures a == t[i..]
  {
  }

  lemma CanonicalCons(seg: Segment, rest: seq<Segment>)
    requires Canonical(rest)
    requires seg.Literal? ==> !OpensAt(SourceText([seg] + rest), 0)
    requires seg.Placeholder? ==> '}' !in seg.key
    ensures Canonical([seg] + rest)
  {
    assert ([seg] + rest)[1..] == rest;
  }

  /** The segments concatenate back to the template, and they are its canonical reading. */
  lemma SegmentsCoverTemplate(t: string)
    ensures SourceText(Segments(t)) == t
    ensures Canonical(Segments(t))
  {
    SegmentsCoverFrom(t, 0);
    SegmentsCanonical(t, 0);
  }

  lemma PlaceholderReads(key: string, rest: string)
    requires '}' !in key
    ensures var t := SourceOf(Placeholder(key)) + rest;
            && OpensAt(t, 0)
            && FindChar(t, '}', 2) == 2 + |key|
            && t[2..2 + |key|] == key
  {
    var t, end := SourceOf(Placeholder(key)) + rest, 2 + |key|;
    assert t[2..end] == key;
    FoundAt(t, '}', 2, end);
  }

  lemma HeadReads(segs: seq<Segment>)
    requires Canonical(segs) && segs != []
    ensures SourceText(segs) == SourceOf(segs[0]) + SourceText(segs[1..])
    ensures |SourceText(segs)| > 0 && SegmentAt(SourceText(segs), 0) == (segs[0], |SourceOf(segs[0])|)
  {
    if segs[0].Placeholder? { PlaceholderReads(segs[0].key, SourceText(segs[1..])); }
  }

  /** No other canonical segmentation has the same text. */
  lemma {:induction false} SegmentsUnique(segs: seq<Segment>)
    requires Canonical(segs)
    ensures Segments(SourceText(segs)) == segs
    decreases |segs|
  {
    hide OpensAt, SourceOf, SegmentAt;
    if segs != [] {
      HeadReads(segs);
      SegmentsUnique(segs[1..]);
      SegmentsShift(SourceOf(segs[0]), SourceText(segs[1..]), 0);
      hide SegmentAt, SourceOf, SourceText, OpensAt, Canonical;
    }
  }

  // ---------------------------------------------------------------------
  // Resolution of whole values
  // ---------------------------------------------------------------------

  /** The whole string is one placeholder with a non-empty key. */
  predicate IsWhole(s: string) {
    |s| > 3 && s[0] == '$' && s[1] == '{' && FindChar(s, '}', 2) == |s| - 1
  }

  function Resolve(vars: Vars, codec: Codec, val: Json): Json {
    match val
    case Str(s) =>
      if IsWhole(s) then Get(vars, s[2..|s| - 1], val)
      else Str(Rendered(vars, codec, Segments(s)))
    case Obj(fields) => Obj(map k | k in fields :: Resolve(vars, codec, fields[k]))
    case Arr(items) => Arr(seq(|items|, i requires 0 <= i < |items| => Resolve(vars, codec, items[i])))
    case _ => val
  }

  ghost predicate SameShape(a: Json, b: Json) {
    match a
    case Str(_) => true
    case Obj(f) => b.Obj? && b.fields.Keys == f.Keys && forall k :: k in f ==> SameShape(f[k], b.fields[k])
    case Arr(s) => b.Arr? && |b.items| == |s| && forall i :: 0 <= i < |s| ==> SameShape(s[i], b.items[i])
    case _ => b == a
  }

  ghost predicate NoTemplate(j: Json) {
    match j
    case Str(s) => forall i :: 0 <= i < |s| - 1 ==> !(s[i] == '$' && s[i + 1] == '{')
    case Obj(f) => forall k :: k in f ==> NoTemplate(f[k])
    case Arr(s) => forall i :: 0 <= i < |s| ==> NoTemplate(s[i])
    case _ => true
  }

  /** Resolution changes only strings: structure, keys and the other scalars stay. */
  lemma {:induction false} ResolveKeepsShape(vars: Vars, codec: Codec, val: Json)
    ensures SameShape(val, Resolve(vars, codec, val))
  {
    match val
    case Obj(f) =>
      forall k | k in f { ResolveKeepsShape(vars, codec, f[k]); }
    case Arr(s) =>
      forall i | 0 <= i < |s| { ResolveKeepsShape(vars, codec, s[i]); }
    case _ =>
  }

  lemma {:induction false} RenderedPlain(vars: Vars, codec: Codec, s: string, i: nat)
    requires NoTemplate(Str(s)) && i <= |s|
    ensures Rendered(vars, codec, SegmentsFrom(s, i)) == s[i..]
    decreases |s| - i
  {
    if i < |s| {
      RenderedPlain(vars, codec, s, i + 1);
      RenderedCons(vars, codec, Literal(s[i]), SegmentsFrom(s, i + 1));
    }
  }

  /** A value that mentions no "${" resolves to itself. */
  lemma {:induction false} ResolveIdentity(vars: Vars, codec: Codec, val: Json)
    requires NoTemplate(val)
    ensures Resolve(vars, codec, val) == val
  {
    match val
    case Str(s) =>
      RenderedPlain(vars, codec, s, 0);
      assert s[0..] == s;
      if |s| > 3 { assert !(s[0] == '$' && s[0 + 1] == '{'); }
    case Obj(f) =>
      forall k | k in f ensures Resolve(vars, codec, f[k]) == f[k] { ResolveIdentity(vars, codec, f[k]); }
    case Arr(s) =>
      forall i | 0 <= i < |s| ensures Resolve(vars, codec, s[i]) == s[i] { ResolveIdentity(vars, codec, s[i]); }
    case _ =>
  }

  /** The whole-string rule and interpolation agree exactly when the value found is a string. */
  lemma WholeAgreesWithInterpolation(vars: Vars, codec: Codec, key: string)
    requires key != "" && '}' !in key
    ensures
      var s := "${" + key + "}";
      && Resolve(vars, codec, Str(s)) == Get(vars, key, Str(s))
      && Rendered(vars, codec, Segments(s)) == Shown(codec, Get(vars, key, Null))
    ensures
      var s := "${" + key + "}";
      Resolve(vars, codec, Str(s)) == Str(Rendered(vars, codec, Segments(s))) <==> Get(vars, key, Null).Str?
  {
    var s := "${" + key + "}";
    var segs := [Placeholder(key)];
    assert SourceText(segs) == s;
    SegmentsUnique(segs);
    assert s[2..|s| - 1] == key;
    assert forall k :: 2 <= k < |s| - 1 ==> s[k] == key[k - 2];
    assert IsWhole(s);
    assert Rendered(vars, codec, segs) == Shown(codec, Get(vars, key, Null)) + Rendered(vars, codec, []);
    GetWalks(vars, key, Null);
    GetWalks(vars, key, Str(s));
    WalkDefault(Obj(vars), Split(key, '.'), Null, Str(s));
  }

  /** The default matters only when the walk fails, so a string found is the same for every default. */
  lemma {:induction false} WalkDefault(j: Json, names: seq<string>, d: Json, e: Json)
    ensures Walk(j, names, d) == Walk(j, names, e) || (Walk(j, names, d) == d && Walk(j, names, e) == e)
  {
    if names != [] && j.Obj? && names[0] in j.fields {
      WalkDefault(j.fields[names[0]], names[1..], d, e);
    }
  }

  lemma RenderedCons(vars: Vars, codec: Codec, seg: Segment, rest: seq<Segment>)
    ensures Rendered(vars, codec, [seg] + rest) == Substituted(vars, codec, seg) + Rendered(vars, codec, rest)
  {
    assert ([seg] + rest)[1..] == rest;
  }

  ghost function RenderedFrom(vars: Vars, codec: Codec, tmpl: string, i: nat): string
    requires i <= |tmpl|
  {
    Rendered(vars, codec, SegmentsFrom(tmpl, i))
  }

  /** One segment further: what it contributes moves from the rest to the accumulated text. */
  lemma ReadSegment(vars: Vars, codec: Codec, tmpl: string, i: nat, acc: string)
    requires i < |tmpl|
    ensures
      var (seg, next) := SegmentAt(tmpl, i);
      (acc + Substituted(vars, codec, seg)) + RenderedFrom(vars, codec, tmpl, next) ==
      acc + RenderedFrom(vars, codec, tmpl, i)
  {
    hide SegmentAt, Substituted;
    var (seg, next) := SegmentAt(tmpl, i);
    RenderedCons(vars, codec, seg, SegmentsFrom(tmpl, next));
    Assoc(acc, Substituted(vars, codec, seg), RenderedFrom(vars, codec, tmpl, next));
  }

  /** From the first position everything is still to be rendered; from the end, nothing. */
  lemma RenderedEnds(vars: Vars, codec: Codec, tmpl: string)
    ensures RenderedFrom(vars, codec, tmpl, 0) == Rendered(vars, codec, Segments(tmpl))
    ensures RenderedFrom(vars, codec, tmpl, |tmpl|) == ""
  {
  }

  // ---------------------------------------------------------------------
  // What resolving means, string by string
  // ---------------------------------------------------------------------

  ghost function Concat(parts: seq<string>): string {
    if parts == [] then "" else parts[0] + Concat(parts[1..])
  }

  /** What a segment turns into: a literal itself; a placeholder the string found, nothing for null or for nothing
      found, or the JSON text of anything else. */
  ghost predicate TurnsInto(vars: Vars, codec: Codec, seg: Segment, text: string) {
    match seg
    case Literal(c) => text == [c]
    case Placeholder(key) =>
      match Walk(Obj(vars), Split(key, '.'), Null)
      case Str(found) => text == found
      case Null => text == ""
      case found => text == codec.dump(found)
  }

  ghost predicate Interpolates(vars: Vars, codec: Codec, segs: seq<Segment>, texts: seq<string>) {
    |texts| == |segs| && forall i :: 0 <= i < |segs| ==> TurnsInto(vars, codec, segs[i], texts[i])
  }

  ghost predicate IsWholeOf(s: string, key: string) {
    key != "" && '}' !in key && s == "${" + key + "}"
  }

  /** `b` is `a` with every string resolved: one that is a single placeholder becomes the value found, or stays if
      there is none; any other is its canonical segments, each turned into text. */
  ghost predicate ResolvesTo(vars: Vars, codec: Codec, a: Json, b: Json) {
    match a
    case Str(s) =>
      if exists key :: IsWholeOf(s, key)
      then forall key :: IsWholeOf(s, key) ==> b == Walk(Obj(vars), Split(key, '.'), a)
      else exists segs, texts ::
             && Canonical(segs) && SourceText(segs) == s
             && Interpolates(vars, codec, segs, texts) && b == Str(Concat(texts))
    case Obj(f) => b.Obj? && b.fields.Keys == f.Keys && forall k :: k in f ==> ResolvesTo(vars, codec, f[k], b.fields[k])
    case Arr(s) => b.Arr? && |b.items| == |s| && forall i :: 0 <= i < |s| ==> ResolvesTo(vars, codec, s[i], b.items[i])
    case _ => b == a
  }

  lemma WholeIff(s: string)
    ensures IsWhole(s) ==> IsWholeOf(s, s[2..|s| - 1])
    ensures forall key :: IsWholeOf(s, key) ==> IsWhole(s) && key == s[2..|s| - 1]
  {
    if IsWhole(s) { assert s == "${" + s[2..|s| - 1] + "}"; }
    forall key | IsWholeOf(s, key)
      ensures IsWhole(s) && key == s[2..|s| - 1]
    {
      assert s[2..|s| - 1] == key;
      FoundAt(s, '}', 2, |s| - 1);
    }
  }

  lemma {:induction false} RenderedIsTexts(vars: Vars, codec: Codec, segs: seq<Segment>) returns (texts: seq<string>)
    ensures Interpolates(vars, codec, segs, texts) && Rendered(vars, codec, segs) == Concat(texts)
  {
    texts := [];
    if segs != [] {
      var rest := RenderedIsTexts(vars, codec, segs[1..]);
      var first := Substituted(vars, codec, segs[0]);
      if segs[0].Placeholder? { GetWalks(vars, segs[0].key, Null); }
      texts := [first] + rest;
      assert texts[1..] == rest;
    }
  }

  /** Resolving does that, and nothing else, to every value. */
  lemma {:induction false} ResolveMeaning(vars: Vars, codec: Codec, val: Json)
    ensures ResolvesTo(vars, codec, val, Resolve(vars, codec, val))
  {
    match val
    case Str(s) =>
      WholeIff(s);
      if IsWhole(s) {
        GetWalks(vars, s[2..|s| - 1], val);
      } else {
        SegmentsCoverTemplate(s);
        var texts := RenderedIsTexts(vars, codec, Segments(s));
      }
    case Obj(f) =>
      forall k | k in f { ResolveMeaning(vars, codec, f[k]); }
    case Arr(items) =>
      forall i | 0 <= i < |items| { ResolveMeaning(vars, codec, items[i]); }
    case _ =>
  }

  // ---------------------------------------------------------------------
  // The context object
  // ---------------------------------------------------------------------

  class WfContext {
    var vars: Vars
    const codec: Codec

    constructor (codec: Codec)
      ensures vars == map[] && this.codec == codec
    {
      this.codec := codec;
      vars := map[];
    }

    method Set(key: string, val: Json)
      modifies this
      ensures vars == old(vars)[key := val]
    {
      vars := vars[key := val];
    }

    /** Interpolates "${key}" placeholders, scanning left to right and never rescanning inserted text. */
    method ResolveStr(tmpl: string) returns (result: string)
      ensures result == Rendered(vars, codec, Segments(tmpl))
    {
      hide RenderedFrom, Rendered, Segments, Get;
      RenderedEnds(vars, codec, tmpl);
      result := "";
      var i := 0;
      ghost var whole := RenderedFrom(vars, codec, tmpl, 0);
      while i < |tmpl|
        invariant 0 <= i <= |tmpl|
        invariant result + RenderedFrom(vars, codec, tmpl, i) == whole
      {
        ReadSegment(vars, codec, tmpl, i, result);
        if i + 1 < |tmpl| && tmpl[i] == '$' && tmpl[i + 1] == '{' {
          var end := FindChar(tmpl, '}', i + 2);
          if end == |tmpl| {
            result := result + [tmpl[i]];
            i := i + 1;
            continue;
          }
          var key := tmpl[i + 2..end];
          var v := Get(vars, key, Null);
          if v.Str? {
            result := result + v.s;
          } else if !v.Null? {
            result := result + codec.dump(v);
          } else {
            assert result + Shown(codec, v) == result;
          }
          i := end + 1;
        } else {
          result := result + [tmpl[i]];
          i := i + 1;
        }
      }
    }
  }
}

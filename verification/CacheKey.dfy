/** The Redis keys of cached records, and the glob that must match exactly one entity's. */
module CacheKey {
  import opened Text

  const PREFIX := "dbal:cache"

  function RecordKey(entity: string, id: string): string {
    PREFIX + ":" + entity + ":" + id
  }

  function EntityScanPattern(entity: string): string {
    PREFIX + ":" + entity + ":*"
  }

  /** Redis glob matching, character classes left out: '*', '?' and a backslash escape are special. */
  predicate GlobMatch(p: string, s: string)
    decreases |p| + |s|
  {
    if p == "" then s == ""
    else if p[0] == '*' then GlobMatch(p[1..], s) || (s != "" && GlobMatch(p, s[1..]))
    else if p[0] == '?' then s != "" && GlobMatch(p[1..], s[1..])
    else if p[0] == '\\' && |p| > 1 then s != "" && s[0] == p[1] && GlobMatch(p[2..], s[1..])
    else s != "" && s[0] == p[0] && GlobMatch(p[1..], s[1..])
  }

  /** The names that routing lets through as entities. */
  predicate Routed(entity: string) {
    entity != "" && forall i :: 0 <= i < |entity| ==> IsWordChar(entity[i])
  }

  // ---------------------------------------------------------------------
  // When two keys coincide
  // ---------------------------------------------------------------------

  /** `a` followed by a colon starts `b`. */
  ghost predicate Shadows(a: string, b: string) {
    a + ":" <= b
  }

  lemma {:induction false} TailsCoincide(e1: string, i1: string, e2: string, i2: string)
    requires e1 + ":" + i1 == e2 + ":" + i2
    ensures e1 == e2 ==> i1 == i2
    ensures |e1| < |e2| ==> Shadows(e1, e2)
  {
    var a, b := e1 + ":" + i1, e2 + ":" + i2;
    if e1 == e2 {
      assert i1 == a[|e1| + 1..] && i2 == b[|e2| + 1..];
    } else if |e1| < |e2| {
      assert e1 + ":" == a[..|e1| + 1];
      assert b[..|e1| + 1] == e2[..|e1| + 1];
    }
  }

  lemma KeyTail(entity: string, id: string)
    ensures RecordKey(entity, id)[|PREFIX| + 1..] == entity + ":" + id
    ensures RecordKey(entity, id) == (PREFIX + ":") + (entity + ":" + id)
  {
  }

  /** Two different entities share a key exactly when one name, colon appended, starts the other. */
  lemma KeysCoincideExactly(e1: string, e2: string)
    requires e1 != e2
    ensures (exists i1, i2 :: RecordKey(e1, i1) == RecordKey(e2, i2)) <==> Shadows(e1, e2) || Shadows(e2, e1)
  {
    if i1, i2 :| RecordKey(e1, i1) == RecordKey(e2, i2) {
      KeyTail(e1, i1);
      KeyTail(e2, i2);
      TailsCoincide(e1, i1, e2, i2);
      TailsCoincide(e2, i2, e1, i1);
      if |e1| == |e2| { SameLength(e1, i1, e2, i2); }
    }
    if Shadows(e1, e2) { ShadowCollides(e1, e2); }
    if Shadows(e2, e1) {
      ShadowCollides(e2, e1);
      var i2, i1 :| RecordKey(e2, i2) == RecordKey(e1, i1);
      assert RecordKey(e1, i1) == RecordKey(e2, i2);
    }
  }

  lemma SameLength(e1: string, i1: string, e2: string, i2: string)
    requires e1 + ":" + i1 == e2 + ":" + i2 && |e1| == |e2|
    ensures e1 == e2
  {
    assert e1 == (e1 + ":" + i1)[..|e1|];
    assert e2 == (e2 + ":" + i2)[..|e2|];
  }

  lemma ShadowCollides(a: string, b: string)
    requires Shadows(a, b)
    ensures exists i, j :: RecordKey(a, i) == RecordKey(b, j)
  {
    var rest := b[|a| + 1..];
    assert b == a + ":" + rest;
    assert RecordKey(a, rest + ":") == RecordKey(b, "");
  }

  lemma ShadowHasColon(a: string, b: string)
    requires Shadows(a, b)
    ensures ':' in b
  {
    assert b[|a|] == (a + ":")[|a|];
  }

  lemma RoutedHasNoColon(entity: string)
    requires Routed(entity)
    ensures ':' !in entity
  {
    forall i | 0 <= i < |entity| ensures entity[i] != ':' { assert IsWordChar(entity[i]); }
  }

  /** Over colon-free entity names, which routed names are, a key names one record. */
  lemma RecordKeyInjective(e1: string, i1: string, e2: string, i2: string)
    requires ':' !in e1 && ':' !in e2
    requires RecordKey(e1, i1) == RecordKey(e2, i2)
    ensures e1 == e2 && i1 == i2
  {
    KeyTail(e1, i1);
    KeyTail(e2, i2);
    if e1 != e2 {
      KeysCoincideExactly(e1, e2);
      if Shadows(e1, e2) { ShadowHasColon(e1, e2); } else { ShadowHasColon(e2, e1); }
    }
    TailsCoincide(e1, i1, e2, i2);
  }

  // ---------------------------------------------------------------------
  // What the scan pattern matches
  // ---------------------------------------------------------------------

  predicate LiteralText(p: string) {
    forall i :: 0 <= i < |p| ==> p[i] != '*' && p[i] != '?' && p[i] != '\\'
  }

  lemma {:induction false} StarMatchesAll(s: string)
    ensures GlobMatch("*", s)
    decreases |s|
  {
    if s != "" { StarMatchesAll(s[1..]); } else { assert "*"[1..] == ""; }
  }

  lemma {:induction false} LiteralThenStar(lit: string, s: string)
    requires LiteralText(lit)
    ensures GlobMatch(lit + "*", s) <==> lit <= s
    decreases |lit|
  {
    if lit == "" {
      assert lit + "*" == "*";
      StarMatchesAll(s);
    } else {
      assert lit[0] != '*' && lit[0] != '?' && lit[0] != '\\';
      assert (lit + "*")[1..] == lit[1..] + "*";
      if s != "" && s[0] == lit[0] {
        assert LiteralText(lit[1..]);
        LiteralThenStar(lit[1..], s[1..]);
        assert lit == [lit[0]] + lit[1..] && s == [s[0]] + s[1..];
        assert lit[1..] <= s[1..] <==> lit <= s by { PrefixCons(lit, s); }
      }
    }
  }

  lemma PrefixCons(a: string, b: string)
    requires a != "" && b != "" && a[0] == b[0]
    ensures a[1..] <= b[1..] <==> a <= b
  {
    if a <= b {
      assert a[1..] == b[1..][..|a| - 1];
    }
    if a[1..] <= b[1..] {
      assert a == [a[0]] + a[1..];
      assert b[..|a|] == [b[0]] + b[1..][..|a| - 1];
    }
  }

  /** The pattern matches a key exactly when it is the key of some record of the entity. */
  lemma PatternMatchesEntity(entity: string, key: string)
    requires Routed(entity)
    ensures GlobMatch(EntityScanPattern(entity), key) <==> exists id :: key == RecordKey(entity, id)
  {
    var lit := PREFIX + ":" + entity + ":";
    assert EntityScanPattern(entity) == lit + "*";
    PatternIsLiteral(entity);
    LiteralThenStar(lit, key);
    if lit <= key {
      assert key == RecordKey(entity, key[|lit|..]);
    }
    if id :| key == RecordKey(entity, id) {
      assert key == lit + id;
    }
  }

  lemma PatternIsLiteral(entity: string)
    requires Routed(entity)
    ensures LiteralText(PREFIX + ":" + entity + ":")
  {
    var lit := PREFIX + ":" + entity + ":";
    forall i | 0 <= i < |lit|
      ensures lit[i] != '*' && lit[i] != '?' && lit[i] != '\\'
    {
      if |PREFIX| + 1 <= i < |PREFIX| + 1 + |entity| {
        assert lit[i] == entity[i - |PREFIX| - 1];
        assert IsWordChar(lit[i]);
      }
    }
  }
}

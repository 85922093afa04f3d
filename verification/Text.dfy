/** What several components share: optional values and results, and searching, splitting, joining and
    trimming text. */
module Text {

  datatype Option<+T> = None | Some(value: T)

  /** A call's value, or the fact that it failed; error codes and messages are left out. */
  datatype Result<+T> = Ok(value: T) | Err

  /** First position of `c` at or after `from`, or |s| when there is none. */
  function FindChar(s: string, c: char, from: nat): (r: nat)
    requires from <= |s|
    ensures from <= r <= |s|
    ensures r < |s| ==> s[r] == c
    ensures forall i :: from <= i < r ==> s[i] != c
    decreases |s| - from
  {
    if from == |s| || s[from] == c then from else FindChar(s, c, from + 1)
  }

  predicate At(s: string, pat: string, i: nat) {
    i + |pat| <= |s| && s[i..i + |pat|] == pat
  }

  /** First position of `pat` at or after `from`, or None. */
  function FindText(s: string, pat: string, from: nat): (r: Option<nat>)
    requires from <= |s|
    ensures r.Some? ==> from <= r.value <= |s| && At(s, pat, r.value) && forall i :: from <= i < r.value ==> !At(s, pat, i)
    ensures r.None? ==> forall i :: from <= i <= |s| ==> !At(s, pat, i)
    decreases |s| - from
  {
    if At(s, pat, from) then Some(from)
    else if from == |s| then None
    else FindText(s, pat, from + 1)
  }

  /** `a` is what stands in `t` from position `i` on. */
  ghost predicate Reads(t: string, i: nat, a: string) {
    i + |a| <= |t| && forall j :: 0 <= j < |a| ==> a[j] == t[i + j]
  }

  lemma ReadsAppend(t: string, i: nat, a: string, b: string)
    requires Reads(t, i, a) && Reads(t, i + |a|, b)
    ensures Reads(t, i, a + b)
  {
  }

  lemma {:induction false} FindCharShift(pre: string, s: string, c: char, from: nat)
    requires from <= |s|
    ensures FindChar(pre + s, c, |pre| + from) == |pre| + FindChar(s, c, from)
    decreases |s| - from
  {
    if from < |s| && s[from] != c { FindCharShift(pre, s, c, from + 1); }
  }

  lemma FoundAt(s: string, c: char, from: nat, end: nat)
    requires from <= end < |s| && s[end] == c
    requires c !in s[from..end]
    ensures FindChar(s, c, from) == end
  {
    forall k | from <= k < end
      ensures s[k] != c
    {
      assert s[k] == s[from..end][k - from];
    }
  }

  lemma NotFound(s: string, c: char, from: nat)
    requires from <= |s| && c !in s[from..]
    ensures FindChar(s, c, from) == |s|
  {
    assert forall k :: from <= k < |s| ==> s[k] == s[from..][k - from];
  }

  lemma ShiftSlice<T>(pre: seq<T>, s: seq<T>, a: nat, b: nat)
    requires a <= b <= |s|
    ensures (pre + s)[|pre| + a..|pre| + b] == s[a..b]
  {
  }

  lemma Assoc<T>(a: seq<T>, b: seq<T>, c: seq<T>)
    ensures (a + b) + c == a + (b + c)
  {
  }

  // ---------------------------------------------------------------------
  // Splitting and joining at one character
  // ---------------------------------------------------------------------

  function Split(s: string, c: char): (parts: seq<string>)
    ensures |parts| > 0
    decreases |s|
  {
    var i := FindChar(s, c, 0);
    if i == |s| then [s] else [s[..i]] + Split(s[i + 1..], c)
  }

  function Join(parts: seq<string>, c: char): string {
    if parts == [] then ""
    else if |parts| == 1 then parts[0]
    else parts[0] + [c] + Join(parts[1..], c)
  }

  lemma {:induction false} JoinSplit(s: string, c: char)
    ensures Join(Split(s, c), c) == s
    decreases |s|
  {
    var i := FindChar(s, c, 0);
    if i < |s| {
      JoinSplit(s[i + 1..], c);
      assert s == s[..i] + [c] + s[i + 1..];
    }
  }

  lemma {:induction false} SplitParts(s: string, c: char)
    ensures forall p :: p in Split(s, c) ==> c !in p
    decreases |s|
  {
    var i := FindChar(s, c, 0);
    if i < |s| { SplitParts(s[i + 1..], c); }
  }

  lemma {:induction false} SplitJoin(parts: seq<string>, c: char)
    requires parts != []
    requires forall p :: p in parts ==> c !in p
    ensures Split(Join(parts, c), c) == parts
  {
    var s := Join(parts, c);
    if |parts| == 1 {
      assert s == parts[0];
      assert parts[0] in parts;
    } else {
      SplitJoin(parts[1..], c);
      var i := |parts[0]|;
      assert s[i] == c && s[..i] == parts[0] && s[i + 1..] == Join(parts[1..], c);
      assert parts[0] in parts;
      assert forall k :: 0 <= k < i ==> s[k] == parts[0][k];
      assert FindChar(s, c, 0) == i;
    }
  }

  // ---------------------------------------------------------------------
  // Trimming
  // ---------------------------------------------------------------------

  /** The four characters the sources trim: space, tab, carriage return, line feed. */
  predicate IsBlank(c: char) {
    c == ' ' || c == '\t' || c == '\r' || c == '\n'
  }

  function TrimLeft(s: string): string {
    if s != "" && IsBlank(s[0]) then TrimLeft(s[1..]) else s
  }

  function TrimRight(s: string): string {
    if s != "" && IsBlank(s[|s| - 1]) then TrimRight(s[..|s| - 1]) else s
  }

  function Trim(s: string): string {
    TrimRight(TrimLeft(s))
  }

  /** Text with no blank at either end is left alone. */
  lemma TrimIdentity(s: string)
    requires s != "" ==> !IsBlank(s[0]) && !IsBlank(s[|s| - 1])
    ensures Trim(s) == s
  {
  }

  /** In `whole` there is `s` at position `i`, and else nothing but blanks. */
  ghost predicate AmongBlanks(whole: string, i: nat, s: string) {
    && Reads(whole, i, s) && (s != "" ==> !IsBlank(s[0]) && !IsBlank(s[|s| - 1]))
    && (forall k :: 0 <= k < i ==> IsBlank(whole[k]))
    && (forall k :: i + |s| <= k < |whole| ==> IsBlank(whole[k]))
  }

  lemma {:induction false} TrimLeftAt(s: string, i: nat)
    requires i <= |s| && (forall k :: 0 <= k < i ==> IsBlank(s[k])) && (i < |s| ==> !IsBlank(s[i]))
    ensures TrimLeft(s) == s[i..]
  {
    if i > 0 {
      TrimLeftAt(s[1..], i - 1);
      assert s[1..][i - 1..] == s[i..];
    }
  }

  lemma {:induction false} TrimRightAt(s: string, i: nat)
    requires i <= |s| && (forall k :: i <= k < |s| ==> IsBlank(s[k])) && (i > 0 ==> !IsBlank(s[i - 1]))
    ensures TrimRight(s) == s[..i]
  {
    if i < |s| {
      TrimRightAt(s[..|s| - 1], i);
      assert s[..|s| - 1][..i] == s[..i];
    }
  }

  lemma AmongBlanksIsTrimmed(whole: string, i: nat, s: string)
    requires AmongBlanks(whole, i, s)
    ensures Trim(whole) == s
  {
    if s == "" {
      TrimLeftAt(whole, |whole|);
    } else {
      assert s[0] == whole[i];
      TrimLeftAt(whole, i);
      var rest := whole[i..];
      assert forall k :: 0 <= k < |rest| ==> rest[k] == whole[i + k];
      TrimRightAt(rest, |s|);
      assert rest[..|s|] == s;
    }
  }

  lemma TrimmedInk(whole: string) returns (i: nat)
    ensures AmongBlanks(whole, i, Trim(whole))
  {
    i := 0;
    while i < |whole| && IsBlank(whole[i])
      invariant i <= |whole| && forall k :: 0 <= k < i ==> IsBlank(whole[k])
    {
      i := i + 1;
    }
    var j := |whole|;
    while j > i && IsBlank(whole[j - 1])
      invariant i <= j <= |whole| && forall k :: j <= k < |whole| ==> IsBlank(whole[k])
    {
      j := j - 1;
    }
    var s := whole[i..j];
    assert forall k :: 0 <= k < |s| ==> s[k] == whole[i + k];
    AmongBlanksIsTrimmed(whole, i, s);
  }

  ghost predicate TrimsTo(whole: string, s: string) {
    exists i: nat :: AmongBlanks(whole, i, s)
  }

  /** Trimming gives what stands among the blanks, and nothing else. */
  lemma TrimIff(whole: string, s: string)
    ensures Trim(whole) == s <==> TrimsTo(whole, s)
  {
    if i: nat :| AmongBlanks(whole, i, s) { AmongBlanksIsTrimmed(whole, i, s); }
    var i := TrimmedInk(whole);
  }

  /** It does not matter which end is trimmed first. */
  lemma TrimCommutes(s: string)
    ensures TrimLeft(TrimRight(s)) == Trim(s)
  {
    var i := TrimmedInk(s);
    var ink := Trim(s);
    hide TrimLeft, TrimRight, Trim;
    if ink == "" {
      TrimRightAt(s, 0);
      TrimLeftAt(s[..0], 0);
    } else {
      var j := i + |ink|;
      assert ink[0] == s[i] && ink[|ink| - 1] == s[j - 1];
      TrimRightAt(s, j);
      TrimLeftAt(s[..j], i);
      assert s[..j][i..] == ink;
    }
  }

  /** A letter, a digit or an underscore. */
  predicate IsWordChar(c: char) {
    '0' <= c <= '9' || 'a' <= c <= 'z' || 'A' <= c <= 'Z' || c == '_'
  }

  function LowerChar(c: char): char {
    if 'A' <= c <= 'Z' then c + 32 as char else c
  }

  function Lower(s: string): (r: string)
    ensures |r| == |s|
  {
    seq(|s|, i requires 0 <= i < |s| => LowerChar(s[i]))
  }
}

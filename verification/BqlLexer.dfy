/** The BQL lexer: one line into words, quoted strings and the punctuation that separates clauses. */
module BqlLexer {
  import opened Text

  datatype Token = Word(value: string) | Quoted(value: string) | Punct(value: string)

  /** The C locale's white space. */
  predicate IsSpace(c: char) {
    c == ' ' || '\t' <= c <= '\r'
  }

  /** A dot that no word character follows: it ends a sentence and is no part of a word. */
  predicate IsStop(line: string, j: nat)
    requires j < |line|
  {
    line[j] == '.' && !(j + 1 < |line| && IsWordChar(line[j + 1]))
  }

  /** What ends a word: white space, a quote, a comma or a full stop. */
  predicate EndsWord(line: string, j: nat)
    requires j < |line|
  {
    IsSpace(line[j]) || line[j] == '"' || line[j] == ',' || IsStop(line, j)
  }

  function WordEnd(line: string, j: nat): (end: nat)
    requires j <= |line|
    ensures j <= end <= |line|
    decreases |line| - j
  {
    if j == |line| || EndsWord(line, j) then j else WordEnd(line, j + 1)
  }

  /** What the lexer reads at `i` -- nothing, if it is white space -- and where it goes on.
      An unterminated quote runs to the end of the line, one position beyond which it goes on. */
  function TokenAt(line: string, i: nat): (r: (Option<Token>, nat))
    requires i < |line|
    ensures i < r.1 <= |line| + 1
  {
    if IsSpace(line[i]) then (None, i + 1)
    else if line[i] == '"' then
      var close := FindChar(line, '"', i + 1);
      (Some(Quoted(line[i + 1..close])), close + 1)
    else if line[i] == ',' then (Some(Punct(",")), i + 1)
    else if IsStop(line, i) then (Some(Punct(".")), i + 1)
    else
      assert !EndsWord(line, i);
      (Some(Word(line[i..WordEnd(line, i)])), WordEnd(line, i))
  }

  function TokensFrom(line: string, i: nat): seq<Token>
    decreases |line| + 1 - i
  {
    if i >= |line| then []
    else
      var (t, next) := TokenAt(line, i);
      match t
      case None => TokensFrom(line, next)
      case Some(t) => [t] + TokensFrom(line, next)
  }

  function TokensOf(line: string): seq<Token> {
    TokensFrom(line, 0)
  }

  /** The inner loop: `j` moves to the end of one word. */
  method ScanWord(line: string, i: nat) returns (j: nat)
    requires i <= |line|
    ensures j == WordEnd(line, i)
  {
    j := i;
    while j < |line|
      invariant i <= j <= |line|
      invariant WordEnd(line, j) == WordEnd(line, i)
    {
      var next := line[j];
      if IsSpace(next) || next == '"' || next == ',' { break; }
      if next == '.' && !(j + 1 < |line| && IsWordChar(line[j + 1])) { break; }
      j := j + 1;
    }
  }

  method Tokenize(line: string) returns (tokens: seq<Token>)
    ensures tokens == TokensOf(line)
  {
    tokens := [];
    var n, i := |line|, 0;
    ghost var whole := TokensOf(line);
    while i < n
      invariant 0 <= i <= n + 1
      invariant tokens + TokensFrom(line, i) == whole
      decreases n + 1 - i
    {
      hide TokensFrom;
      Advance(line, i, tokens);
      var ch := line[i];
      if IsSpace(ch) {
        i := i + 1;
        continue;
      }
      if ch == '"' {
        var close := FindChar(line, '"', i + 1);
        tokens := tokens + [Quoted(line[i + 1..close])];
        i := close + 1;
        continue;
      }
      if ch == ',' {
        tokens := tokens + [Punct(",")];
        i := i + 1;
        continue;
      }
      if ch == '.' && !(i + 1 < n && IsWordChar(line[i + 1])) {
        tokens := tokens + [Punct(".")];
        i := i + 1;
        continue;
      }
      var j := ScanWord(line, i);
      tokens := tokens + [Word(line[i..j])];
      i := j;
    }
    assert tokens + [] == tokens;
  }

  lemma Advance(line: string, i: nat, acc: seq<Token>)
    requires i < |line|
    ensures var (t, next) := TokenAt(line, i);
            acc + TokensFrom(line, i) ==
            (match t case None => acc case Some(t) => acc + [t]) + TokensFrom(line, next)
  {
    hide TokenAt;
    var (t, next) := TokenAt(line, i);
    if t.Some? { Assoc(acc, [t.value], TokensFrom(line, next)); }
  }

  // ---------------------------------------------------------------------
  // Every token is well formed
  // ---------------------------------------------------------------------

  /** Non-empty, without white space, quote or comma, and every dot followed by a word character. */
  predicate WordText(v: string) {
    v != "" && forall j :: 0 <= j < |v| ==> !EndsWord(v, j)
  }

  predicate WellFormed(t: Token) {
    match t
    case Word(v) => WordText(v)
    case Quoted(v) => '"' !in v
    case Punct(v) => v == "," || v == "."
  }

  predicate AllWellFormed(ts: seq<Token>) {
    forall t :: t in ts ==> WellFormed(t)
  }

  lemma {:induction false} WordEndStops(line: string, j: nat)
    requires j <= |line|
    ensures forall k :: j <= k < WordEnd(line, j) ==> !EndsWord(line, k)
    ensures WordEnd(line, j) < |line| ==> EndsWord(line, WordEnd(line, j))
    decreases |line| - j
  {
    if j < |line| && !EndsWord(line, j) { WordEndStops(line, j + 1); }
  }

  lemma WordIsWellFormed(line: string, i: nat)
    requires i < |line| && !EndsWord(line, i)
    ensures i < WordEnd(line, i)
    ensures WordText(line[i..WordEnd(line, i)])
  {
    var end := WordEnd(line, i);
    var v := line[i..end];
    WordEndStops(line, i);
    forall j | 0 <= j < |v|
      ensures !EndsWord(v, j)
    {
      assert v[j] == line[i + j] && !EndsWord(line, i + j);
      if v[j] == '.' {
        assert !EndsWord(line, i + j + 1);
        assert v[j + 1] == line[i + j + 1];
      }
    }
  }

  lemma TokenIsWellFormed(line: string, i: nat)
    requires i < |line|
    ensures TokenAt(line, i).0.Some? ==> WellFormed(TokenAt(line, i).0.value)
  {
    if !EndsWord(line, i) { WordIsWellFormed(line, i); }
  }

  lemma {:induction false} TokensAreWellFormed(line: string, i: nat)
    ensures AllWellFormed(TokensFrom(line, i))
    decreases |line| + 1 - i
  {
    if i < |line| {
      TokenIsWellFormed(line, i);
      TokensAreWellFormed(line, TokenAt(line, i).1);
      hide TokenAt, WellFormed;
    }
  }

  // ---------------------------------------------------------------------
  // The tokens tile the line
  // ---------------------------------------------------------------------

  /** `t` is what line[i..j] spells: as long a word as it can be, a quoted text -- to the end of the line, if no quote
      closes it -- or one punctuation mark. */
  ghost predicate Spelled(line: string, i: nat, j: nat, t: Token) {
    i < |line| &&
    match t
    case Word(v) =>
      && i < j <= |line| && v == line[i..j] && (forall k :: i <= k < j ==> !EndsWord(line, k))
      && (j < |line| ==> EndsWord(line, j))
    case Quoted(v) =>
      && line[i] == '"' && '"' !in v
      && if j == |line| + 1 then v == line[i + 1..] else i + 1 < j <= |line| && line[j - 1] == '"' && v == line[i + 1..j - 1]
    case Punct(v) => j == i + 1 && ((v == "," && line[i] == ',') || (v == "." && IsStop(line, i)))
  }

  /** From `i` on the line is these tokens, each from at[k] to to[k], and else only white space. */
  ghost predicate Tiles(line: string, i: nat, ts: seq<Token>, at: seq<nat>, to: seq<nat>) {
    && |at| == |to| == |ts|
    && (forall k :: 0 <= k < |ts| ==> Spelled(line, at[k], to[k], ts[k]))
    && (forall k :: 0 <= k < |ts| ==> (if k == 0 then i else to[k - 1]) <= at[k])
    && (forall k, p :: 0 <= k < |ts| && (if k == 0 then i else to[k - 1]) <= p < at[k] ==> IsSpace(line[p]))
    && (forall p :: (if ts == [] then i else to[|ts| - 1]) <= p < |line| ==> IsSpace(line[p]))
  }

  lemma TokenIsSpelled(line: string, i: nat)
    requires i < |line| && TokenAt(line, i).0.Some?
    ensures Spelled(line, i, TokenAt(line, i).1, TokenAt(line, i).0.value)
  {
    if !EndsWord(line, i) { WordEndStops(line, i); }
  }

  lemma {:induction false} WordEndAt(line: string, i: nat, j: nat)
    requires i <= j <= |line| && (forall k :: i <= k < j ==> !EndsWord(line, k)) && (j < |line| ==> EndsWord(line, j))
    ensures WordEnd(line, i) == j
    decreases j - i
  {
    if i < j { WordEndAt(line, i + 1, j); }
  }

  lemma SpelledIsRead(line: string, i: nat, j: nat, t: Token)
    requires Spelled(line, i, j, t)
    ensures TokenAt(line, i) == (Some(t), j)
  {
    match t
    case Word(v) => WordEndAt(line, i, j);
    case Quoted(v) =>
      if j == |line| + 1 {
        NotFound(line, '"', i + 1);
        assert line[i + 1..|line|] == line[i + 1..];
      } else {
        FoundAt(line, '"', i + 1, j - 1);
      }
    case Punct(_) =>
  }

  lemma {:induction false} TileFrom(line: string, i: nat) returns (at: seq<nat>, to: seq<nat>)
    ensures Tiles(line, i, TokensFrom(line, i), at, to)
    decreases |line| + 1 - i
  {
    hide Tiles, Spelled, TokenAt;
    if i >= |line| {
      at, to := [], [];
      NothingToTile(line, i);
    } else {
      var (t, next) := TokenAt(line, i);
      at, to := TileFrom(line, next);
      if t.Some? {
        TokenIsSpelled(line, i);
        TilesMore(line, i, next, t.value, TokensFrom(line, next), at, to);
        at, to := [i] + at, [next] + to;
      } else {
        NoToken(line, i);
        TilesSpace(line, i, TokensFrom(line, next), at, to);
      }
    }
  }

  lemma NothingToTile(line: string, i: nat)
    requires i >= |line|
    ensures Tiles(line, i, [], [], [])
  {
  }

  lemma NoToken(line: string, i: nat)
    requires i < |line| && TokenAt(line, i).0.None?
    ensures IsSpace(line[i]) && TokenAt(line, i).1 == i + 1
  {
  }

  lemma TilesSpace(line: string, i: nat, ts: seq<Token>, at: seq<nat>, to: seq<nat>)
    requires i < |line| && IsSpace(line[i]) && Tiles(line, i + 1, ts, at, to)
    ensures Tiles(line, i, ts, at, to)
  {
    hide Spelled, IsSpace;
  }

  lemma TilesMore(line: string, i: nat, j: nat, t: Token, ts: seq<Token>, at: seq<nat>, to: seq<nat>)
    requires Spelled(line, i, j, t) && Tiles(line, j, ts, at, to)
    ensures Tiles(line, i, [t] + ts, [i] + at, [j] + to)
  {
    hide Spelled, IsSpace;
    var ts', at', to' := [t] + ts, [i] + at, [j] + to;
    assert forall k :: 1 <= k < |ts'| ==> ts'[k] == ts[k - 1] && at'[k] == at[k - 1] && to'[k] == to[k - 1];
  }

  lemma TilesRest(line: string, i: nat, ts: seq<Token>, at: seq<nat>, to: seq<nat>)
    requires ts != [] && Tiles(line, i, ts, at, to)
    ensures Tiles(line, to[0], ts[1..], at[1..], to[1..])
  {
    hide Spelled, IsSpace;
    var ts', at', to' := ts[1..], at[1..], to[1..];
    assert forall k :: 0 <= k < |ts'| ==> ts'[k] == ts[k + 1] && at'[k] == at[k + 1] && to'[k] == to[k + 1];
  }

  /** Where a tiling starts: with a token right there, with white space before the next, or at the end. */
  lemma TilesStart(line: string, i: nat, ts: seq<Token>, at: seq<nat>, to: seq<nat>)
    requires Tiles(line, i, ts, at, to)
    ensures |at| == |to| == |ts|
    ensures ts != [] ==> i <= at[0] < |line|
    ensures ts != [] && at[0] == i ==> Spelled(line, i, to[0], ts[0])
    ensures i < |line| && (ts == [] || at[0] != i) ==> IsSpace(line[i]) && Tiles(line, i + 1, ts, at, to)
  {
    hide IsSpace;
    assert ts != [] ==> Spelled(line, at[0], to[0], ts[0]);
  }

  lemma TokensUnfold(line: string, i: nat)
    ensures
      TokensFrom(line, i) ==
      if i >= |line| then []
      else (if TokenAt(line, i).0.None? then [] else [TokenAt(line, i).0.value]) + TokensFrom(line, TokenAt(line, i).1)
  {
    hide TokenAt;
    if i < |line| {
      var rest := TokensFrom(line, TokenAt(line, i).1);
      assert [] + rest == rest;
    }
  }

  lemma {:induction false} TilingIsUnique(line: string, i: nat, ts: seq<Token>, at: seq<nat>, to: seq<nat>)
    requires Tiles(line, i, ts, at, to)
    ensures TokensFrom(line, i) == ts
    decreases |line| + 1 - i
  {
    hide Tiles, TokenAt, TokensFrom, Spelled, IsSpace;
    TilesStart(line, i, ts, at, to);
    TokensUnfold(line, i);
    if ts != [] && at[0] == i {
      SpelledIsRead(line, i, to[0], ts[0]);
      TilesRest(line, i, ts, at, to);
      TilingIsUnique(line, to[0], ts[1..], at[1..], to[1..]);
      assert ts == [ts[0]] + ts[1..];
    } else if i < |line| {
      SpaceIsRead(line, i);
      TilingIsUnique(line, i + 1, ts, at, to);
      assert [] + ts == ts;
    }
  }

  lemma SpaceIsRead(line: string, i: nat)
    requires i < |line| && IsSpace(line[i])
    ensures TokenAt(line, i) == (None, i + 1)
  {
  }

  /** The tokens of a line are the one way to tile it: every character that is not white space lies in one of them. */
  lemma TokensIff(line: string, ts: seq<Token>)
    ensures TokensOf(line) == ts <==> exists at, to :: Tiles(line, 0, ts, at, to)
  {
    hide Tiles;
    if at, to :| Tiles(line, 0, ts, at, to) { TilingIsUnique(line, 0, ts, at, to); }
    var at, to := TileFrom(line, 0);
  }

  // ---------------------------------------------------------------------
  // Rendering and reading back
  // ---------------------------------------------------------------------

  function Show(t: Token): (s: string) {
    match t
    case Word(v) => v
    case Quoted(v) => "\"" + v + "\""
    case Punct(v) => v
  }

  /** The tokens with a single space between neighbours. */
  function Render(ts: seq<Token>): string {
    if ts == [] then ""
    else if |ts| == 1 then Show(ts[0])
    else Show(ts[0]) + " " + Render(ts[1..])
  }

  lemma EndsWordShift(pre: string, t: string, k: nat)
    requires k < |t|
    ensures EndsWord(pre + t, |pre| + k) == EndsWord(t, k)
    ensures IsStop(pre + t, |pre| + k) == IsStop(t, k)
  {
  }

  lemma {:induction false} WordEndShift(pre: string, t: string, k: nat)
    requires k <= |t|
    ensures WordEnd(pre + t, |pre| + k) == |pre| + WordEnd(t, k)
    decreases |t| - k
  {
    if k < |t| {
      EndsWordShift(pre, t, k);
      if !EndsWord(t, k) { WordEndShift(pre, t, k + 1); }
    }
  }

  lemma TokenAtShift(pre: string, t: string, k: nat)
    requires k < |t|
    ensures TokenAt(pre + t, |pre| + k) == (TokenAt(t, k).0, |pre| + TokenAt(t, k).1)
  {
    EndsWordShift(pre, t, k);
    if t[k] == '"' {
      FindCharShift(pre, t, '"', k + 1);
      ShiftSlice(pre, t, k + 1, FindChar(t, '"', k + 1));
    } else if !EndsWord(t, k) {
      WordEndShift(pre, t, k);
      ShiftSlice(pre, t, k, WordEnd(t, k));
    }
  }

  lemma {:induction false} TokensShift(pre: string, t: string, k: nat)
    ensures TokensFrom(pre + t, |pre| + k) == TokensFrom(t, k)
    decreases |t| + 1 - k
  {
    hide TokenAt;
    if k < |t| {
      TokenAtShift(pre, t, k);
      TokensShift(pre, t, TokenAt(t, k).1);
    }
  }

  /** What may follow a rendered token: nothing, or a space. */
  predicate Apart(rest: string) {
    rest == "" || rest[0] == ' '
  }

  lemma {:induction false} WordReads(v: string, rest: string, j: nat)
    requires j <= |v| && Apart(rest)
    requires forall k :: 0 <= k < |v| ==> !EndsWord(v, k)
    ensures WordEnd(v + rest, j) == |v|
    decreases |v| - j
  {
    if j < |v| {
      assert !EndsWord(v, j);
      assert (v + rest)[j] == v[j];
      if v[j] == '.' { assert (v + rest)[j + 1] == v[j + 1]; }
      WordReads(v, rest, j + 1);
    }
  }

  lemma QuotedReads(v: string, rest: string)
    requires '"' !in v
    ensures var line := "\"" + v + "\"" + rest;
            FindChar(line, '"', 1) == |v| + 1 && line[1..|v| + 1] == v
  {
    var line := "\"" + v + "\"" + rest;
    assert line == "\"" + (v + ("\"" + rest));
    ShiftSlice("\"", v + ("\"" + rest), 0, |v|);
    assert (v + ("\"" + rest))[0..|v|] == v;
    FoundAt(line, '"', 1, |v| + 1);
  }

  /** A well-formed token, followed by nothing or a space, is read back whole. */
  lemma TokenReads(t: Token, rest: string)
    requires WellFormed(t) && Apart(rest)
    ensures Show(t) != ""
    ensures TokenAt(Show(t) + rest, 0) == (Some(t), |Show(t)|)
  {
    var line := Show(t) + rest;
    match t
    case Word(v) =>
      WordReads(v, rest, 0);
      assert !EndsWord(v, 0);
      assert line[0] == v[0];
      if v[0] == '.' { assert line[1] == v[1]; }
      assert line[0..|v|] == v;
    case Quoted(v) =>
      QuotedReads(v, rest);
    case Punct(v) =>
      assert line[0] == v[0];
      if rest != "" { assert line[1] == rest[0]; }
  }

  lemma TokenThen(t: Token, rest: string)
    requires WellFormed(t) && Apart(rest)
    ensures TokensOf(Show(t) + rest) == [t] + TokensOf(rest)
  {
    TokenReads(t, rest);
    TokensShift(Show(t), rest, 0);
    hide TokenAt, Show, WellFormed, Apart;
  }

  lemma SpaceThen(rest: string)
    ensures TokensOf(" " + rest) == TokensOf(rest)
  {
    TokensShift(" ", rest, 0);
  }

  /** Rendering any well-formed token list and tokenizing it gives the list back. */
  lemma {:induction false} RenderReadsBack(ts: seq<Token>)
    requires AllWellFormed(ts)
    ensures TokensOf(Render(ts)) == ts
  {
    hide Show, WellFormed, TokensOf;
    if ts == [] {
      assert TokensOf("") == [] by { EmptyLine(); }
    } else if |ts| == 1 {
      TokenThen(ts[0], "");
      EmptyLine();
      assert Show(ts[0]) + "" == Show(ts[0]);
    } else {
      RenderReadsBack(ts[1..]);
      SpaceThen(Render(ts[1..]));
      TokenThen(ts[0], " " + Render(ts[1..]));
      Assoc(Show(ts[0]), " ", Render(ts[1..]));
    }
  }

  lemma EmptyLine()
    ensures TokensOf("") == []
  {
  }

  /** Every line reads the same as its normal form: its tokens with single spaces between them. */
  lemma NormalForm(line: string)
    ensures AllWellFormed(TokensOf(line))
    ensures TokensOf(Render(TokensOf(line))) == TokensOf(line)
  {
    TokensAreWellFormed(line, 0);
    RenderReadsBack(TokensOf(line));
  }
}

/**
 Exactly which queries the translation back to MySQL keeps: those without a backslash in a value.

 The machine drops the first backslash in a value, and neither it nor MySQL ever makes one up, so MySQL
 reads fewer of them than standard SQL does.
 */
module Backslashes {
  import opened Bytes
  import opened Lexers
  import opened Quotes

  // ----- Counting -----

  function Count(s: string): nat {
    if s == "" then 0 else Count(s[..|s| - 1]) + if s[|s| - 1] == BACKSLASH then 1 else 0
  }

  lemma {:induction false} CountAppend(s: string, t: string)
    ensures Count(s + t) == Count(s) + Count(t)
  {
    if t == "" {
      assert s + t == s;
    } else {
      assert (s + t)[..|s + t| - 1] == s + t[..|t| - 1];
      CountAppend(s, t[..|t| - 1]);
    }
  }

  function CountOne(c: char): nat {
    if c == BACKSLASH then 1 else 0
  }

  lemma {:induction false} CountChar(s: string, c: char)
    ensures Count([c]) == CountOne(c) && Count(s + [c]) == Count(s) + CountOne(c)
  {
    assert [c][..0] == "";
    CountAppend(s, [c]);
  }

  lemma {:induction false} CountPair(c: char, d: char)
    ensures Count([c, d]) == CountOne(c) + CountOne(d)
  {
    CountChar("", c);
    CountChar([c], d);
    assert [c] + [d] == [c, d];
  }

  function CountToken(t: Token): nat {
    match t
    case Other(c) => CountOne(c)
    case Quoted(_, v) => Count(v)
  }

  function CountTokens(ts: seq<Token>): nat {
    if ts == [] then 0 else CountTokens(ts[..|ts| - 1]) + CountToken(ts[|ts| - 1])
  }

  lemma {:induction false} CountTokensAppend(ts: seq<Token>, t: Token)
    ensures CountTokens(ts + [t]) == CountTokens(ts) + CountToken(t)
  {
    assert (ts + [t])[..|ts|] == ts;
  }

  // ----- Standard SQL reads every backslash -----

  function CountAn(a: An): nat {
    CountTokens(a.tokens) +
    match a.mode
    case AnOut => 0
    case AnIn(_, v) => Count(v)
    case AnClosed(_, v) => Count(v)
  }

  lemma {:induction false} CountAnStep(a: An, c: char)
    ensures CountAn(AnStep(a, c)) == CountAn(a) + CountOne(c)
  {
    match a.mode
    case AnOut =>
      CountTokensAppend(a.tokens, Other(c));
    case AnIn(_, v) =>
      CountChar(v, c);
    case AnClosed(k, v) =>
      CountChar(v, c);
      var ts := a.tokens + [Quoted(k, v)];
      CountTokensAppend(a.tokens, Quoted(k, v));
      CountTokensAppend(ts, Other(c));
  }

  lemma {:induction false} CountAnRun(q: string)
    ensures CountAn(AnRun(q)) == Count(q)
  {
    if q != "" {
      CountAnRun(q[..|q| - 1]);
      CountAnStep(AnRun(q[..|q| - 1]), q[|q| - 1]);
    }
  }

  lemma {:induction false} CountAnTokens(q: string)
    requires AnTokens(q).Some?
    ensures CountTokens(AnTokens(q).value) == Count(q)
  {
    CountAnRun(q);
    var a := AnRun(q);
    if a.mode.AnClosed? {
      CountTokensAppend(a.tokens, Quoted(a.mode.kind, a.mode.value));
    }
  }

  // ----- MySQL reads no more than there are -----

  function CountMy(m: My): nat {
    CountTokens(m.tokens) +
    match m.mode
    case MyOut => 0
    case MyIn(_, escaped, v) => Count(v) + if escaped then 1 else 0
    case MyClosed(_, v) => Count(v)
  }

  lemma {:induction false} CountUnescaped(c: char)
    ensures Count(Unescape(c)) <= 1 + CountOne(c)
  {
    if Unescape(c) == [c] {
      CountChar("", c);
    } else if c == '%' || c == '_' {
      CountPair(BACKSLASH, c);
      assert Unescape(c) == [BACKSLASH, c];
    } else {
      var x := Unescape(c)[0];
      assert Unescape(c) == [x];
      CountChar("", x);
    }
  }

  lemma {:induction false} CountMyStart(tokens: seq<Token>, c: char)
    ensures CountMy(MyStart(tokens, c)) == CountTokens(tokens) + CountOne(c)
  {
    CountTokensAppend(tokens, Other(c));
  }

  lemma {:induction false} CountMyStep(m: My, c: char)
    ensures CountMy(MyStep(m, c)) <= CountMy(m) + CountOne(c)
  {
    match m.mode
    case MyOut =>
      CountMyStart(m.tokens, c);
    case MyIn(_, _, v) =>
      CountUnescaped(c);
      CountAppend(v, Unescape(c));
      CountChar(v, c);
    case MyClosed(quote, v) =>
      CountChar(v, quote);
      CountTokensAppend(m.tokens, Quoted(Lexers.KindOf(quote), v));
      CountMyStart(m.tokens + [Quoted(Lexers.KindOf(quote), v)], c);
  }

  lemma {:induction false} CountMyRun(q: string)
    ensures CountMy(MyRun(q)) <= Count(q)
  {
    if q != "" {
      CountMyRun(q[..|q| - 1]);
      CountMyStep(MyRun(q[..|q| - 1]), q[|q| - 1]);
    }
  }

  lemma {:induction false} CountMyTokens(q: string)
    requires MyTokens(q).Some?
    ensures CountTokens(MyTokens(q).value) <= Count(q)
  {
    CountMyRun(q);
    var m := MyRun(q);
    if m.mode.MyClosed? {
      CountTokensAppend(m.tokens, Quoted(Lexers.KindOf(m.mode.quote), m.mode.value));
    }
  }

  // ----- The machine drops the first one in a value -----

  /** A character that is no stray quote and no quote right behind a closed one. */
  predicate NoLooseQuote(a: An, c: char) {
    match a.mode
    case AnOut => c != BACKTICK
    case AnIn(_, _) => true
    case AnClosed(k, _) => c == QuoteOf(k) || !IsQuote(c)
  }

  predicate Tidy(q: string) {
    q == "" || (Tidy(q[..|q| - 1]) && NoLooseQuote(AnRun(q[..|q| - 1]), q[|q| - 1]))
  }

  /** Standard SQL finds a backslash in a value. */
  predicate BackslashInside(q: string) {
    q != "" &&
    (BackslashInside(q[..|q| - 1]) || (AnRun(q[..|q| - 1]).mode.AnIn? && q[|q| - 1] == BACKSLASH))
  }

  lemma {:induction false} TransferableMeans(q: string)
    ensures Transferable(q) <==> Tidy(q) && !BackslashInside(q)
  {
    if q != "" {
      TransferableMeans(q[..|q| - 1]);
    }
  }

  lemma {:induction false} CountPut(state: ParserState, escaped: bool, c: char)
    ensures Count(DenormalizeMove(state, escaped, c).put) <= CountOne(c)
  {
    var put := DenormalizeMove(state, escaped, c).put;
    if |put| == 1 {
      CountChar("", put[0]);
      assert put == [put[0]];
    } else if |put| == 2 {
      CountPair(put[0], put[1]);
      assert put == [put[0], put[1]];
    }
  }

  lemma {:induction false} CountDenormalized(q: string)
    requires Tidy(q)
    ensures Count(DenormalizeRun(q).out) <= Count(q)
    ensures BackslashInside(q) ==> Count(DenormalizeRun(q).out) < Count(q)
  {
    if q != "" {
      var front, c := q[..|q| - 1], q[|q| - 1];
      var d := DenormalizeRun(front);
      CountDenormalized(front);
      CountPut(d.state, d.escaped, c);
      CountAppend(d.out, DenormalizeMove(d.state, d.escaped, c).put);
      if BackslashInside(q) && !BackslashInside(front) {
        TransferableMeans(front);
        DenormalizeFollows(front);
        assert DenormalizeMove(d.state, d.escaped, c).put == "";
      }
    }
  }

  lemma {:induction false} CountDenormalizedEnd(m: Machine)
    ensures Count(DenormalizeEnd(m)) == Count(m.out)
  {
    CountChar(m.out, SINGLE);
    CountChar(m.out, BACKTICK);
  }

  /**
   For every query without stray or adjacent quotes that leaves no quote open, MySQL reads the translation
   back as standard SQL reads the query if and only if no value has a backslash.
   */
  lemma {:induction false} DenormalizeExact(q: string)
    requires Tidy(q) && AnTokens(q).Some?
    ensures MyTokens(Denormalized(q)) == AnTokens(q) <==> !BackslashInside(q)
  {
    TransferableMeans(q);
    if BackslashInside(q) {
      CountDenormalized(q);
      CountDenormalizedEnd(DenormalizeRun(q));
      CountAnTokens(q);
      if MyTokens(Denormalized(q)).Some? {
        CountMyTokens(Denormalized(q));
      }
    } else {
      DenormalizePreservesTokens(q);
    }
  }

  lemma {:induction false} InsideAppend(q: string, c: char)
    requires Tidy(q) && NoLooseQuote(AnRun(q), c)
    ensures Tidy(q + [c])
    ensures BackslashInside(q + [c]) <==> BackslashInside(q) || (AnRun(q).mode.AnIn? && c == BACKSLASH)
  {
    assert (q + [c])[..|q|] == q;
  }

  lemma {:induction false} PlainText(v: string)
    requires SINGLE !in v
    ensures var q := [SINGLE] + [BACKSLASH] + v;
            AnRun(q) == An([], AnIn(Text, [BACKSLASH] + v)) && Tidy(q) && BackslashInside(q)
  {
    var start := [SINGLE] + [BACKSLASH];
    if v == "" {
      AnRunAppend("", SINGLE);
      InsideAppend("", SINGLE);
      assert "" + [SINGLE] == [SINGLE];
      AnRunAppend([SINGLE], BACKSLASH);
      InsideAppend([SINGLE], BACKSLASH);
      assert start + v == start && "" + [BACKSLASH] == [BACKSLASH] + v;
    } else {
      var n := |v| - 1;
      PlainText(v[..n]);
      AnRunAppend(start + v[..n], v[n]);
      InsideAppend(start + v[..n], v[n]);
      assert start + v == start + v[..n] + [v[n]];
      assert [BACKSLASH] + v == [BACKSLASH] + v[..n] + [v[n]];
    }
  }

  /** Every text of a backslash and characters other than quotes fails to come back. */
  lemma {:induction false} BackslashIsLost(v: string)
    requires SINGLE !in v
    ensures var q, t := [SINGLE] + [BACKSLASH] + v + [SINGLE], Quoted(Text, [BACKSLASH] + v);
            AnTokens(q) == Some([t]) && MyTokens(Denormalized(q)) != Some([t])
  {
    var q := [SINGLE] + [BACKSLASH] + v;
    PlainText(v);
    AnRunAppend(q, SINGLE);
    InsideAppend(q, SINGLE);
    assert [] + [Quoted(Text, [BACKSLASH] + v)] == [Quoted(Text, [BACKSLASH] + v)];
    DenormalizeExact(q + [SINGLE]);
  }
}

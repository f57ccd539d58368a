/**
 What the quote characters of a query mean, to MySQL and to a database that reads standard SQL.

 A query is read into tokens: the value of a string, the value of a quoted name, or any other
 character by itself.
 */
module Lexers {
  import opened Bytes

  datatype Kind = Text | Name

  datatype Token = Other(c: char) | Quoted(kind: Kind, value: string)

  const SINGLE := '\''
  const DOUBLE := '"'
  const BACKTICK := '`'
  const BACKSLASH := '\\'

  predicate IsQuote(c: char) {
    c == SINGLE || c == DOUBLE || c == BACKTICK
  }

  // ----- MySQL -----

  /** `quote` is the quote that opened the token, `escaped` tells of a backslash just before. */
  datatype MyMode =
    | MyOut
    | MyIn(quote: char, escaped: bool, value: string)
    | MyClosed(quote: char, value: string)

  function KindOf(quote: char): Kind {
    if quote == BACKTICK then Name else Text
  }

  datatype My = My(tokens: seq<Token>, mode: MyMode)

  /** What a character means behind a backslash; the pattern characters keep the backslash. */
  function Unescape(c: char): string {
    match c
    case '0' => "\0"
    case 'b' => [8 as char]
    case 'n' => "\n"
    case 'r' => "\r"
    case 't' => "\t"
    case 'Z' => [26 as char]
    case '%' => "\\%"
    case '_' => "\\_"
    case _ => [c]
  }

  function MyStart(tokens: seq<Token>, c: char): My {
    if IsQuote(c) then My(tokens, MyIn(c, false, "")) else My(tokens + [Other(c)], MyOut)
  }

  /** A quote ends the token unless it is doubled; a backslash escapes in texts only. */
  function MyStep(m: My, c: char): My {
    match m.mode
    case MyOut => MyStart(m.tokens, c)
    case MyIn(quote, escaped, v) =>
      if escaped then m.(mode := MyIn(quote, false, v + Unescape(c)))
      else if c == BACKSLASH && quote != BACKTICK then m.(mode := MyIn(quote, true, v))
      else if c == quote then m.(mode := MyClosed(quote, v))
      else m.(mode := MyIn(quote, false, v + [c]))
    case MyClosed(quote, v) =>
      if c == quote then m.(mode := MyIn(quote, false, v + [quote]))
      else MyStart(m.tokens + [Quoted(KindOf(quote), v)], c)
  }

  function MyRun(q: string): My {
    if q == "" then My([], MyOut) else MyStep(MyRun(q[..|q| - 1]), q[|q| - 1])
  }

  function MyEnd(m: My): Option<seq<Token>> {
    match m.mode
    case MyOut => Some(m.tokens)
    case MyClosed(quote, v) => Some(m.tokens + [Quoted(KindOf(quote), v)])
    case MyIn(_, _, _) => None
  }

  /** How MySQL reads a query; nothing if a quote is left open. */
  function MyTokens(q: string): Option<seq<Token>> {
    MyEnd(MyRun(q))
  }

  // ----- Standard SQL -----

  datatype AnMode = AnOut | AnIn(kind: Kind, value: string) | AnClosed(kind: Kind, value: string)

  datatype An = An(tokens: seq<Token>, mode: AnMode)

  function QuoteOf(k: Kind): char {
    if k.Text? then SINGLE else DOUBLE
  }

  function AnStart(tokens: seq<Token>, c: char): An {
    if c == SINGLE then An(tokens, AnIn(Text, ""))
    else if c == DOUBLE then An(tokens, AnIn(Name, ""))
    else An(tokens + [Other(c)], AnOut)
  }

  function AnStep(a: An, c: char): An {
    match a.mode
    case AnOut => AnStart(a.tokens, c)
    case AnIn(k, v) =>
      if c == QuoteOf(k) then a.(mode := AnClosed(k, v)) else a.(mode := AnIn(k, v + [c]))
    case AnClosed(k, v) =>
      if c == QuoteOf(k) then a.(mode := AnIn(k, v + [c])) else AnStart(a.tokens + [Quoted(k, v)], c)
  }

  function AnRun(q: string): An {
    if q == "" then An([], AnOut) else AnStep(AnRun(q[..|q| - 1]), q[|q| - 1])
  }

  function AnEnd(a: An): Option<seq<Token>> {
    match a.mode
    case AnOut => Some(a.tokens)
    case AnClosed(k, v) => Some(a.tokens + [Quoted(k, v)])
    case AnIn(_, _) => None
  }

  /** How standard SQL reads a query. */
  function AnTokens(q: string): Option<seq<Token>> {
    AnEnd(AnRun(q))
  }

  lemma {:induction false} AnRunAppend(q: string, c: char)
    ensures AnRun(q + [c]) == AnStep(AnRun(q), c)
  {
    assert (q + [c])[..|q|] == q;
  }

  lemma {:induction false} MyRunAppend(q: string, c: char)
    ensures MyRun(q + [c]) == MyStep(MyRun(q), c)
  {
    assert (q + [c])[..|q|] == q;
  }

  // ----- Spelling -----

  function Repeated(c: char, quote: char): string {
    if c == quote then [c, c] else [c]
  }

  /** The value with each of its quotes doubled. */
  function Doubled(v: string, quote: char): string {
    if v == "" then "" else Doubled(v[..|v| - 1], quote) + Repeated(v[|v| - 1], quote)
  }

  /** A quoted token without its closing quote. */
  function Open(k: Kind, v: string): string {
    [QuoteOf(k)] + Doubled(v, QuoteOf(k))
  }

  function SpellToken(t: Token): string {
    match t
    case Other(c) => [c]
    case Quoted(k, v) => Open(k, v) + [QuoteOf(k)]
  }

  /** Tokens in standard SQL. */
  function Spell(ts: seq<Token>): string {
    if ts == [] then "" else Spell(ts[..|ts| - 1]) + SpellToken(ts[|ts| - 1])
  }

  lemma {:induction false} SpellAppend(ts: seq<Token>, t: Token)
    ensures Spell(ts + [t]) == Spell(ts) + SpellToken(t)
  {
    assert (ts + [t])[..|ts|] == ts;
  }

  /** A closed token is an open one and its quote. */
  lemma {:induction false} SpellClosed(ts: seq<Token>, k: Kind, v: string)
    ensures Spell(ts + [Quoted(k, v)]) == Spell(ts) + Open(k, v) + [QuoteOf(k)]
  {
    SpellAppend(ts, Quoted(k, v));
    Regroup(Spell(ts), Open(k, v), [QuoteOf(k)]);
  }

  lemma {:induction false} OpenAppend(k: Kind, v: string, c: char)
    ensures Open(k, v + [c]) == Open(k, v) + Repeated(c, QuoteOf(k))
  {
    assert (v + [c])[..|v|] == v;
    Regroup([QuoteOf(k)], Doubled(v, QuoteOf(k)), Repeated(c, QuoteOf(k)));
  }

  lemma {:induction false} OpenEmpty(k: Kind)
    ensures Open(k, "") == [QuoteOf(k)]
  {
  }

  /** What standard SQL has read so far, spelled out. */
  function SpellAn(a: An): string {
    match a.mode
    case AnOut => Spell(a.tokens)
    case AnIn(k, v) => Spell(a.tokens) + Open(k, v)
    case AnClosed(k, v) => Spell(a.tokens + [Quoted(k, v)])
  }

  lemma {:induction false} SpellStart(tokens: seq<Token>, c: char)
    ensures SpellAn(AnStart(tokens, c)) == Spell(tokens) + [c]
  {
    SpellAppend(tokens, Other(c));
    OpenEmpty(Text);
    OpenEmpty(Name);
  }

  lemma {:induction false} SpellIn(ts: seq<Token>, k: Kind, v: string, c: char)
    ensures Spell(ts) + Open(k, v + [c]) == Spell(ts) + Open(k, v) + Repeated(c, QuoteOf(k))
  {
    OpenAppend(k, v, c);
    Regroup(Spell(ts), Open(k, v), Repeated(c, QuoteOf(k)));
  }

  lemma {:induction false} SpellStep(a: An, c: char)
    ensures SpellAn(AnStep(a, c)) == SpellAn(a) + [c]
  {
    match a.mode
    case AnOut =>
      SpellStart(a.tokens, c);
    case AnIn(k, v) =>
      SpellClosed(a.tokens, k, v);
      SpellIn(a.tokens, k, v, c);
    case AnClosed(k, v) =>
      if c == QuoteOf(k) {
        SpellClosed(a.tokens, k, v);
        SpellIn(a.tokens, k, v, c);
        Regroup(Spell(a.tokens) + Open(k, v), [c], [c]);
      } else {
        SpellStart(a.tokens + [Quoted(k, v)], c);
      }
  }

  lemma {:induction false} RunIsSpelled(q: string)
    ensures SpellAn(AnRun(q)) == q
  {
    if q != "" {
      RunIsSpelled(q[..|q| - 1]);
      SpellStep(AnRun(q[..|q| - 1]), q[|q| - 1]);
      assert q == q[..|q| - 1] + [q[|q| - 1]];
    }
  }

  /** Standard SQL has one spelling only: what reads as these tokens is their spelling. */
  lemma {:induction false} ReadingIsSpelling(q: string, ts: seq<Token>)
    requires AnTokens(q) == Some(ts)
    ensures q == Spell(ts)
  {
    RunIsSpelled(q);
  }

  // ----- Reading a spelling -----

  /** A quoted token can be opened: none has just ended. */
  predicate Ready(ts: seq<Token>) {
    ts == [] || ts[|ts| - 1].Other?
  }

  /** No quoted token follows another, and no other character is a quote. */
  predicate Apart(ts: seq<Token>) {
    ts == [] ||
    (var n := |ts| - 1;
     Apart(ts[..n]) && match ts[n]
                       case Other(c) => !IsQuote(c)
                       case Quoted(_, _) => Ready(ts[..n]))
  }

  /** The state behind the spelling of tokens: the last quote may still turn out to be doubled. */
  function Behind(ts: seq<Token>): An {
    if Ready(ts) then An(ts, AnOut)
    else
      var n := |ts| - 1;
      An(ts[..n], AnClosed(ts[n].kind, ts[n].value))
  }

  lemma {:induction false} ReadDoubled(q: string, tokens: seq<Token>, k: Kind, v: string)
    requires AnRun(q) == An(tokens, AnIn(k, ""))
    ensures AnRun(q + Doubled(v, QuoteOf(k))) == An(tokens, AnIn(k, v))
  {
    if v == "" {
      assert q + Doubled(v, QuoteOf(k)) == q;
    } else {
      var n, quote := |v| - 1, QuoteOf(k);
      var front := Doubled(v[..n], quote);
      ReadDoubled(q, tokens, k, v[..n]);
      ReadRepeated(q + front, tokens, k, v[..n], v[n]);
      assert q + Doubled(v, quote) == q + front + Repeated(v[n], quote);
      assert v == v[..n] + [v[n]];
    }
  }

  lemma {:induction false} ReadRepeated(q: string, tokens: seq<Token>, k: Kind, v: string, c: char)
    requires AnRun(q) == An(tokens, AnIn(k, v))
    ensures AnRun(q + Repeated(c, QuoteOf(k))) == An(tokens, AnIn(k, v + [c]))
  {
    AnRunAppend(q, c);
    if c == QuoteOf(k) {
      AnRunAppend(q + [c], c);
      assert q + Repeated(c, c) == q + [c] + [c];
    }
  }

  lemma {:induction false} ReadOpen(ts: seq<Token>, k: Kind, v: string)
    requires AnRun(Spell(ts)) == Behind(ts) && Ready(ts)
    ensures AnRun(Spell(ts) + Open(k, v)) == An(ts, AnIn(k, v))
  {
    var q := QuoteOf(k);
    AnRunAppend(Spell(ts), q);
    ReadDoubled(Spell(ts) + [q], ts, k, v);
    Regroup(Spell(ts), [q], Doubled(v, q));
  }

  lemma {:induction false} BehindAppend(ts: seq<Token>, t: Token)
    ensures Behind(ts + [t]) ==
            match t { case Other(_) => An(ts + [t], AnOut) case Quoted(k, v) => An(ts, AnClosed(k, v)) }
  {
    assert (ts + [t])[..|ts|] == ts;
  }

  lemma {:induction false} StepBehind(ts: seq<Token>, c: char)
    requires !IsQuote(c)
    ensures AnStep(Behind(ts), c) == An(ts + [Other(c)], AnOut)
  {
    if !Ready(ts) {
      var n := |ts| - 1;
      assert ts == ts[..n] + [Quoted(ts[n].kind, ts[n].value)];
    }
  }

  lemma {:induction false} ReadOther(ts: seq<Token>, c: char)
    requires AnRun(Spell(ts)) == Behind(ts) && !IsQuote(c)
    ensures AnRun(Spell(ts + [Other(c)])) == Behind(ts + [Other(c)])
  {
    SpellAppend(ts, Other(c));
    AnRunAppend(Spell(ts), c);
    StepBehind(ts, c);
    BehindAppend(ts, Other(c));
  }

  lemma {:induction false} ReadQuoted(ts: seq<Token>, k: Kind, v: string)
    requires AnRun(Spell(ts)) == Behind(ts) && Ready(ts)
    ensures AnRun(Spell(ts + [Quoted(k, v)])) == Behind(ts + [Quoted(k, v)])
  {
    ReadOpen(ts, k, v);
    AnRunAppend(Spell(ts) + Open(k, v), QuoteOf(k));
    SpellClosed(ts, k, v);
    BehindAppend(ts, Quoted(k, v));
  }

  lemma {:induction false} ReadLast(ts: seq<Token>, front: seq<Token>, t: Token)
    requires ts == front + [t] && AnRun(Spell(front)) == Behind(front)
    requires match t { case Other(c) => !IsQuote(c) case Quoted(_, _) => Ready(front) }
    ensures AnRun(Spell(ts)) == Behind(ts)
  {
    match t
    case Other(c) => ReadOther(front, c);
    case Quoted(k, v) => ReadQuoted(front, k, v);
  }

  lemma {:induction false} ReadSpelling(ts: seq<Token>)
    requires Apart(ts)
    ensures AnRun(Spell(ts)) == Behind(ts)
  {
    if ts != [] {
      var n := |ts| - 1;
      ReadSpelling(ts[..n]);
      ReadLast(ts, ts[..n], ts[n]);
    }
  }

  lemma {:induction false} BehindEnds(ts: seq<Token>)
    ensures AnEnd(Behind(ts)) == Some(ts)
  {
    if !Ready(ts) {
      var n := |ts| - 1;
      assert ts[n] == Quoted(ts[n].kind, ts[n].value);
      assert ts[..n] + [ts[n]] == ts;
    }
  }

  /** Reading a spelling gives the tokens back. */
  lemma {:induction false} SpellingReadsBack(ts: seq<Token>)
    requires Apart(ts)
    ensures AnTokens(Spell(ts)) == Some(ts)
  {
    ReadSpelling(ts);
    BehindEnds(ts);
  }
}

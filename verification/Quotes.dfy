/**
 The translation of quotes between MySQL and standard SQL (`transpiler/converter.go`): two machines
 that read a query character by character and write as they go.
 */
module Quotes {
  import opened Bytes
  import opened Lexers

  datatype ParserState =
    | NotInString
    | InDoubleQuote
    | MaybeEndDoubleQuote
    | InSingleQuote
    | MaybeEndSingleQuote
    | InBackticks
    | MaybeEndBackticks

  /** The next state of a machine, and what it writes. */
  datatype Move = Move(state: ParserState, escaped: bool, put: string)

  /** The variables of both loops. */
  datatype Machine = Machine(state: ParserState, escaped: bool, out: string)

  const START := Machine(NotInString, false, "")

  function Moved(m: Machine, move: Move): Machine {
    Machine(move.state, move.escaped, m.out + move.put)
  }

  // ----- MySQL to standard SQL -----

  function NormalizeMove(state: ParserState, escaped: bool, c: char): Move {
    match state
    case NotInString =>
      if c == SINGLE then Move(InSingleQuote, escaped, [SINGLE])
      else if c == DOUBLE then Move(InDoubleQuote, escaped, [SINGLE])
      else if c == BACKTICK then Move(InBackticks, escaped, [DOUBLE])
      else Move(NotInString, escaped, [c])
    case InDoubleQuote =>
      if c == BACKSLASH then Move(InDoubleQuote, !escaped, if escaped then [c] else "")
      else if c == DOUBLE then
        if escaped then Move(InDoubleQuote, false, [c]) else Move(MaybeEndDoubleQuote, false, "")
      else if c == SINGLE then Move(InDoubleQuote, false, [SINGLE, SINGLE])
      else Move(InDoubleQuote, false, [c])
    case MaybeEndDoubleQuote =>
      if c == DOUBLE then Move(InDoubleQuote, escaped, [DOUBLE])
      else Move(NotInString, escaped, [SINGLE, c])
    case InSingleQuote =>
      if c == BACKSLASH then Move(InSingleQuote, !escaped, if escaped then [c] else "")
      else if c == SINGLE then
        if escaped then Move(InSingleQuote, false, [c, c]) else Move(MaybeEndSingleQuote, false, "")
      else Move(InSingleQuote, false, [c])
    case MaybeEndSingleQuote =>
      if c == SINGLE then Move(InSingleQuote, escaped, [SINGLE, SINGLE])
      else Move(NotInString, escaped, [SINGLE, c])
    case InBackticks =>
      if c == BACKTICK then Move(MaybeEndBackticks, escaped, "") else Move(InBackticks, escaped, [c])
    case MaybeEndBackticks =>
      if c == BACKTICK then Move(InBackticks, escaped, [BACKTICK])
      else Move(NotInString, escaped, [DOUBLE, c])
  }

  function NormalizeRun(q: string): Machine {
    if q == "" then START
    else
      var m := NormalizeRun(q[..|q| - 1]);
      Moved(m, NormalizeMove(m.state, m.escaped, q[|q| - 1]))
  }

  function NormalizeEnd(m: Machine): string {
    match m.state
    case MaybeEndDoubleQuote => m.out + [SINGLE]
    case MaybeEndSingleQuote => m.out + [SINGLE]
    case MaybeEndBackticks => m.out + [DOUBLE]
    case _ => m.out
  }

  function Normalized(q: string): string {
    NormalizeEnd(NormalizeRun(q))
  }

  method NormalizeStrings(q: string) returns (normalized: string)
    ensures normalized == Normalized(q)
  {
    var state := NotInString;
    var lastCharWasBackslash := false;
    normalized := "";
    for i := 0 to |q|
      invariant Machine(state, lastCharWasBackslash, normalized) == NormalizeRun(q[..i])
    {
      assert q[..i + 1][..i] == q[..i];
      ghost var before := normalized;
      var c := q[i];
      match state
      case NotInString =>
        if c == SINGLE {
          state, normalized := InSingleQuote, normalized + [SINGLE];
        } else if c == DOUBLE {
          state, normalized := InDoubleQuote, normalized + [SINGLE];
        } else if c == BACKTICK {
          state, normalized := InBackticks, normalized + [DOUBLE];
        } else {
          normalized := normalized + [c];
        }
      case InDoubleQuote =>
        if c == BACKSLASH {
          normalized := if lastCharWasBackslash then normalized + [c] else normalized;
          lastCharWasBackslash := !lastCharWasBackslash;
        } else if c == DOUBLE {
          if lastCharWasBackslash {
            normalized, lastCharWasBackslash := normalized + [c], false;
          } else {
            state := MaybeEndDoubleQuote;
          }
        } else if c == SINGLE {
          normalized, lastCharWasBackslash := normalized + [SINGLE, SINGLE], false;
        } else {
          normalized, lastCharWasBackslash := normalized + [c], false;
        }
      case MaybeEndDoubleQuote =>
        if c == DOUBLE {
          state, normalized := InDoubleQuote, normalized + [DOUBLE];
        } else {
          state, normalized := NotInString, normalized + [SINGLE, c];
        }
      case InSingleQuote =>
        if c == BACKSLASH {
          normalized := if lastCharWasBackslash then normalized + [c] else normalized;
          lastCharWasBackslash := !lastCharWasBackslash;
        } else if c == SINGLE {
          if lastCharWasBackslash {
            normalized, lastCharWasBackslash := normalized + [c, c], false;
          } else {
            state := MaybeEndSingleQuote;
          }
        } else {
          normalized, lastCharWasBackslash := normalized + [c], false;
        }
      case MaybeEndSingleQuote =>
        if c == SINGLE {
          state, normalized := InSingleQuote, normalized + [SINGLE, SINGLE];
        } else {
          state, normalized := NotInString, normalized + [SINGLE, c];
        }
      case InBackticks =>
        if c == BACKTICK {
          state := MaybeEndBackticks;
        } else {
          normalized := normalized + [c];
        }
      case MaybeEndBackticks =>
        if c == BACKTICK {
          state, normalized := InBackticks, normalized + [BACKTICK];
        } else {
          state, normalized := NotInString, normalized + [DOUBLE, c];
        }
      assert before + "" == before;
    }
    assert q[..|q|] == q;
    if state == MaybeEndDoubleQuote || state == MaybeEndSingleQuote {
      normalized := normalized + [SINGLE];
    } else if state == MaybeEndBackticks {
      normalized := normalized + [DOUBLE];
    }
  }

  // ----- The machine follows MySQL -----

  /** Behind a closed quote comes the same quote again, or no quote. */
  predicate KeepsApart(m: My, c: char) {
    m.mode.MyClosed? ==> c == m.mode.quote || !IsQuote(c)
  }

  predicate Separated(q: string) {
    q == "" || (Separated(q[..|q| - 1]) && KeepsApart(MyRun(q[..|q| - 1]), q[|q| - 1]))
  }

  /** A character that the machine copies the way MySQL means it. */
  predicate Plain(m: My, c: char) {
    m.mode.MyIn? ==>
      && (m.mode.escaped ==> Unescape(c) == [c])
      && (m.mode.quote == BACKTICK ==> c != DOUBLE)
  }

  /** No escape but of characters that stand for themselves, and no double quote in a name. */
  predicate Faithful(q: string) {
    q == "" || (Faithful(q[..|q| - 1]) && Plain(MyRun(q[..|q| - 1]), q[|q| - 1]))
  }

  predicate Follows(state: ParserState, escaped: bool, m: My) {
    match state
    case NotInString => m.mode.MyOut? && !escaped
    case InDoubleQuote => m.mode.MyIn? && m.mode.quote == DOUBLE && escaped == m.mode.escaped
    case InSingleQuote => m.mode.MyIn? && m.mode.quote == SINGLE && escaped == m.mode.escaped
    case InBackticks => m.mode.MyIn? && m.mode.quote == BACKTICK && !m.mode.escaped && !escaped
    case MaybeEndDoubleQuote => m.mode.MyClosed? && m.mode.quote == DOUBLE && !escaped
    case MaybeEndSingleQuote => m.mode.MyClosed? && m.mode.quote == SINGLE && !escaped
    case MaybeEndBackticks => m.mode.MyClosed? && m.mode.quote == BACKTICK && !escaped
  }

  /** The machine goes on following MySQL if and only if no other quote stands right behind a closed one. */
  lemma {:induction false} FollowStep(state: ParserState, escaped: bool, m: My, c: char)
    requires Follows(state, escaped, m)
    ensures var move := NormalizeMove(state, escaped, c);
            Follows(move.state, move.escaped, MyStep(m, c)) <==> KeepsApart(m, c)
  {
  }

  /** What MySQL has read so far in standard SQL; the closing quote of the last token is still to come. */
  function Written(m: My): string {
    match m.mode
    case MyOut => Spell(m.tokens)
    case MyIn(quote, _, v) => Spell(m.tokens) + Open(KindOf(quote), v)
    case MyClosed(quote, v) => Spell(m.tokens) + Open(KindOf(quote), v)
  }

  /** What a step should write. */
  function Due(m: My, c: char): string {
    match m.mode
    case MyOut => if IsQuote(c) then [QuoteOf(KindOf(c))] else [c]
    case MyIn(quote, escaped, _) =>
      if escaped then Doubled(Unescape(c), QuoteOf(KindOf(quote)))
      else if c == BACKSLASH && quote != BACKTICK then ""
      else if c == quote then ""
      else Repeated(c, QuoteOf(KindOf(quote)))
    case MyClosed(quote, _) =>
      if c == quote then Repeated(c, QuoteOf(KindOf(quote))) else [QuoteOf(KindOf(quote)), c]
  }

  lemma {:induction false} DoubledOne(c: char, quote: char)
    ensures Doubled([c], quote) == Repeated(c, quote)
  {
    assert [c][..0] == "";
  }

  lemma {:induction false} DoubledAppend(v: string, u: string, quote: char)
    ensures Doubled(v + u, quote) == Doubled(v, quote) + Doubled(u, quote)
  {
    if u == "" {
      assert v + u == v;
    } else {
      var n := |u| - 1;
      assert (v + u)[..|v| + n] == v + u[..n];
      DoubledAppend(v, u[..n], quote);
      Regroup(Doubled(v, quote), Doubled(u[..n], quote), Repeated(u[n], quote));
    }
  }

  lemma {:induction false} OpenGrows(ts: seq<Token>, k: Kind, v: string, u: string)
    ensures Spell(ts) + Open(k, v + u) == Spell(ts) + Open(k, v) + Doubled(u, QuoteOf(k))
  {
    var q := QuoteOf(k);
    DoubledAppend(v, u, q);
    Regroup([q], Doubled(v, q), Doubled(u, q));
    Regroup(Spell(ts), Open(k, v), Doubled(u, q));
  }

  lemma {:induction false} WrittenStart(tokens: seq<Token>, c: char)
    ensures Written(MyStart(tokens, c)) == Spell(tokens) + (if IsQuote(c) then [QuoteOf(KindOf(c))] else [c])
  {
    SpellAppend(tokens, Other(c));
    OpenEmpty(KindOf(c));
  }

  lemma {:induction false} WrittenIn(ts: seq<Token>, quote: char, v: string, u: string)
    ensures Written(My(ts, MyIn(quote, false, v + u)))
            == Written(My(ts, MyClosed(quote, v))) + Doubled(u, QuoteOf(KindOf(quote)))
  {
    OpenGrows(ts, KindOf(quote), v, u);
  }

  lemma {:induction false} WrittenClosed(ts: seq<Token>, quote: char, v: string, c: char)
    requires !IsQuote(c)
    ensures Written(MyStart(ts + [Quoted(KindOf(quote), v)], c))
            == Written(My(ts, MyClosed(quote, v))) + [QuoteOf(KindOf(quote)), c]
  {
    var k := KindOf(quote);
    WrittenStart(ts + [Quoted(k, v)], c);
    SpellClosed(ts, k, v);
    Regroup(Spell(ts) + Open(k, v), [QuoteOf(k)], [c]);
  }

  /** Each step of MySQL adds what is due. */
  lemma {:induction false} WrittenStep(m: My, c: char)
    requires KeepsApart(m, c)
    ensures Written(MyStep(m, c)) == Written(m) + Due(m, c)
  {
    match m.mode
    case MyOut =>
      WrittenStart(m.tokens, c);
    case MyIn(quote, escaped, v) =>
      WrittenIn(m.tokens, quote, v, if escaped then Unescape(c) else [c]);
      DoubledOne(c, QuoteOf(KindOf(quote)));
      assert Written(m) + "" == Written(m);
    case MyClosed(quote, v) =>
      if c == quote {
        WrittenIn(m.tokens, quote, v, [c]);
        DoubledOne(c, QuoteOf(KindOf(quote)));
      } else {
        WrittenClosed(m.tokens, quote, v, c);
      }
  }

  lemma {:induction false} DoubledPattern(c: char, q: char)
    requires c != q && q != BACKSLASH
    ensures Doubled([BACKSLASH, c], q) == [BACKSLASH, c]
  {
    DoubledAppend([BACKSLASH], [c], q);
    DoubledOne(BACKSLASH, q);
    DoubledOne(c, q);
    assert [BACKSLASH] + [c] == [BACKSLASH, c];
  }

  lemma {:induction false} EscapedPuts(state: ParserState, m: My, c: char)
    requires Follows(state, true, m)
    ensures NormalizeMove(state, true, c).put == Repeated(c, SINGLE)
    ensures Due(m, c) == Doubled(Unescape(c), SINGLE)
  {
  }

  lemma {:induction false} UnescapedLength(c: char)
    ensures if c == '%' || c == '_' then Unescape(c) == [BACKSLASH, c] else Unescape(c) == [Unescape(c)[0]]
  {
  }

  /** An escaped character comes out as MySQL means it if and only if it stands for itself. */
  lemma {:induction false} EscapeMeaning(c: char)
    ensures var put, due := Repeated(c, SINGLE), Doubled(Unescape(c), SINGLE);
            |put| <= |due| && (put == due <==> Unescape(c) == [c])
  {
    UnescapedLength(c);
    if c == '%' || c == '_' {
      DoubledPattern(c, SINGLE);
    } else {
      DoubledOne(Unescape(c)[0], SINGLE);
    }
  }

  /** The machine writes what is due for plain characters, and only for them: else less, or something else. */
  lemma {:induction false} StepPutsDue(state: ParserState, escaped: bool, m: My, c: char)
    requires Follows(state, escaped, m) && KeepsApart(m, c)
    ensures var put := NormalizeMove(state, escaped, c).put;
            |put| <= |Due(m, c)| && (put == Due(m, c) <==> Plain(m, c))
  {
    if escaped {
      EscapedPuts(state, m, c);
      EscapeMeaning(c);
    }
  }

  /** Either nothing has gone wrong, or what was written is too short or differs. */
  predicate Tallies(out: string, due: string, ok: bool) {
    if ok then out == due else |out| < |due| || (|out| == |due| && out != due)
  }

  lemma {:induction false} SplitEqual(out: string, due: string, x: string, y: string)
    requires |out| == |due|
    ensures out + x == due + y <==> out == due && x == y
  {
    assert (out + x)[..|out|] == out && (due + y)[..|out|] == due;
    assert (out + x)[|out|..] == x && (due + y)[|out|..] == y;
  }

  lemma {:induction false} TallyStep(out: string, due: string, ok: bool, x: string, y: string)
    requires Tallies(out, due, ok) && |x| <= |y|
    ensures Tallies(out + x, due + y, ok && x == y)
  {
    if |out| == |due| {
      SplitEqual(out, due, x, y);
    }
  }

  lemma {:induction false} NormalizeFollows(q: string)
    requires Separated(q)
    ensures Follows(NormalizeRun(q).state, NormalizeRun(q).escaped, MyRun(q))
    ensures Tallies(NormalizeRun(q).out, Written(MyRun(q)), Faithful(q))
  {
    if q == "" {
      assert Spell([]) == "";
    } else {
      var front, c := q[..|q| - 1], q[|q| - 1];
      NormalizeFollows(front);
      var n, m := NormalizeRun(front), MyRun(front);
      FollowStep(n.state, n.escaped, m, c);
      StepPutsDue(n.state, n.escaped, m, c);
      WrittenStep(m, c);
      TallyStep(n.out, Written(m), Faithful(front), NormalizeMove(n.state, n.escaped, c).put, Due(m, c));
    }
  }

  lemma {:induction false} ApartAppend(ts: seq<Token>, t: Token)
    requires Apart(ts) && (if t.Other? then !IsQuote(t.c) else Ready(ts))
    ensures Apart(ts + [t])
  {
    assert (ts + [t])[..|ts|] == ts;
  }

  /** A quoted token is added only together with the character behind it. */
  predicate ApartSoFar(m: My) {
    Apart(m.tokens) && Ready(m.tokens)
  }

  lemma {:induction false} ApartStep(m: My, c: char)
    requires ApartSoFar(m) && KeepsApart(m, c)
    ensures ApartSoFar(MyStep(m, c))
  {
    if m.mode.MyClosed? {
      var t := Quoted(KindOf(m.mode.quote), m.mode.value);
      ApartAppend(m.tokens, t);
      if !IsQuote(c) {
        ApartAppend(m.tokens + [t], Other(c));
      }
    } else if !IsQuote(c) {
      ApartAppend(m.tokens, Other(c));
    }
  }

  /** The tokens that MySQL reads from a separated query are apart. */
  lemma {:induction false} SeparatedIsApart(q: string)
    requires Separated(q)
    ensures ApartSoFar(MyRun(q))
  {
    if q != "" {
      SeparatedIsApart(q[..|q| - 1]);
      ApartStep(MyRun(q[..|q| - 1]), q[|q| - 1]);
    }
  }

  lemma {:induction false} EndIsApart(m: My)
    requires ApartSoFar(m) && MyEnd(m).Some?
    ensures Apart(MyEnd(m).value)
  {
    if m.mode.MyClosed? {
      ApartAppend(m.tokens, Quoted(KindOf(m.mode.quote), m.mode.value));
    }
  }

  lemma {:induction false} EndTallies(n: Machine, m: My, ok: bool)
    requires Follows(n.state, n.escaped, m) && Tallies(n.out, Written(m), ok) && MyEnd(m).Some?
    ensures NormalizeEnd(n) == Spell(MyEnd(m).value) <==> ok
  {
    if m.mode.MyClosed? {
      var k := KindOf(m.mode.quote);
      SpellClosed(m.tokens, k, m.mode.value);
      TallyStep(n.out, Written(m), ok, [QuoteOf(k)], [QuoteOf(k)]);
    }
  }

  /**
   For every query whose quoted tokens are separated by other characters and all closed, standard
   SQL reads the translation as MySQL reads the query if and only if it has no escape of a character
   that means something else and no name with a double quote.
   */
  lemma {:induction false} NormalizePreservesTokens(q: string)
    requires Separated(q) && MyTokens(q).Some?
    ensures AnTokens(Normalized(q)) == MyTokens(q) <==> Faithful(q)
  {
    var n, m := NormalizeRun(q), MyRun(q);
    NormalizeFollows(q);
    SeparatedIsApart(q);
    EndIsApart(m);
    EndTallies(n, m, Faithful(q));
    var ts := MyTokens(q).value;
    SpellingReadsBack(ts);
    if AnTokens(Normalized(q)) == Some(ts) {
      ReadingIsSpelling(Normalized(q), ts);
    }
  }

  /** And a query that leaves a quote open is translated to one that does. */
  lemma {:induction false} NormalizeKeepsOpen(q: string)
    requires Separated(q) && Faithful(q) && MyTokens(q).None?
    ensures AnTokens(Normalized(q)).None?
  {
    var m := MyRun(q);
    NormalizeFollows(q);
    SeparatedIsApart(q);
    ReadSpelling(m.tokens);
    ReadOpen(m.tokens, KindOf(m.mode.quote), m.mode.value);
  }

  // ----- Standard SQL to MySQL -----

  function DenormalizeMove(state: ParserState, escaped: bool, c: char): Move {
    match state
    case NotInString =>
      if c == SINGLE then Move(InSingleQuote, escaped, [SINGLE])
      else if c == DOUBLE then Move(InDoubleQuote, escaped, [BACKTICK])
      else Move(NotInString, escaped, [c])
    case InSingleQuote =>
      if c == BACKSLASH then Move(InSingleQuote, true, if escaped then [c] else "")
      else if c == SINGLE then
        if escaped then Move(InSingleQuote, false, [c]) else Move(MaybeEndSingleQuote, false, "")
      else Move(InSingleQuote, false, [c])
    case MaybeEndSingleQuote =>
      if c == SINGLE then Move(InSingleQuote, escaped, [SINGLE, SINGLE])
      else Move(NotInString, escaped, [SINGLE, c])
    case InDoubleQuote =>
      if c == BACKSLASH then Move(InDoubleQuote, true, if escaped then [c] else "")
      else if c == DOUBLE then
        if escaped then Move(InDoubleQuote, false, [c]) else Move(MaybeEndDoubleQuote, false, "")
      else if c == BACKTICK then Move(InDoubleQuote, escaped, [BACKTICK, BACKTICK])
      else Move(InDoubleQuote, false, [c])
    case MaybeEndDoubleQuote =>
      if c == DOUBLE then Move(InDoubleQuote, escaped, [DOUBLE])
      else Move(NotInString, escaped, [BACKTICK, c])
    case InBackticks => Move(InBackticks, escaped, "")
    case MaybeEndBackticks => Move(MaybeEndBackticks, escaped, "")
  }

  function DenormalizeRun(q: string): Machine {
    if q == "" then START
    else
      var m := DenormalizeRun(q[..|q| - 1]);
      Moved(m, DenormalizeMove(m.state, m.escaped, q[|q| - 1]))
  }

  function DenormalizeEnd(m: Machine): string {
    match m.state
    case MaybeEndSingleQuote => m.out + [SINGLE]
    case MaybeEndDoubleQuote => m.out + [BACKTICK]
    case _ => m.out
  }

  function Denormalized(q: string): string {
    DenormalizeEnd(DenormalizeRun(q))
  }

  method DenormalizeStrings(q: string) returns (denormalized: string)
    ensures denormalized == Denormalized(q)
  {
    var state := NotInString;
    var lastCharWasBackslash := false;
    denormalized := "";
    for i := 0 to |q|
      invariant Machine(state, lastCharWasBackslash, denormalized) == DenormalizeRun(q[..i])
      invariant state != InBackticks && state != MaybeEndBackticks
    {
      assert q[..i + 1][..i] == q[..i];
      ghost var before := denormalized;
      var c := q[i];
      if state == NotInString {
        if c == SINGLE {
          state, denormalized := InSingleQuote, denormalized + [SINGLE];
        } else if c == DOUBLE {
          state, denormalized := InDoubleQuote, denormalized + [BACKTICK];
        } else {
          denormalized := denormalized + [c];
        }
      } else if state == InSingleQuote {
        if c == BACKSLASH {
          if lastCharWasBackslash {
            denormalized := denormalized + [c];
          } else {
            lastCharWasBackslash := !lastCharWasBackslash;
          }
        } else if c == SINGLE {
          if lastCharWasBackslash {
            denormalized, lastCharWasBackslash := denormalized + [c], false;
          } else {
            state := MaybeEndSingleQuote;
          }
        } else {
          denormalized, lastCharWasBackslash := denormalized + [c], false;
        }
      } else if state == MaybeEndSingleQuote {
        if c == SINGLE {
          state, denormalized := InSingleQuote, denormalized + [SINGLE, SINGLE];
        } else {
          state, denormalized := NotInString, denormalized + [SINGLE, c];
        }
      } else if state == InDoubleQuote {
        if c == BACKSLASH {
          if lastCharWasBackslash {
            denormalized := denormalized + [c];
          } else {
            lastCharWasBackslash := !lastCharWasBackslash;
          }
        } else if c == DOUBLE {
          if lastCharWasBackslash {
            denormalized, lastCharWasBackslash := denormalized + [c], !lastCharWasBackslash;
          } else {
            state := MaybeEndDoubleQuote;
          }
        } else if c == BACKTICK {
          denormalized := denormalized + [BACKTICK, BACKTICK];
        } else {
          denormalized, lastCharWasBackslash := denormalized + [c], false;
        }
      } else if c == DOUBLE {
        state, denormalized := InDoubleQuote, denormalized + [DOUBLE];
      } else {
        state, denormalized := NotInString, denormalized + [BACKTICK, c];
      }
      assert before + "" == before;
    }
    assert q[..|q|] == q;
    if state == MaybeEndSingleQuote {
      denormalized := denormalized + [SINGLE];
    } else if state == MaybeEndDoubleQuote {
      denormalized := denormalized + [BACKTICK];
    }
  }

  /** A character that the machine carries over: no backslash in a value, no stray or adjacent quote. */
  predicate CarriesOver(a: An, c: char) {
    match a.mode
    case AnOut => c != BACKTICK
    case AnIn(_, _) => c != BACKSLASH
    case AnClosed(k, _) => c == QuoteOf(k) || !IsQuote(c)
  }

  predicate Transferable(q: string) {
    q == "" || (Transferable(q[..|q| - 1]) && CarriesOver(AnRun(q[..|q| - 1]), q[|q| - 1]))
  }

  function MyQuoteOf(k: Kind): char {
    if k.Text? then SINGLE else BACKTICK
  }

  /** Where MySQL stands in the output; the closing quote of the last token is still to come. */
  function Counterpart(a: An): My {
    match a.mode
    case AnOut => My(a.tokens, MyOut)
    case AnIn(k, v) => My(a.tokens, MyIn(MyQuoteOf(k), false, v))
    case AnClosed(k, v) => My(a.tokens, MyIn(MyQuoteOf(k), false, v))
  }

  predicate DenormalizeState(a: An, state: ParserState) {
    match a.mode
    case AnOut => state == NotInString
    case AnIn(k, _) => state == if k.Text? then InSingleQuote else InDoubleQuote
    case AnClosed(k, _) => state == if k.Text? then MaybeEndSingleQuote else MaybeEndDoubleQuote
  }

  /** MySQL reads what the machine writes in a step. */
  function MyReads(m: My, s: string): My
    decreases s
  {
    if s == "" then m else MyReads(MyStep(m, s[0]), s[1..])
  }

  lemma {:induction false} MyReadsOn(q: string, s: string)
    ensures MyRun(q + s) == MyReads(MyRun(q), s)
    decreases s
  {
    if s == "" {
      assert q + s == q;
    } else {
      MyRunAppend(q, s[0]);
      MyReadsOn(q + [s[0]], s[1..]);
      assert q + s == q + [s[0]] + s[1..];
    }
  }

  lemma {:induction false} MyReadsOne(m: My, c: char)
    ensures MyReads(m, [c]) == MyStep(m, c)
  {
    assert [c][1..] == "";
  }

  lemma {:induction false} MyReadsTwo(m: My, c: char, d: char)
    ensures MyReads(m, [c, d]) == MyStep(MyStep(m, c), d)
  {
    assert [c, d][1..] == [d];
    MyReadsOne(MyStep(m, c), d);
  }

  lemma {:induction false} CounterpartStep(a: An, state: ParserState, c: char)
    requires DenormalizeState(a, state) && CarriesOver(a, c)
    ensures var move := DenormalizeMove(state, false, c);
            && DenormalizeState(AnStep(a, c), move.state) && !move.escaped
            && MyReads(Counterpart(a), move.put) == Counterpart(AnStep(a, c))
  {
    var m, put := Counterpart(a), DenormalizeMove(state, false, c).put;
    if |put| == 1 {
      MyReadsOne(m, put[0]);
      assert put == [put[0]];
    } else if |put| == 2 {
      MyReadsTwo(m, put[0], put[1]);
      assert put == [put[0], put[1]];
    }
  }

  lemma {:induction false} DenormalizeFollows(q: string)
    requires Transferable(q)
    ensures var d := DenormalizeRun(q);
            DenormalizeState(AnRun(q), d.state) && !d.escaped && MyRun(d.out) == Counterpart(AnRun(q))
  {
    if q != "" {
      var front, c := q[..|q| - 1], q[|q| - 1];
      DenormalizeFollows(front);
      var d := DenormalizeRun(front);
      CounterpartStep(AnRun(front), d.state, c);
      MyReadsOn(d.out, DenormalizeMove(d.state, false, c).put);
    }
  }

  lemma {:induction false} DenormalizeEnds(a: An, d: Machine)
    requires DenormalizeState(a, d.state) && MyRun(d.out) == Counterpart(a)
    ensures MyTokens(DenormalizeEnd(d)) == AnEnd(a)
  {
    if a.mode.AnClosed? {
      MyRunAppend(d.out, MyQuoteOf(a.mode.kind));
    }
  }

  /** MySQL reads the translation back as standard SQL reads the query, open quotes included. */
  lemma {:induction false} DenormalizePreservesTokens(q: string)
    requires Transferable(q)
    ensures MyTokens(Denormalized(q)) == AnTokens(q)
  {
    DenormalizeFollows(q);
    DenormalizeEnds(AnRun(q), DenormalizeRun(q));
  }

  // ----- There and back -----

  predicate NoBackslash(ts: seq<Token>) {
    forall i :: 0 <= i < |ts| ==> ts[i].Quoted? ==> BACKSLASH !in ts[i].value
  }

  lemma {:induction false} TransferableAppend(q: string, c: char)
    requires Transferable(q) && CarriesOver(AnRun(q), c)
    ensures Transferable(q + [c])
  {
    assert (q + [c])[..|q|] == q;
  }

  lemma {:induction false} RepeatedTransfers(q: string, tokens: seq<Token>, k: Kind, v: string, c: char)
    requires Transferable(q) && AnRun(q) == An(tokens, AnIn(k, v)) && c != BACKSLASH
    ensures Transferable(q + Repeated(c, QuoteOf(k)))
  {
    TransferableAppend(q, c);
    if c == QuoteOf(k) {
      AnRunAppend(q, c);
      TransferableAppend(q + [c], c);
      assert q + Repeated(c, c) == q + [c] + [c];
    }
  }

  lemma {:induction false} DoubledTransfers(q: string, tokens: seq<Token>, k: Kind, v: string)
    requires Transferable(q) && AnRun(q) == An(tokens, AnIn(k, "")) && BACKSLASH !in v
    ensures Transferable(q + Doubled(v, QuoteOf(k)))
  {
    if v == "" {
      assert q + Doubled(v, QuoteOf(k)) == q;
    } else {
      var n := |v| - 1;
      DoubledTransfers(q, tokens, k, v[..n]);
      ReadDoubled(q, tokens, k, v[..n]);
      RepeatedTransfers(q + Doubled(v[..n], QuoteOf(k)), tokens, k, v[..n], v[n]);
      Regroup(q, Doubled(v[..n], QuoteOf(k)), Repeated(v[n], QuoteOf(k)));
    }
  }

  lemma {:induction false} QuotedTransfers(ts: seq<Token>, k: Kind, v: string)
    requires Apart(ts) && Ready(ts) && Transferable(Spell(ts)) && BACKSLASH !in v
    ensures Transferable(Spell(ts + [Quoted(k, v)]))
  {
    var q := QuoteOf(k);
    ReadSpelling(ts);
    TransferableAppend(Spell(ts), q);
    AnRunAppend(Spell(ts), q);
    DoubledTransfers(Spell(ts) + [q], ts, k, v);
    Regroup(Spell(ts), [q], Doubled(v, q));
    ReadOpen(ts, k, v);
    TransferableAppend(Spell(ts) + Open(k, v), q);
    SpellClosed(ts, k, v);
  }

  lemma {:induction false} SpellingTransfers(ts: seq<Token>)
    requires Apart(ts) && NoBackslash(ts)
    ensures Transferable(Spell(ts))
  {
    if ts != [] {
      var n := |ts| - 1;
      var front := ts[..n];
      SpellingTransfers(front);
      assert ts == front + [ts[n]];
      match ts[n]
      case Other(c) =>
        ReadSpelling(front);
        TransferableAppend(Spell(front), c);
      case Quoted(k, v) =>
        QuotedTransfers(front, k, v);
    }
  }

  /** Translating a query to standard SQL and back gives a query that MySQL reads the same. */
  lemma {:induction false} ThereAndBack(q: string)
    requires Separated(q) && Faithful(q) && MyTokens(q).Some? && NoBackslash(MyTokens(q).value)
    ensures MyTokens(Denormalized(Normalized(q))) == MyTokens(q)
  {
    var ts := MyTokens(q).value;
    NormalizePreservesTokens(q);
    ReadingIsSpelling(Normalized(q), ts);
    SeparatedIsApart(q);
    EndIsApart(MyRun(q));
    SpellingTransfers(ts);
    DenormalizePreservesTokens(Normalized(q));
  }

  // ----- Where it goes wrong -----

  lemma {:induction false} NormalizeRunAppend(q: string, c: char)
    ensures var m := NormalizeRun(q);
            NormalizeRun(q + [c]) == Moved(m, NormalizeMove(m.state, m.escaped, c))
  {
    assert (q + [c])[..|q|] == q;
  }

  /** A query, and two empty texts next to each other. */
  function WithAdjacentTexts(q: string): string {
    q + [SINGLE] + [SINGLE] + [DOUBLE] + [DOUBLE]
  }

  lemma {:induction false} AdjacentRead(q: string)
    requires MyRun(q).mode.MyOut?
    ensures MyTokens(WithAdjacentTexts(q)) == Some(MyRun(q).tokens + [Quoted(Text, "")] + [Quoted(Text, "")])
  {
    var q1 := q + [SINGLE];
    var q2 := q1 + [SINGLE];
    MyRunAppend(q, SINGLE);
    MyRunAppend(q1, SINGLE);
    MyRunAppend(q2, DOUBLE);
    MyRunAppend(q2 + [DOUBLE], DOUBLE);
  }

  /** The second text's quote is copied, and its end opens a quote. */
  lemma {:induction false} AdjacentNormalized(q: string)
    requires NormalizeRun(q).state == NotInString && !NormalizeRun(q).escaped
    ensures Normalized(WithAdjacentTexts(q)) == NormalizeRun(q).out + [SINGLE] + [SINGLE, DOUBLE] + [SINGLE]
  {
    var q1, out := q + [SINGLE], NormalizeRun(q).out;
    var q2 := q1 + [SINGLE];
    NormalizeRunAppend(q, SINGLE);
    NormalizeRunAppend(q1, SINGLE);
    assert out + [SINGLE] + "" == out + [SINGLE];
    NormalizeRunAppend(q2, DOUBLE);
    NormalizeRunAppend(q2 + [DOUBLE], DOUBLE);
  }

  lemma {:induction false} LeftOpen(out: string, ts: seq<Token>)
    requires AnRun(out) == An(ts, AnOut)
    ensures AnTokens(out + [SINGLE] + [SINGLE, DOUBLE] + [SINGLE]).None?
  {
    AnRunAppend(out, SINGLE);
    AnRunAppend(out + [SINGLE], SINGLE);
    AnRunAppend(out + [SINGLE] + [SINGLE], DOUBLE);
    assert out + [SINGLE] + [SINGLE] + [DOUBLE] == out + [SINGLE] + [SINGLE, DOUBLE];
    AnRunAppend(out + [SINGLE] + [SINGLE, DOUBLE], SINGLE);
  }

  /** So the translation is left open, although the query is not. */
  lemma {:induction false} AdjacentTexts(q: string)
    requires Separated(q) && Faithful(q) && MyRun(q).mode.MyOut?
    ensures MyTokens(WithAdjacentTexts(q)).Some? && AnTokens(Normalized(WithAdjacentTexts(q))).None?
  {
    var ts := MyRun(q).tokens;
    NormalizeFollows(q);
    SeparatedIsApart(q);
    ReadSpelling(ts);
    AdjacentRead(q);
    AdjacentNormalized(q);
    LeftOpen(Spell(ts), ts);
  }
}

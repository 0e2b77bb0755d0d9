/** The statement formatter, `file_write_token` and `file_write_token_error`
    with the `count++` that follows every written token. Output lines are
    abstract records; `start` numbers statements from 1 and `count` numbers
    the tokens of the current statement from 0. A ";" token ends a statement. */
module Formatter {
  import opened Scanner

  datatype Record =
    | Separator                              // the row of dashes before a later statement
    | Header(statement: int)                 // "Statement #n"
    | Lexeme(index: int, text: seq<char>)    // "Lexeme k is text"
    | LexError(c: char)                      // "===> 'c'" and "Lexical error: not a lexeme"

  const Terminator: seq<char> := ";"

  /** The records `file_write_token` writes for one token: a header (after a
      separator from the second statement on) when the statement has no token
      yet, then the lexeme line. */
  function TokenRecords(start: int, count: int, text: seq<char>): seq<Record>
  {
    (if count == 0 then (if start > 1 then [Separator] else []) + [Header(start)] else [])
    + [Lexeme(count, text)]
  }

  /** A header is written exactly for the first token of a statement, a
      separator exactly before a header of a later statement, and the last
      record is the lexeme with the token's index. */
  lemma TokenRecordsShape(start: int, count: int, text: seq<char>)
    ensures var rs := TokenRecords(start, count, text);
      (Header(start) in rs <==> count == 0) &&
      (Separator in rs <==> count == 0 && start > 1) &&
      rs[|rs| - 1] == Lexeme(count, text) &&
      (forall r :: r in rs ==> r == Separator || r == Header(start) || r == Lexeme(count, text))
  {
  }

  /** The two counters of `main` and the output file the formatter appends to. */
  class StatementWriter {
    var start: int
    var count: int
    var output: seq<Record>

    constructor ()
      ensures start == 1 && count == 0 && output == []
    {
      start := 1;
      count := 0;
      output := [];
    }

    /** `file_write_token`: write the token's records; a ";" moves on to the
        next statement and sets `count` to -1, which the caller's `count++`
        brings back to 0. */
    method WriteToken(text: seq<char>)
      modifies this
      ensures output == old(output) + TokenRecords(old(start), old(count), text)
      ensures start == if text == Terminator then old(start) + 1 else old(start)
      ensures count == if text == Terminator then -1 else old(count)
    {
      if count == 0 {
        if start > 1 {
          output := output + [Separator];
        }
        output := output + [Header(start)];
      }
      output := output + [Lexeme(count, text)];
      if text == Terminator {
        start := start + 1;
        count := -1;
      }
    }

    /** `file_write_token_error`: report the offending character; the
        counters are untouched. */
    method WriteError(c: char)
      modifies this`output
      ensures output == old(output) + [LexError(c)]
    {
      output := output + [LexError(c)];
    }
  }

  // ---------------------------------------------------------------------
  // The formatter over a whole stream of scan results

  datatype Counters = Counters(start: int, count: int)

  const Initial := Counters(1, 0)

  /** The records written for one scan result. */
  function Emit(c: Counters, e: ScanResult): seq<Record>
  {
    match e
    case Token(t) => TokenRecords(c.start, c.count, t)
    case InvalidChar(ch) => [LexError(ch)]
    case EndOfLine => []
  }

  /** The counters after one scan result: `file_write_token` followed by
      `count++` for a token, nothing for an error or the end of a line. */
  function Next(c: Counters, e: ScanResult): Counters
  {
    match e
    case Token(t) =>
      Counters(if t == Terminator then c.start + 1 else c.start,
               (if t == Terminator then -1 else c.count) + 1)
    case _ => c
  }

  /** The counters after a stream of scan results, starting from `c`. */
  function FinalFrom(c: Counters, events: seq<ScanResult>): Counters
    decreases |events|
  {
    if events == [] then c else FinalFrom(Next(c, events[0]), events[1..])
  }

  /** Everything written for a stream of scan results, starting from `c`. */
  function OutputFrom(c: Counters, events: seq<ScanResult>): seq<Record>
    decreases |events|
  {
    if events == [] then [] else Emit(c, events[0]) + OutputFrom(Next(c, events[0]), events[1..])
  }

  /** The counters after a stream that starts a document. */
  function Final(events: seq<ScanResult>): Counters
  {
    FinalFrom(Initial, events)
  }

  /** Everything written for a stream that starts a document. */
  function Output(events: seq<ScanResult>): seq<Record>
  {
    OutputFrom(Initial, events)
  }

  /** One scan result in front of a stream. */
  lemma Cons(c: Counters, e: ScanResult, rest: seq<ScanResult>)
    ensures FinalFrom(c, [e] + rest) == FinalFrom(Next(c, e), rest)
    ensures OutputFrom(c, [e] + rest) == Emit(c, e) + OutputFrom(Next(c, e), rest)
  {
    assert ([e] + rest)[1..] == rest;
  }

  /** Formatting two streams one after the other is formatting the second
      from the counters the first leaves behind. */
  lemma {:induction false} Concat(c: Counters, a: seq<ScanResult>, b: seq<ScanResult>)
    ensures FinalFrom(c, a + b) == FinalFrom(FinalFrom(c, a), b)
    ensures OutputFrom(c, a + b) == OutputFrom(c, a) + OutputFrom(FinalFrom(c, a), b)
    decreases |a|
  {
    if a == [] {
      assert a + b == b;
    } else {
      assert a + b == [a[0]] + (a[1..] + b);
      Cons(c, a[0], a[1..] + b);
      Concat(Next(c, a[0]), a[1..], b);
    }
  }

  /** The texts of the tokens of a stream, in order. */
  function Texts(events: seq<ScanResult>): seq<seq<char>>
  {
    if events == [] then []
    else
      var e := events[|events| - 1];
      Texts(events[..|events| - 1]) + (if e.Token? then [e.text] else [])
  }

  /** One more scan result at the end of the stream. */
  lemma Snoc(init: seq<ScanResult>, e: ScanResult)
    ensures Final(init + [e]) == Next(Final(init), e)
    ensures Output(init + [e]) == Output(init) + Emit(Final(init), e)
    ensures Texts(init + [e]) == Texts(init) + (if e.Token? then [e.text] else [])
  {
    assert (init + [e])[..|init|] == init;
    Concat(Initial, init, [e]);
    Cons(Final(init), e, []);
    assert [e] + [] == [e];
  }

  /** ";" ends a statement; ";=" and every other token do not. */
  lemma OnlySemicolonTerminates(c: Counters, t: seq<char>)
    ensures Next(c, Token(t)).start == c.start + 1 <==> t == ";"
    ensures t == ";" ==> Next(c, Token(t)).count == 0
    ensures Next(c, Token(";=")) == Counters(c.start, c.count + 1)
  {
  }

  /** The last `k` tokens of `ts` are exactly those after its last ";". */
  predicate OpenRun(ts: seq<seq<char>>, k: int)
  {
    0 <= k <= |ts| &&
    (forall j :: |ts| - k <= j < |ts| ==> ts[j] != Terminator) &&
    (k < |ts| ==> ts[|ts| - k - 1] == Terminator)
  }

  /** The statement counter is one more than the number of ";" tokens seen. */
  lemma {:induction false} StatementsCounted(events: seq<ScanResult>)
    ensures Final(events).start == 1 + multiset(Texts(events))[Terminator]
  {
    if events != [] {
      var init, e := events[..|events| - 1], events[|events| - 1];
      assert events == init + [e];
      Snoc(init, e);
      StatementsCounted(init);
      var ts := Texts(init);
      if e.Token? {
        assert multiset(ts + [e.text]) == multiset(ts) + multiset{e.text};
      } else {
        assert ts + [] == ts;
      }
    }
  }

  /** The token counter is the number of tokens since the last ";". */
  lemma {:induction false} TokensCounted(events: seq<ScanResult>)
    ensures OpenRun(Texts(events), Final(events).count)
  {
    if events != [] {
      var init, e := events[..|events| - 1], events[|events| - 1];
      assert events == init + [e];
      Snoc(init, e);
      TokensCounted(init);
      var ts := Texts(init);
      if e.Token? {
        OpenRunSnoc(ts, Final(init).count, e.text);
      } else {
        assert ts + [] == ts;
      }
    }
  }

  /** One more token: a ";" closes the run, any other token extends it. */
  lemma OpenRunSnoc(ts: seq<seq<char>>, k: int, t: seq<char>)
    requires OpenRun(ts, k)
    ensures OpenRun(ts + [t], if t == Terminator then 0 else k + 1)
  {
    var ts' := ts + [t];
    if t != Terminator {
      forall j | |ts'| - (k + 1) <= j < |ts'|
        ensures ts'[j] != Terminator
      {
        if j < |ts| {
          assert ts'[j] == ts[j];
        }
      }
      if k + 1 < |ts'| {
        assert ts'[|ts'| - (k + 1) - 1] == ts[|ts| - k - 1];
      }
    }
  }

  lemma FinalInRange(events: seq<ScanResult>)
    ensures Final(events).start >= 1 && Final(events).count >= 0
  {
    StatementsCounted(events);
    TokensCounted(events);
  }

  // ---------------------------------------------------------------------
  // Views of the written records

  function Filter<T>(p: T -> bool, s: seq<T>): seq<T>
  {
    if s == [] then [] else (if p(s[0]) then [s[0]] else []) + Filter(p, s[1..])
  }

  lemma {:induction false} FilterAppend<T>(p: T -> bool, a: seq<T>, b: seq<T>)
    ensures Filter(p, a + b) == Filter(p, a) + Filter(p, b)
  {
    if a == [] {
      assert a + b == b;
    } else {
      var h := if p(a[0]) then [a[0]] else [];
      assert (a + b)[0] == a[0] && (a + b)[1..] == a[1..] + b;
      assert Filter(p, a + b) == h + Filter(p, a[1..] + b);
      FilterAppend(p, a[1..], b);
      assert Filter(p, a) == h + Filter(p, a[1..]);
      assert h + (Filter(p, a[1..]) + Filter(p, b)) == (h + Filter(p, a[1..])) + Filter(p, b);
    }
  }

  predicate IsHeader(r: Record) { r.Header? }
  predicate IsLexeme(r: Record) { r.Lexeme? }
  predicate IsNotError(r: Record) { !r.LexError? }
  predicate IsToken(e: ScanResult) { e.Token? }

  /** Header(lo), Header(lo + 1), ..., Header(hi - 1). */
  function Headers(lo: int, hi: int): seq<Record>
    decreases hi - lo
  {
    if hi <= lo then [] else Headers(lo, hi - 1) + [Header(hi - 1)]
  }

  /** Filtering three elements is filtering each of them in turn. */
  lemma FilterOverTriple<T>(p: T -> bool, x: T, y: T, z: T)
    ensures Filter(p, [x, y, z]) == Filter(p, [x]) + Filter(p, [y]) + Filter(p, [z])
  {
    assert [x, y, z] == [x] + ([y] + [z]);
    FilterAppend(p, [x], [y] + [z]);
    FilterAppend(p, [y], [z]);
  }

  /** Filtering two elements is filtering each of them in turn. */
  lemma FilterOverPair<T>(p: T -> bool, x: T, y: T)
    ensures Filter(p, [x, y]) == Filter(p, [x]) + Filter(p, [y])
  {
    assert [x, y] == [x] + [y];
    FilterAppend(p, [x], [y]);
  }

  /** What the views see of the records written for one scan result. */
  lemma EmitViews(c: Counters, e: ScanResult)
    ensures Filter(IsHeader, Emit(c, e)) == if e.Token? && c.count == 0 then [Header(c.start)] else []
    ensures Filter(IsLexeme, Emit(c, e)) == if e.Token? then [Lexeme(c.count, e.text)] else []
    ensures Filter(IsNotError, Emit(c, e)) == if e.Token? then Emit(c, e) else []
  {
    var rs := Emit(c, e);
    if e.Token? {
      var hd, lx := Header(c.start), Lexeme(c.count, e.text);
      if c.count == 0 && c.start > 1 {
        assert rs == [Separator, hd, lx];
        FilterOverTriple(IsHeader, Separator, hd, lx);
        FilterOverTriple(IsLexeme, Separator, hd, lx);
        FilterOverTriple(IsNotError, Separator, hd, lx);
      } else if c.count == 0 {
        assert rs == [hd, lx];
        FilterOverPair(IsHeader, hd, lx);
        FilterOverPair(IsLexeme, hd, lx);
        FilterOverPair(IsNotError, hd, lx);
      } else {
        assert rs == [lx];
      }
    }
  }

  /** The records for one scan result, taken alone, place their separator
      correctly. */
  lemma EmitSeparators(c: Counters, e: ScanResult)
    requires c.start >= 1
    ensures SeparatorsPlaced(Emit(c, e))
  {
  }

  /** One past the number of the last header written under counters `c`: the
      current statement has its header once it has a token. */
  function HeaderBound(c: Counters): int
  {
    c.start + (if c.count > 0 then 1 else 0)
  }

  /** One scan result adds exactly the next header, or none. */
  lemma HeaderStep(c: Counters, e: ScanResult)
    requires c.start >= 1 && c.count >= 0
    ensures Headers(1, HeaderBound(Next(c, e))) == Headers(1, HeaderBound(c)) + Filter(IsHeader, Emit(c, e))
  {
    EmitViews(c, e);
    var hs := Headers(1, HeaderBound(c));
    if e.Token? && c.count == 0 {
      assert HeaderBound(Next(c, e)) == c.start + 1 && HeaderBound(c) == c.start;
      assert Headers(1, c.start + 1) == hs + [Header(c.start)];
    } else {
      assert HeaderBound(Next(c, e)) == HeaderBound(c);
      assert hs + [] == hs;
    }
  }

  /** The headers written are numbered 1, 2, 3, ... without gaps: one for
      every statement that has at least one token. */
  lemma {:induction false} HeadersNumbered(events: seq<ScanResult>)
    ensures Filter(IsHeader, Output(events)) == Headers(1, HeaderBound(Final(events)))
  {
    if events != [] {
      var init, e := events[..|events| - 1], events[|events| - 1];
      assert events == init + [e];
      Snoc(init, e);
      var c := Final(init);
      HeadersNumbered(init);
      FinalInRange(init);
      FilterAppend(IsHeader, Output(init), Emit(c, e));
      HeaderStep(c, e);
    }
  }

  /** Lexeme record i carries token i of `ts` and, as its index, the number
      of tokens since the last ";" before it. */
  predicate LexemesMatch(ls: seq<Record>, ts: seq<seq<char>>)
  {
    |ls| == |ts| &&
    forall i :: 0 <= i < |ls| ==> ls[i].Lexeme? && ls[i].text == ts[i] && OpenRun(ts[..i], ls[i].index)
  }

  lemma LexemesMatchSnoc(ls: seq<Record>, ts: seq<seq<char>>, k: int, t: seq<char>)
    requires LexemesMatch(ls, ts) && OpenRun(ts, k)
    ensures LexemesMatch(ls + [Lexeme(k, t)], ts + [t])
  {
    var ls', ts' := ls + [Lexeme(k, t)], ts + [t];
    forall i | 0 <= i < |ls'|
      ensures ls'[i].Lexeme? && ls'[i].text == ts'[i] && OpenRun(ts'[..i], ls'[i].index)
    {
      if i < |ls| {
        assert ls'[i] == ls[i] && ts'[i] == ts[i] && ts'[..i] == ts[..i];
      } else {
        assert ts'[..i] == ts;
      }
    }
  }

  /** The i-th lexeme written carries the i-th token and, as its index, the
      number of tokens between the last ";" before it and itself: indices run
      0, 1, 2, ... within each statement. */
  lemma {:induction false} LexemesIndexed(events: seq<ScanResult>)
    ensures LexemesMatch(Filter(IsLexeme, Output(events)), Texts(events))
  {
    if events != [] {
      var init, e := events[..|events| - 1], events[|events| - 1];
      assert events == init + [e];
      Snoc(init, e);
      var c := Final(init);
      var ls := Filter(IsLexeme, Output(init));
      LexemesIndexed(init);
      FilterAppend(IsLexeme, Output(init), Emit(c, e));
      EmitViews(c, e);
      if e.Token? {
        TokensCounted(init);
        LexemesMatchSnoc(ls, Texts(init), c.count, e.text);
        assert Filter(IsLexeme, Output(events)) == ls + [Lexeme(c.count, e.text)];
        assert Texts(events) == Texts(init) + [e.text];
      } else {
        assert Filter(IsLexeme, Output(events)) == ls + [];
        assert Texts(events) == Texts(init) + [];
        assert ls + [] == ls && Texts(init) + [] == Texts(init);
      }
    }
  }

  /** A separator is written exactly before a header of a statement after the
      first, and the first record is never such a header. */
  predicate SeparatorsPlaced(rs: seq<Record>)
  {
    (rs != [] ==> !(rs[0].Header? && rs[0].statement > 1)) &&
    forall i :: 0 <= i < |rs| ==>
      (rs[i] == Separator <==> i + 1 < |rs| && rs[i + 1].Header? && rs[i + 1].statement > 1)
  }

  lemma SeparatorsPlacedAppend(a: seq<Record>, b: seq<Record>)
    requires SeparatorsPlaced(a) && SeparatorsPlaced(b)
    ensures SeparatorsPlaced(a + b)
  {
    var ab := a + b;
    forall i | 0 <= i < |ab|
      ensures ab[i] == Separator <==> i + 1 < |ab| && ab[i + 1].Header? && ab[i + 1].statement > 1
    {
      if i + 1 < |a| {
        assert ab[i] == a[i] && ab[i + 1] == a[i + 1];
      } else if i + 1 == |a| {
        assert ab[i] == a[i];
        assert a[i] != Separator;
        if b != [] {
          assert ab[i + 1] == b[0];
          assert !(b[0].Header? && b[0].statement > 1);
        }
      } else {
        var k := i - |a|;
        assert ab[i] == b[k];
        if i + 1 < |ab| {
          assert ab[i + 1] == b[k + 1];
        }
        assert b[k] == Separator <==> k + 1 < |b| && b[k + 1].Header? && b[k + 1].statement > 1;
      }
    }
    if a == [] {
      assert ab == b;
    }
  }

  lemma {:induction false} SeparatorsBeforeLaterHeaders(events: seq<ScanResult>)
    ensures SeparatorsPlaced(Output(events))
  {
    if events != [] {
      var init, e := events[..|events| - 1], events[|events| - 1];
      assert events == init + [e];
      Snoc(init, e);
      var c := Final(init);
      SeparatorsBeforeLaterHeaders(init);
      FinalInRange(init);
      EmitSeparators(c, e);
      SeparatorsPlacedAppend(Output(init), Emit(c, e));
    }
  }

  /** An error record changes no numbering: dropping the errors from the
      stream leaves the counters and every other record as they were. */
  lemma {:induction false} ErrorsDoNotRenumber(events: seq<ScanResult>)
    ensures Final(events) == Final(Filter(IsToken, events))
    ensures Filter(IsNotError, Output(events)) == Output(Filter(IsToken, events))
  {
    if events != [] {
      var init, e := events[..|events| - 1], events[|events| - 1];
      assert events == init + [e];
      Snoc(init, e);
      ErrorsDoNotRenumber(init);
      FilterAppend(IsToken, init, [e]);
      var toks := Filter(IsToken, init);
      var c := Final(init);
      FilterAppend(IsNotError, Output(init), Emit(c, e));
      EmitViews(c, e);
      if e.Token? {
        assert Filter(IsToken, [e]) == [e];
        Snoc(toks, e);
      } else {
        assert Filter(IsToken, [e]) == [];
        assert toks + [] == toks;
      }
    }
  }
}

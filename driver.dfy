/** The scanning loop of `main`: every input line is normalised, an empty
    normalised line is skipped, and otherwise `get_token` is called for as long
    as the text from the pending token on is longer than one character. Tokens
    go to `file_write_token` followed by `count++`; an invalid character goes to
    `file_write_token_error` and is stepped over. The counters live across lines.
    With no token pending, that guard never lets a single last character be
    scanned; `ScanLineFixed` is the loop with the guard `> 0`, which scans
    every character. */
module Driver {
  import opened CStrings
  import opened Normalizer
  import opened Scanner
  import opened Formatter

  // The ghost model of the loop names the pending token by its length
  // `skip`: the token always begins at the cursor, where `strstr` finds it.

  /** What termination of the loop is measured by: the characters left from
      the cursor on, plus one while no token is pending. */
  function Measure(line: seq<char>, pos: nat, skip: nat): int
  {
    |line| - pos + (if skip == 0 then 1 else 0)
  }

  /** What termination of the corrected loop is measured by, which also
      decreases when the pending token is the last character. */
  function FullMeasure(line: seq<char>, pos: nat, skip: nat): int
  {
    2 * (|line| - pos) + (if skip == 0 then 1 else 0)
  }

  /** Where one turn of the loop leaves things: what `get_token` returned,
      the cursor, and the length of the token now pending. */
  datatype TurnOutcome = TurnOutcome(res: ScanResult, pos: nat, skip: nat)

  /** One turn of the loop: step over the pending token, scan, and say where
      the cursor and the pending token are afterwards -- an invalid character
      is stepped over, end of line leaves nothing pending. */
  function Turn(line: seq<char>, pos: nat, skip: nat): (r: TurnOutcome)
    requires pos + skip <= |line|
    ensures r.pos + r.skip <= |line|
    ensures r.res == Classify(line, pos + skip)
    ensures r.pos + r.skip == pos + skip + Width(line, pos + skip)
    ensures r.res.Token? ==> r.pos == pos + skip && r.skip == |r.res.text|
    ensures !r.res.Token? ==> r.skip == 0
    ensures |line| - pos > 1 ==> Measure(line, r.pos, r.skip) < Measure(line, pos, skip)
  {
    var cur := pos + skip;
    var res := Classify(line, cur);
    match res
    case EndOfLine => TurnOutcome(res, cur, 0)
    case InvalidChar(_) => TurnOutcome(res, cur + 1, 0)
    case Token(t) => TurnOutcome(res, cur, |t|)
  }

  /** What one turn hands on to the formatter: nothing at end of line. */
  function Step(r: ScanResult): seq<ScanResult>
  {
    if r.EndOfLine? then [] else [r]
  }

  /** The scan results the loop hands on from a normalised line, with the
      cursor at `pos` and a pending token of length `skip` returned last and
      not yet stepped over (none at the start of a line and after an error or
      end of line). It goes on while the text from the pending token on is
      longer than one character. */
  function LoopEvents(line: seq<char>, pos: nat, skip: nat): seq<ScanResult>
    requires pos + skip <= |line|
    decreases Measure(line, pos, skip)
  {
    if |line| - pos <= 1 then []
    else
      var turn := Turn(line, pos, skip);
      Step(turn.res) + LoopEvents(line, turn.pos, turn.skip)
  }

  /** The loop hands on no end of line, and at most one result per character
      from the pending token on. */
  lemma {:induction false} LoopEventsBounded(line: seq<char>, pos: nat, skip: nat)
    requires pos + skip <= |line|
    ensures |LoopEvents(line, pos, skip)| <= |line| - pos - skip
    ensures forall e :: e in LoopEvents(line, pos, skip) ==> !e.EndOfLine?
    decreases Measure(line, pos, skip)
  {
    if |line| - pos > 1 {
      var turn := Turn(line, pos, skip);
      LoopTurn(line, pos, skip);
      LoopEventsBounded(line, turn.pos, turn.skip);
    }
  }

  /** One turn of the loop, unfolded. */
  lemma LoopTurn(line: seq<char>, pos: nat, skip: nat)
    requires pos + skip <= |line| && |line| - pos > 1
    ensures var turn := Turn(line, pos, skip);
      LoopEvents(line, pos, skip) == Step(turn.res) + LoopEvents(line, turn.pos, turn.skip)
  {
  }

  /** Writing the records of one turn keeps "written so far, then what the
      rest of the stream writes" unchanged. */
  lemma Resume(out: seq<Record>, c: Counters, e: ScanResult, later: seq<ScanResult>)
    ensures out + OutputFrom(c, Step(e) + later) == (out + Emit(c, e)) + OutputFrom(Next(c, e), later)
    ensures FinalFrom(c, Step(e) + later) == FinalFrom(Next(c, e), later)
  {
    if e.EndOfLine? {
      assert Step(e) + later == later;
    } else {
      Cons(c, e, later);
    }
  }

  /** Lines 68-80 of `main`, one turn of the loop: `get_token` after the
      pending token; a token goes to `file_write_token` followed by `count++`
      and is left pending, an invalid character goes to
      `file_write_token_error` and is stepped over, and at end of line
      nothing is written and nothing is left pending. */
  method TakeTurn(w: StatementWriter, line: seq<char>, pos: nat, token: seq<char>) returns (pos': nat, token': seq<char>)
    requires '\0' !in line && pos <= |line| && StrStr(line[pos..], token) == Some(0)
    modifies w
    ensures pos + |token| <= |line|
    ensures var turn := Turn(line, pos, |token|);
      pos' == turn.pos && |token'| == turn.skip &&
      w.output == old(w.output) + Emit(Counters(old(w.start), old(w.count)), turn.res) &&
      Counters(w.start, w.count) == Next(Counters(old(w.start), old(w.count)), turn.res)
    ensures pos' <= |line| && token' <= line[pos'..] && StrStr(line[pos'..], token') == Some(0)
  {
    var res, cursor := GetToken(line, pos, token);
    pos' := cursor;
    token' := [];
    match res {
      case InvalidChar(ch) =>
        w.WriteError(ch);
        pos' := pos' + 1;
      case Token(t) =>
        w.WriteToken(t);
        w.count := w.count + 1;
        token' := t;
      case EndOfLine =>
        assert w.output == old(w.output) + [];
    }
    TurnDone(line, pos, token, cursor, res, pos', token');
  }

  /** The scan results of one normalised line; an empty line yields none. */
  function LineEvents(line: seq<char>): seq<ScanResult>
  {
    if line == [] then [] else LoopEvents(line, 0, 0)
  }

  /** Each line hands the formatter at most one result per character, and
      never an end of line. */
  lemma LineEventsBounded(line: seq<char>)
    ensures |LineEvents(line)| <= |line|
    ensures forall e :: e in LineEvents(line) ==> !e.EndOfLine?
  {
    if line != [] {
      LoopEventsBounded(line, 0, 0);
    }
  }

  /** The scan results of a whole document, line after line. */
  function DocumentEvents(lines: seq<seq<char>>): seq<ScanResult>
  {
    if lines == [] then []
    else DocumentEvents(lines[..|lines| - 1]) + LineEvents(Normalize(lines[|lines| - 1]))
  }

  /** The records written for a whole document. */
  function Document(lines: seq<seq<char>>): seq<Record>
  {
    Output(DocumentEvents(lines))
  }

  /** The inner loop of `main` over one non-empty normalised line: call
      `get_token` while `strlen(strstr(line, token)) > 1`, write tokens and
      errors, and step one character over an invalid one. */
  method ScanLine(w: StatementWriter, line: seq<char>)
    requires line != [] && '\0' !in line
    modifies w
    ensures w.output == old(w.output) + OutputFrom(Counters(old(w.start), old(w.count)), LineEvents(line))
    ensures Counters(w.start, w.count) == FinalFrom(Counters(old(w.start), old(w.count)), LineEvents(line))
  {
    var token: seq<char> := [];
    var pos: nat := 0;
    ghost var c0 := Counters(w.start, w.count);
    ghost var goal := w.output + OutputFrom(c0, LineEvents(line));
    StrStrOfPrefix(line, []);
    while StrLen(line[pos + StrStr(line[pos..], token).value..]) > 1
      invariant pos <= |line| && token <= line[pos..]
      invariant StrStr(line[pos..], token) == Some(0)
      invariant w.output + OutputFrom(Counters(w.start, w.count), LoopEvents(line, pos, |token|)) == goal
      invariant FinalFrom(Counters(w.start, w.count), LoopEvents(line, pos, |token|)) == FinalFrom(c0, LineEvents(line))
      decreases Measure(line, pos, |token|)
    {
      StrLenOfNulFree(line[pos..]);
      LoopTurn(line, pos, |token|);
      ghost var turn := Turn(line, pos, |token|);
      ghost var later := LoopEvents(line, turn.pos, turn.skip);
      Resume(w.output, Counters(w.start, w.count), turn.res, later);
      pos, token := TakeTurn(w, line, pos, token);
    }
    StrLenOfNulFree(line[pos..]);
  }

  /** The scan results of the loop as evidently intended, which goes on
      while any text is left from the pending token on. */
  function FixedEvents(line: seq<char>, pos: nat, skip: nat): seq<ScanResult>
    requires pos + skip <= |line|
    decreases FullMeasure(line, pos, skip)
  {
    if |line| - pos <= 0 then []
    else
      var turn := Turn(line, pos, skip);
      FullMeasureDecreases(line, pos, skip);
      Step(turn.res) + FixedEvents(line, turn.pos, turn.skip)
  }

  /** Every turn of the corrected loop brings it nearer its end. */
  lemma FullMeasureDecreases(line: seq<char>, pos: nat, skip: nat)
    requires pos + skip <= |line| && |line| - pos > 0
    ensures var turn := Turn(line, pos, skip);
      FullMeasure(line, turn.pos, turn.skip) < FullMeasure(line, pos, skip)
  {
  }

  /** One turn of the corrected loop, unfolded. */
  lemma FixedTurn(line: seq<char>, pos: nat, skip: nat)
    requires pos + skip <= |line| && |line| - pos > 0
    ensures var turn := Turn(line, pos, skip);
      FixedEvents(line, pos, skip) == Step(turn.res) + FixedEvents(line, turn.pos, turn.skip)
  {
  }

  /** The corrected loop hands on exactly what scanning from the pending
      token to the end of the line does. */
  predicate FixedIsLex(line: seq<char>, pos: nat, skip: nat)
    requires pos + skip <= |line|
  {
    FixedEvents(line, pos, skip) == Lex(line, pos + skip)
  }

  lemma {:induction false} FixedScansAll(line: seq<char>, pos: nat, skip: nat)
    requires pos + skip <= |line|
    ensures FixedIsLex(line, pos, skip)
    decreases FullMeasure(line, pos, skip)
  {
    if |line| - pos <= 0 {
      assert FixedEvents(line, pos, skip) == [];
    } else {
      var turn := Turn(line, pos, skip);
      FullMeasureDecreases(line, pos, skip);
      FixedScansAll(line, turn.pos, turn.skip);
      FixedTurnIsLex(line, pos, skip);
    }
  }

  /** The inductive step of FixedScansAll: one turn puts the same result in
      front of both. */
  lemma FixedTurnIsLex(line: seq<char>, pos: nat, skip: nat)
    requires pos + skip <= |line| && |line| - pos > 0
    requires var turn := Turn(line, pos, skip); FixedIsLex(line, turn.pos, turn.skip)
    ensures FixedIsLex(line, pos, skip)
  {
    FixedTurn(line, pos, skip);
    LexTurn(line, pos, skip);
  }

  /** The corrected loop consumes every character of the line, each once. */
  lemma FixedLineConsumed(line: seq<char>)
    ensures FixedEvents(line, 0, 0) == Lex(line, 0)
    ensures Flatten(FixedEvents(line, 0, 0)) == line
  {
    FixedScansAll(line, 0, 0);
    LexConsumesEverything(line, 0);
    assert line[0..] == line;
  }

  /** The inner loop as evidently intended: the same turns, but taken while
      any text is left from the pending token on (`> 0` for `> 1`), so that
      every character of the line is scanned. */
  method ScanLineFixed(w: StatementWriter, line: seq<char>)
    requires '\0' !in line
    modifies w
    ensures w.output == old(w.output) + OutputFrom(Counters(old(w.start), old(w.count)), FixedEvents(line, 0, 0))
    ensures Counters(w.start, w.count) == FinalFrom(Counters(old(w.start), old(w.count)), FixedEvents(line, 0, 0))
  {
    var token: seq<char> := [];
    var pos: nat := 0;
    ghost var c0 := Counters(w.start, w.count);
    ghost var goal := w.output + OutputFrom(c0, FixedEvents(line, 0, 0));
    StrStrOfPrefix(line, []);
    while StrLen(line[pos + StrStr(line[pos..], token).value..]) > 0
      invariant pos <= |line| && token <= line[pos..]
      invariant StrStr(line[pos..], token) == Some(0)
      invariant w.output + OutputFrom(Counters(w.start, w.count), FixedEvents(line, pos, |token|)) == goal
      invariant FinalFrom(Counters(w.start, w.count), FixedEvents(line, pos, |token|)) == FinalFrom(c0, FixedEvents(line, 0, 0))
      decreases FullMeasure(line, pos, |token|)
    {
      StrLenOfNulFree(line[pos..]);
      FixedTurn(line, pos, |token|);
      FullMeasureDecreases(line, pos, |token|);
      ghost var turn := Turn(line, pos, |token|);
      ghost var later := FixedEvents(line, turn.pos, turn.skip);
      Resume(w.output, Counters(w.start, w.count), turn.res, later);
      pos, token := TakeTurn(w, line, pos, token);
    }
    StrLenOfNulFree(line[pos..]);
  }

  /** The line `5@;`: as written, the loop writes the lexeme `5` and the
      error for `@` but never reaches the `;`, so the statement is not ended;
      the corrected loop scans all three characters. */
  lemma TerminatorAfterErrorDropped()
    ensures LineEvents("5@;") == [Token("5"), InvalidChar('@')]
    ensures Lex("5@;", 0) == [Token("5"), InvalidChar('@'), Token(";")]
  {
    var line := "5@;";
    assert DigitEnd(line, 0) == DigitEnd(line, 1) == 1;
    assert Classify(line, 0) == Token("5") && Width(line, 0) == 1;
    assert Classify(line, 1) == InvalidChar('@') && Width(line, 1) == 1;
    assert Classify(line, 2) == Token(";") && Width(line, 2) == 1;
    assert Lex(line, 2) == [Token(";")] + Lex(line, 3);
    assert Lex(line, 1) == [InvalidChar('@')] + Lex(line, 2);
    assert Lex(line, 0) == [Token("5")] + Lex(line, 1);
    assert Turn(line, 0, 0) == TurnOutcome(Token("5"), 0, 1);
    assert Turn(line, 0, 1) == TurnOutcome(InvalidChar('@'), 2, 0);
    assert LoopEvents(line, 2, 0) == [];
    assert LoopEvents(line, 0, 1) == [InvalidChar('@')] + LoopEvents(line, 2, 0);
    assert LoopEvents(line, 0, 0) == [Token("5")] + LoopEvents(line, 0, 1);
  }

  /** After `get_token` at the pending token's end, the cursor and the new
      pending token are where one turn of the loop puts them, and `strstr`
      finds that token right at the cursor. */
  lemma TurnDone(line: seq<char>, pos0: nat, prev: seq<char>, cursor: nat, res: ScanResult, pos: nat, token: seq<char>)
    requires pos0 <= |line| && StrStr(line[pos0..], prev) == Some(0)
    requires cursor == pos0 + StrStr(line[pos0..], prev).value + |prev| && cursor <= |line|
    requires res == Classify(line, cursor)
    requires pos == if res.InvalidChar? then cursor + 1 else cursor
    requires token == if res.Token? then res.text else []
    ensures pos0 + |prev| <= |line|
    ensures var turn := Turn(line, pos0, |prev|);
      res == turn.res && pos == turn.pos && |token| == turn.skip
    ensures pos <= |line| && token <= line[pos..]
    ensures StrStr(line[pos..], token) == Some(0)
  {
    if res.Token? {
      TokenAtCursor(line, pos);
    }
    StrStrOfPrefix(line[pos..], token);
  }

  /** `main` without its file handling: each line as `fgets` delivers it is
      copied into a buffer, squeezed, skipped when empty and scanned
      otherwise; the records written are returned. */
  method Tokenize(lines: seq<seq<char>>) returns (out: seq<Record>)
    ensures out == Document(lines)
  {
    var w := new StatementWriter();
    ghost var events: seq<ScanResult> := [];
    for li := 0 to |lines|
      invariant events == DocumentEvents(lines[..li])
      invariant w.output == Output(events) && Counters(w.start, w.count) == Final(events)
    {
      var raw := lines[li];
      var buf := new char[|raw|](i requires 0 <= i < |raw| => raw[i]);
      assert buf[..] == raw;
      SqueezeTogether(buf);
      var line := CString(buf[..]);
      NormalizeIdempotent(raw);
      assert lines[..li + 1][..li] == lines[..li];
      if line != [] {
        ScanLine(w, line);
        Concat(Initial, events, LineEvents(line));
        events := events + LineEvents(line);
      } else {
        assert events + [] == events;
      }
    }
    assert lines[..|lines|] == lines;
    out := w.output;
  }

  /** What the loop leaves unscanned: the scan results of the rest of the
      line from where it stops. */
  function Unscanned(line: seq<char>, pos: nat, skip: nat): seq<ScanResult>
    requires pos + skip <= |line|
    decreases Measure(line, pos, skip)
  {
    if |line| - pos <= 1 then Lex(line, pos + skip)
    else
      var turn := Turn(line, pos, skip);
      Unscanned(line, turn.pos, turn.skip)
  }

  /** Scanning to the end of the line is what the loop hands on followed by
      what it leaves unscanned. */
  predicate LoopThenRest(line: seq<char>, pos: nat, skip: nat)
    requires pos + skip <= |line|
  {
    Lex(line, pos + skip) == LoopEvents(line, pos, skip) + Unscanned(line, pos, skip)
  }

  /** The loop hands on exactly what scanning to the end of the line would,
      up to what it leaves unscanned. */
  lemma {:induction false} LoopThenUnscanned(line: seq<char>, pos: nat, skip: nat)
    requires pos + skip <= |line|
    ensures LoopThenRest(line, pos, skip)
    decreases Measure(line, pos, skip)
  {
    if |line| - pos <= 1 {
      LoopStopped(line, pos, skip);
    } else {
      var turn := Turn(line, pos, skip);
      LoopThenUnscanned(line, turn.pos, turn.skip);
      LoopTurnThenUnscanned(line, pos, skip);
    }
  }

  lemma LoopStopped(line: seq<char>, pos: nat, skip: nat)
    requires pos + skip <= |line| && |line| - pos <= 1
    ensures LoopThenRest(line, pos, skip)
  {
    assert LoopEvents(line, pos, skip) == [];
  }

  /** The inductive step of LoopThenUnscanned: one turn puts the same result
      in front of the loop's results and of the scan to the end of line. */
  lemma LoopTurnThenUnscanned(line: seq<char>, pos: nat, skip: nat)
    requires pos + skip <= |line| && |line| - pos > 1
    requires var turn := Turn(line, pos, skip); LoopThenRest(line, turn.pos, turn.skip)
    ensures LoopThenRest(line, pos, skip)
  {
    var turn := Turn(line, pos, skip);
    LoopTurn(line, pos, skip);
    LexTurn(line, pos, skip);
    assert Unscanned(line, pos, skip) == Unscanned(line, turn.pos, turn.skip);
    AppendRegroup(Lex(line, pos + skip), LoopEvents(line, pos, skip), Unscanned(line, pos, skip), Step(turn.res),
      LoopEvents(line, turn.pos, turn.skip), Lex(line, turn.pos + turn.skip));
  }

  /** Regrouping appends: if `ideal` is `step` before `later` before `rest`,
      and `whole` is `step` before `later`, then `ideal` is `whole` before `rest`. */
  lemma AppendRegroup<T>(ideal: seq<T>, whole: seq<T>, rest: seq<T>, step: seq<T>, later: seq<T>, idealLater: seq<T>)
    requires whole == step + later && ideal == step + idealLater && idealLater == later + rest
    ensures ideal == whole + rest
  {
  }

  /** What the loop leaves unscanned is nothing or the result for the last
      character of the line. */
  lemma {:induction false} UnscannedAtMostLastChar(line: seq<char>, pos: nat, skip: nat)
    requires pos + skip <= |line|
    ensures Unscanned(line, pos, skip) == [] ||
      (|line| > 0 && Unscanned(line, pos, skip) == [Classify(line, |line| - 1)])
    decreases Measure(line, pos, skip)
  {
    if |line| - pos <= 1 {
      LastTurn(line, pos, skip);
    } else {
      var turn := Turn(line, pos, skip);
      UnscannedAtMostLastChar(line, turn.pos, turn.skip);
    }
  }

  /** Once the loop stops, at most the last character of the line is left. */
  lemma LastTurn(line: seq<char>, pos: nat, skip: nat)
    requires pos + skip <= |line| && |line| - pos <= 1
    ensures var ideal := Lex(line, pos + skip);
      ideal == [] || (|line| > 0 && ideal == [Classify(line, |line| - 1)])
  {
    var cur := pos + skip;
    if cur < |line| {
      assert cur == |line| - 1;
      assert Lex(line, cur) == [Classify(line, cur)] + Lex(line, |line|);
    }
  }

  /** Scanning from the pending token on is one turn's result followed by
      scanning from where the turn leaves the cursor and its pending token. */
  lemma LexTurn(line: seq<char>, pos: nat, skip: nat)
    requires pos + skip <= |line|
    ensures var turn := Turn(line, pos, skip);
      Lex(line, pos + skip) == Step(turn.res) + Lex(line, turn.pos + turn.skip)
  {
    var cur := pos + skip;
    var turn := Turn(line, pos, skip);
    if cur == |line| {
      assert Step(turn.res) == [];
    } else {
      assert Step(turn.res) == [Classify(line, cur)];
    }
  }

  /** What the loop consumes of a normalised line is the whole line, or the
      whole line but its last character: nothing is read twice and at most the
      final character is never read. */
  lemma LineConsumed(line: seq<char>)
    ensures var f := Flatten(LineEvents(line));
      f == line || (|line| > 0 && f + [line[|line| - 1]] == line)
  {
    if line != [] {
      var evs := LoopEvents(line, 0, 0);
      assert LineEvents(line) == evs;
      var u := Unscanned(line, 0, 0);
      LoopThenUnscanned(line, 0, 0);
      UnscannedAtMostLastChar(line, 0, 0);
      assert line[0..] == line;
      LexConsumesEverything(line, 0);
      FlattenAppend(evs, u);
      if u != [] {
        LastCharConsumed(line);
      } else {
        assert Flatten(u) == [];
      }
    }
  }

  lemma LastCharConsumed(line: seq<char>)
    requires |line| > 0
    ensures Flatten([Classify(line, |line| - 1)]) == [line[|line| - 1]]
  {
    var r := Classify(line, |line| - 1);
    ConsumedWidth(line, |line| - 1);
    assert Flatten([r]) == Consumed(r) + Flatten([]);
  }

  /** A line of one character, once normalised, yields no scan result at all,
      although scanning it would produce one. */
  lemma SingleCharacterLineDropped(line: seq<char>)
    requires |line| == 1
    ensures LineEvents(line) == []
    ensures |Lex(line, 0)| == 1
  {
    assert Lex(line, 0) == [Classify(line, 0)] + Lex(line, 1);
  }

  /** A line whose normalised form is empty (blank or all control characters)
      writes nothing and leaves both counters as they were. */
  lemma BlankLineWritesNothing(lines: seq<seq<char>>, raw: seq<char>)
    requires Normalize(raw) == []
    ensures DocumentEvents(lines + [raw]) == DocumentEvents(lines)
    ensures Document(lines + [raw]) == Document(lines)
  {
    assert (lines + [raw])[..|lines|] == lines;
    assert DocumentEvents(lines) + [] == DocumentEvents(lines);
  }
}

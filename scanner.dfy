/** The scanner, `get_token` with `string_after_token`. The C code keeps a
    global pointer into the normalised line and moves it forward; here that
    pointer is an offset `cur` into the line, and `line[cur + i]` stands for
    the C expression `line[i]`. From the cursor the scanner first steps over
    the previously returned token, then classifies what follows as an
    operator (one character, or two when the second is '='), an integer
    literal, the end of the line or an invalid character. The C code returns
    the sentinel strings "NULL" and "ERROR" for the last two; here they are the
    EndOfLine and InvalidChar cases. */
module Scanner {
  import opened CStrings

  datatype ScanResult = Token(text: seq<char>) | EndOfLine | InvalidChar(c: char)

  /** The twelve single-character symbols of the switch in `get_token`. */
  predicate IsOperator(c: char)
  {
    c in {'+', '-', '*', '/', '(', ')', '^', ';', '<', '>', '=', '!'}
  }

  predicate IsDigit(c: char)
  {
    '0' <= c <= '9'
  }

  /** The offset just past the run of digits that starts at offset `i`. */
  function DigitEnd(line: seq<char>, i: nat): (j: nat)
    requires i <= |line|
    ensures i <= j <= |line|
    ensures forall k :: i <= k < j ==> IsDigit(line[k])
    ensures j < |line| ==> !IsDigit(line[j])
    decreases |line| - i
  {
    if i < |line| && IsDigit(line[i]) then DigitEnd(line, i + 1) else i
  }

  /** A run of digits that the first non-digit (or the end) closes is the
      digit run. */
  lemma {:induction false} DigitEndAt(line: seq<char>, i: nat, j: nat)
    requires i <= j <= |line|
    requires forall k :: i <= k < j ==> IsDigit(line[k])
    requires j < |line| ==> !IsDigit(line[j])
    ensures DigitEnd(line, i) == j
    decreases j - i
  {
    if i < j {
      DigitEndAt(line, i + 1, j);
    }
  }

  /** How many characters one scan step at offset `cur` takes up: none at the
      end of the line, one or two for an operator, the digit run for a
      literal, one for an invalid character. */
  function Width(line: seq<char>, cur: nat): (n: nat)
    requires cur <= |line|
    ensures cur + n <= |line|
    ensures n == 0 <==> cur == |line|
  {
    if cur == |line| then 0
    else if IsOperator(line[cur]) then (if cur + 1 < |line| && line[cur + 1] == '=' then 2 else 1)
    else if IsDigit(line[cur]) then DigitEnd(line, cur) - cur
    else 1
  }

  /** What one scan step finds at offset `cur` of a line: end of line exactly
      when nothing is left, a token made of the characters the step takes up,
      or an invalid character, which is neither an operator nor a digit. */
  function Classify(line: seq<char>, cur: nat): (r: ScanResult)
    requires cur <= |line|
    ensures r.EndOfLine? <==> cur == |line|
    ensures r.Token? ==> r.text == line[cur..cur + Width(line, cur)]
    ensures r.InvalidChar? ==>
      cur < |line| && r.c == line[cur] && !IsOperator(line[cur]) && !IsDigit(line[cur]) && Width(line, cur) == 1
  {
    if cur == |line| then EndOfLine
    else if IsOperator(line[cur]) || IsDigit(line[cur]) then Token(line[cur..cur + Width(line, cur)])
    else InvalidChar(line[cur])
  }

  /** The operator branch: the token is the symbol, extended by the next
      character exactly when that character is '='. */
  lemma OperatorToken(line: seq<char>, cur: nat)
    requires cur < |line| && IsOperator(line[cur])
    ensures Classify(line, cur).Token?
    ensures var t := Classify(line, cur).text;
      t[0] == line[cur] && |t| <= 2 &&
      (|t| == 2 <==> cur + 1 < |line| && line[cur + 1] == '=') &&
      (|t| == 2 ==> t[1] == '=')
  {
  }

  /** The digit branch: the token is the longest run of digits at the cursor,
      never extended by a following '='. */
  lemma DigitToken(line: seq<char>, cur: nat)
    requires cur < |line| && IsDigit(line[cur])
    ensures Classify(line, cur).Token?
    ensures var t := Classify(line, cur).text;
      (forall i :: 0 <= i < |t| ==> IsDigit(t[i])) &&
      (cur + |t| < |line| ==> !IsDigit(line[cur + |t|])) &&
      '=' !in t
  {
    var t := Classify(line, cur).text;
    assert forall i :: 0 <= i < |t| ==> t[i] == line[cur + i];
  }

  /** The error branch: a character that is neither an operator nor a digit
      is reported on its own, whatever follows it. */
  lemma InvalidCharacter(line: seq<char>, cur: nat)
    requires cur < |line| && !IsOperator(line[cur]) && !IsDigit(line[cur])
    ensures Classify(line, cur) == InvalidChar(line[cur])
  {
  }

  /** A scanned token can never be mistaken for the C code's sentinel strings,
      so the tagged result loses nothing against "NULL" and "ERROR". */
  lemma TokenIsNotSentinel(line: seq<char>, cur: nat)
    requires cur <= |line| && Classify(line, cur).Token?
    ensures Classify(line, cur).text != "NULL" && Classify(line, cur).text != "ERROR"
  {
    var t := Classify(line, cur).text;
    assert t[0] == line[cur];
    assert IsOperator(t[0]) || IsDigit(t[0]);
  }

  /** `string_after_token`: unless the token is empty, find it with `strstr`
      and step the cursor past it one character at a time. */
  method StringAfterToken(line: seq<char>, pos: nat, token: seq<char>) returns (cursor: nat)
    requires pos <= |line|
    requires StrStr(line[pos..], token).Some?
    ensures cursor == pos + StrStr(line[pos..], token).value + |token|
    ensures cursor <= |line|
  {
    cursor := pos;
    if token != [] {
      cursor := pos + StrStr(line[pos..], token).value;
      for i := 0 to |token|
        invariant cursor == pos + StrStr(line[pos..], token).value + i
      {
        cursor := cursor + 1;
      }
    } else {
      StrStrOfPrefix(line[pos..], token);
    }
  }

  /** Stepping past a token that begins the rest advances by its length. */
  lemma AdvanceOverPrefix(line: seq<char>, pos: nat, token: seq<char>)
    requires pos <= |line| && token <= line[pos..]
    ensures StrStr(line[pos..], token) == Some(0)
    ensures pos + |token| <= |line|
  {
    StrStrOfPrefix(line[pos..], token);
  }

  /** A token is found where it was scanned: it begins the rest of the line
      at the cursor. */
  lemma TokenAtCursor(line: seq<char>, cur: nat)
    requires cur <= |line| && Classify(line, cur).Token?
    ensures Classify(line, cur).text <= line[cur..]
  {
    var n := Width(line, cur);
    assert line[cur..][..n] == line[cur..cur + n];
  }

  /** `get_token`: advance past the previous token, then build the new token
      in a zero-filled scratch buffer -- the operator symbol at index 0, an '='
      at index 1 whenever the first character is not a digit and the second is
      '=', the digits of a literal from index 0 -- and read it back as a C
      string. An empty result is end of line or an invalid character. The '='
      written behind a NUL at index 0 is never read, so an invalid character
      followed by '=' is still reported as that one character. The scratch
      buffer has room for the rest of the line and two more characters, so
      that the C reads one and two places ahead stay inside it. */
  method GetToken(line: seq<char>, pos: nat, prev: seq<char>) returns (res: ScanResult, cursor: nat)
    requires '\0' !in line
    requires pos <= |line|
    requires StrStr(line[pos..], prev).Some?
    ensures cursor == pos + StrStr(line[pos..], prev).value + |prev|
    ensures cursor <= |line|
    ensures res == Classify(line, cursor)
  {
    cursor := StringAfterToken(line, pos, prev);
    var temp := new char[|line| - cursor + 2](_ => '\0');
    var i := 0;
    if cursor < |line| && IsOperator(line[cursor]) {
      temp[0] := line[cursor];
    }
    if cursor + 1 < |line| && !IsDigit(line[cursor]) && line[cursor + 1] == '=' {
      temp[1] := '=';
    }
    ghost var before := temp[..];
    assert forall k :: 0 <= k < temp.Length ==> before[k] == Scratch(line, cursor, k);
    while cursor + i < |line| && IsDigit(line[cursor + i])
      modifies temp
      invariant cursor + i <= |line|
      invariant forall k :: cursor <= k < cursor + i ==> IsDigit(line[k])
      invariant forall k :: 0 <= k < i ==> temp[k] == line[cursor + k]
      invariant forall k :: i <= k < temp.Length ==> temp[k] == before[k]
    {
      temp[i] := line[cursor + i];
      i := i + 1;
    }
    var token := CString(temp[..]);
    ScratchHoldsToken(line, cursor, temp[..], i);
    if token == [] {
      if cursor < |line| {
        res := InvalidChar(line[cursor]);
      } else {
        res := EndOfLine;
      }
    } else {
      res := Token(token);
    }
  }

  /** What `get_token` writes into its scratch buffer at index `k` before
      copying digits: the operator symbol at 0, an '=' at 1 when the first
      character is not a digit and the second is '=', NUL everywhere else. */
  function Scratch(line: seq<char>, cur: nat, k: nat): char
  {
    if k == 0 && cur < |line| && IsOperator(line[cur]) then line[cur]
    else if k == 1 && cur + 1 < |line| && !IsDigit(line[cur]) && line[cur + 1] == '=' then '='
    else '\0'
  }

  /** Read back as a C string, the scratch buffer -- its leading digits
      overwritten by the digit run at the cursor -- is the token `Classify`
      finds, and it is empty exactly when there is no token. */
  lemma ScratchHoldsToken(line: seq<char>, cur: nat, t: seq<char>, i: nat)
    requires '\0' !in line && cur <= |line| && |t| == |line| - cur + 2
    requires cur + i <= |line|
    requires forall k :: cur <= k < cur + i ==> IsDigit(line[k])
    requires forall k :: 0 <= k < i ==> t[k] == line[cur + k]
    requires cur + i < |line| ==> !IsDigit(line[cur + i])
    requires forall k :: i <= k < |t| ==> t[k] == Scratch(line, cur, k)
    ensures var token := CString(t);
      Classify(line, cur) == if token != [] then Token(token) else if cur < |line| then InvalidChar(line[cur]) else EndOfLine
  {
    if cur == |line| {
      StrLenAt(t, 0);
    } else if IsOperator(line[cur]) {
      var n := Width(line, cur);
      StrLenAt(t, n);
      assert t[..n] == line[cur..cur + n];
    } else if IsDigit(line[cur]) {
      DigitEndAt(line, cur, cur + i);
      StrLenAt(t, i);
      assert t[..i] == line[cur..cur + i];
    } else {
      StrLenAt(t, 0);
    }
  }

  /** The characters a scan result stands for. */
  function Consumed(r: ScanResult): seq<char>
  {
    match r
    case Token(t) => t
    case InvalidChar(c) => [c]
    case EndOfLine => []
  }

  /** A scan step consumes exactly the characters it takes up at the cursor. */
  lemma ConsumedWidth(line: seq<char>, cur: nat)
    requires cur <= |line|
    ensures Consumed(Classify(line, cur)) == line[cur..cur + Width(line, cur)]
  {
    if cur < |line| && Classify(line, cur).InvalidChar? {
      assert line[cur..cur + 1] == [line[cur]];
    }
  }

  /** Scanning a line from offset `cur` to its end, stepping over each token
      and each invalid character. */
  function Lex(line: seq<char>, cur: nat): seq<ScanResult>
    requires cur <= |line|
    decreases |line| - cur
  {
    if cur == |line| then []
    else [Classify(line, cur)] + Lex(line, cur + Width(line, cur))
  }

  /** Scanning to the end of line never reports the end of line itself and
      gives at most one result per character. */
  lemma {:induction false} LexBounded(line: seq<char>, cur: nat)
    requires cur <= |line|
    ensures |Lex(line, cur)| <= |line| - cur
    ensures forall e :: e in Lex(line, cur) ==> !e.EndOfLine?
    decreases |line| - cur
  {
    if cur < |line| {
      LexBounded(line, cur + Width(line, cur));
    }
  }

  function Flatten(rs: seq<ScanResult>): seq<char>
  {
    if rs == [] then [] else Consumed(rs[0]) + Flatten(rs[1..])
  }

  lemma {:induction false} FlattenAppend(a: seq<ScanResult>, b: seq<ScanResult>)
    ensures Flatten(a + b) == Flatten(a) + Flatten(b)
  {
    if a != [] {
      assert (a + b)[1..] == a[1..] + b;
      FlattenAppend(a[1..], b);
    } else {
      assert a + b == b;
    }
  }

  /** Scanning to the end of line consumes every character exactly once:
      the consumed pieces, put back together, are the line. */
  lemma {:induction false} LexConsumesEverything(line: seq<char>, cur: nat)
    requires cur <= |line|
    ensures Flatten(Lex(line, cur)) == line[cur..]
    decreases |line| - cur
  {
    if cur < |line| {
      var r := Classify(line, cur);
      var next := cur + Width(line, cur);
      ConsumedWidth(line, cur);
      LexConsumesEverything(line, next);
      assert Flatten(Lex(line, cur)) == Consumed(r) + Flatten(Lex(line, next)) by {
        assert Lex(line, cur)[0] == r && Lex(line, cur)[1..] == Lex(line, next);
      }
      assert line[cur..] == line[cur..next] + line[next..];
    }
  }
}

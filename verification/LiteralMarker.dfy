/** The IMAP literal marker at the end of a command line: "{123}" or "{123+}"
    after a blank or an opening parenthesis. */
module LiteralMarker {
  import opened Octets

  const TWO_TO_THE_64: nat := 0x1_0000_0000_0000_0000

  datatype Marker = NoLiteral | Literal(size: nat) | SizeTooLarge

  predicate IsDigit(b: Byte) {
    ZERO <= b <= NINE
  }

  predicate AllDigits(s: Bytes) {
    forall i :: 0 <= i < |s| ==> IsDigit(s[i])
  }

  /** The number a string of digits denotes. */
  function Value(digits: Bytes): nat
    requires AllDigits(digits)
  {
    if digits == [] then 0 else 10 * Value(digits[..|digits| - 1]) + (digits[|digits| - 1] - ZERO)
  }

  /** Digits are read in base ten, the first of them being the character 0; sizes
      end below two to the sixty-fourth. */
  lemma DigitsAreDecimal(digits: Bytes, d: Byte)
    requires AllDigits(digits) && 48 <= d <= 57
    ensures Value([]) == 0 && AllDigits(digits + [d]) && Value(digits + [d]) == 10 * Value(digits) + (d - 48)
    ensures TWO_TO_THE_64 == 18_446_744_073_709_551_616
  {
    assert (digits + [d])[..|digits|] == digits;
  }

  /** The decimal digits of a number. */
  function Decimal(n: nat): (r: Bytes)
    ensures r != [] && AllDigits(r)
  {
    if n < 10 then [ZERO + n] else Decimal(n / 10) + [ZERO + n % 10]
  }

  lemma {:induction false} ValueOfDecimal(n: nat)
    ensures Value(Decimal(n)) == n
  {
    if n >= 10 {
      var rest := Decimal(n / 10);
      ValueOfDecimal(n / 10);
      var digits := rest + [ZERO + n % 10];
      assert digits[..|digits| - 1] == rest;
    }
  }

  function TrimSuffix(s: Bytes, b: Byte): Bytes {
    if s != [] && s[|s| - 1] == b then s[..|s| - 1] else s
  }

  function LastIndex(s: Bytes, b: Byte): (i: int)
    ensures -1 <= i < |s|
    ensures i >= 0 ==> s[i] == b
    ensures forall k :: i < k < |s| ==> s[k] != b
  {
    if s == [] then -1 else if s[|s| - 1] == b then |s| - 1 else LastIndex(s[..|s| - 1], b)
  }

  /** The digits of a marker body: what stands before an optional plus. */
  function WithoutPlus(body: Bytes): Bytes {
    TrimSuffix(body, PLUS)
  }

  function SizeOf(digits: Bytes): Marker
    requires AllDigits(digits)
  {
    if Value(digits) < TWO_TO_THE_64 then Literal(Value(digits)) else SizeTooLarge
  }

  /** What the line announces: no literal, a literal of some size, or a size
      that does not fit 64 bits. */
  function LiteralAtLineEnd(line: Bytes): Marker {
    var text := TrimSuffix(TrimSuffix(line, LF), CR);
    if |text| < 3 || text[|text| - 1] != CLOSE then NoLiteral
    else
      var open := LastIndex(text, OPEN);
      if open <= 0 || (text[open - 1] != BLANK && text[open - 1] != PAREN) then NoLiteral
      else
        var digits := WithoutPlus(text[open + 1..|text| - 1]);
        if digits == [] || !AllDigits(digits) then NoLiteral else SizeOf(digits)
  }

  /** The line is a prefix that ends in a blank or an opening parenthesis, then a
      marker with these digits, then the end of the line. */
  predicate Announces(line: Bytes, prefix: Bytes, digits: Bytes, plus: bool, ending: Bytes) {
    && line == prefix + [OPEN] + digits + (if plus then [PLUS] else []) + [CLOSE] + ending
    && prefix != [] && (prefix[|prefix| - 1] == BLANK || prefix[|prefix| - 1] == PAREN)
    && digits != [] && AllDigits(digits)
    && (ending == [] || ending == [CR] || ending == [LF] || ending == [CR, LF])
  }

  /** The text of a line whose last byte before its end is a closing brace. */
  lemma TextBeforeEnding(text: Bytes, ending: Bytes)
    requires text != [] && text[|text| - 1] == CLOSE
    requires ending == [] || ending == [CR] || ending == [LF] || ending == [CR, LF]
    ensures TrimSuffix(TrimSuffix(text + ending, LF), CR) == text
  {
    var line := text + ending;
    if ending == [] {
      assert line == text;
    } else if |ending| == 1 {
      assert line[..|line| - 1] == text;
    } else {
      assert line[..|line| - 1] == text + [CR];
      assert (text + [CR])[..|text|] == text;
    }
  }

  lemma LastIndexIs(s: Bytes, b: Byte, i: nat)
    requires i < |s| && s[i] == b && forall k :: i < k < |s| ==> s[k] != b
    ensures LastIndex(s, b) == i
  {
  }

  lemma MarkerText(prefix: Bytes, digits: Bytes, plus: bool)
    requires digits != [] && AllDigits(digits)
    ensures var text := prefix + [OPEN] + digits + (if plus then [PLUS] else []) + [CLOSE];
            && LastIndex(text, OPEN) == |prefix| && text[|text| - 1] == CLOSE
            && WithoutPlus(text[|prefix| + 1..|text| - 1]) == digits
  {
    var tail: Bytes := if plus then [PLUS] else [];
    var text := prefix + [OPEN] + digits + tail + [CLOSE];
    assert text[|prefix| + 1..|text| - 1] == digits + tail;
    assert (digits + [PLUS])[..|digits|] == digits;
    assert digits + [] == digits;
    forall k | |prefix| < k < |text| ensures text[k] != OPEN {
      if k <= |prefix| + |digits| {
        assert text[k] == digits[k - |prefix| - 1];
      }
    }
    LastIndexIs(text, OPEN, |prefix|);
  }

  /** A line that ends in a marker announces the decimal value of its digits, or
      an error when that value needs more than 64 bits. */
  lemma MarkerIsRead(line: Bytes, prefix: Bytes, digits: Bytes, plus: bool, ending: Bytes)
    requires Announces(line, prefix, digits, plus, ending)
    ensures LiteralAtLineEnd(line) == if Value(digits) < TWO_TO_THE_64 then Literal(Value(digits)) else SizeTooLarge
  {
    var text := prefix + [OPEN] + digits + (if plus then [PLUS] else []) + [CLOSE];
    assert line == text + ending;
    MarkerText(prefix, digits, plus);
    TextBeforeEnding(text, ending);
    hide LastIndex, TrimSuffix;
    assert text[|prefix| - 1] == prefix[|prefix| - 1];
  }

  lemma EndingOf(line: Bytes) returns (ending: Bytes)
    ensures line == TrimSuffix(TrimSuffix(line, LF), CR) + ending
    ensures ending == [] || ending == [CR] || ending == [LF] || ending == [CR, LF]
  {
    var once := TrimSuffix(line, LF);
    var twice := TrimSuffix(once, CR);
    ending := line[|twice|..];
    if once != line {
      assert line == once + [LF];
    }
    if twice != once {
      assert once == twice + [CR];
    }
  }

  /** Every line the parser takes for a literal line ends in a marker. */
  lemma MarkerWasThere(line: Bytes) returns (prefix: Bytes, digits: Bytes, plus: bool, ending: Bytes)
    requires LiteralAtLineEnd(line) != NoLiteral
    ensures Announces(line, prefix, digits, plus, ending)
  {
    var text := TrimSuffix(TrimSuffix(line, LF), CR);
    ending := EndingOf(line);
    var open := LastIndex(text, OPEN);
    var body := text[open + 1..|text| - 1];
    prefix, digits := text[..open], WithoutPlus(body);
    plus := digits != body;
    CutAt(text, open);
    PutBack(body);
    hide LastIndex, TrimSuffix, AllDigits, SizeOf, WithoutPlus, IsDigit;
    PutTogether(line, text, prefix, body, digits, plus, ending);
  }

  lemma PutTogether(line: Bytes, text: Bytes, prefix: Bytes, body: Bytes, digits: Bytes, plus: bool, ending: Bytes)
    requires line == text + ending && text == prefix + [OPEN] + body + [CLOSE]
             && body == digits + if plus then [PLUS] else []
    ensures line == prefix + [OPEN] + digits + (if plus then [PLUS] else []) + [CLOSE] + ending
  {
    assert prefix + [OPEN] + (digits + if plus then [PLUS] else []) == prefix + [OPEN] + digits + if plus then [PLUS]
      else [];
  }

  lemma CutAt(text: Bytes, open: nat)
    requires open < |text| - 1 && text[open] == OPEN && text[|text| - 1] == CLOSE
    ensures text == text[..open] + [OPEN] + text[open + 1..|text| - 1] + [CLOSE]
  {
  }

  lemma PutBack(body: Bytes)
    ensures body == WithoutPlus(body) + if WithoutPlus(body) != body then [PLUS] else []
  {
  }

  /** Exactly the lines that end in a marker announce a literal. */
  lemma AcceptsExactlyMarkers(line: Bytes)
    ensures LiteralAtLineEnd(line) != NoLiteral <==>
            exists prefix, digits, plus, ending :: Announces(line, prefix, digits, plus, ending)
  {
    if LiteralAtLineEnd(line) != NoLiteral {
      var prefix, digits, plus, ending := MarkerWasThere(line);
    }
    if exists prefix, digits, plus, ending :: Announces(line, prefix, digits, plus, ending) {
      var prefix, digits, plus, ending :| Announces(line, prefix, digits, plus, ending);
      MarkerIsRead(line, prefix, digits, plus, ending);
    }
  }

  /** Reading undoes printing: after any prefix that may stand before a literal,
      with or without a plus, with either line ending. */
  lemma RoundTrip(prefix: Bytes, size: nat, plus: bool, crlf: bool)
    requires prefix != [] && (prefix[|prefix| - 1] == BLANK || prefix[|prefix| - 1] == PAREN)
    ensures var line := prefix + [OPEN] + Decimal(size) + (if plus then [PLUS] else []) + [CLOSE]
            + (if crlf then [CR, LF] else [LF]);
            LiteralAtLineEnd(line) == if size < TWO_TO_THE_64 then Literal(size) else SizeTooLarge
  {
    var ending: Bytes := if crlf then [CR, LF] else [LF];
    var line := prefix + [OPEN] + Decimal(size) + (if plus then [PLUS] else []) + [CLOSE] + ending;
    ValueOfDecimal(size);
    MarkerIsRead(line, prefix, Decimal(size), plus, ending);
  }
}

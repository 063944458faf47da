/** Removing blind-copy fields from the raw bytes of a submitted message. */
module BccStripping {
  import opened Common
  import opened Octets

  const COLON: Byte := 58
  const TAB: Byte := 9

  // ---------------------------------------------------------- field names

  function LowerByte(b: Byte): Byte {
    if 65 <= b <= 90 then b + 32 else b
  }

  predicate SameName(a: Bytes, b: Bytes) {
    |a| == |b| && forall i :: 0 <= i < |a| ==> LowerByte(a[i]) == LowerByte(b[i])
  }

  predicate IsSpace(b: Byte) {
    b == BLANK || 9 <= b <= 13
  }

  function TrimSpace(s: Bytes): Bytes {
    if s == [] then [] else if IsSpace(s[0]) then TrimSpace(s[1..])
    else if IsSpace(s[|s| - 1]) then TrimSpace(s[..|s| - 1]) else s
  }

  /** "Bcc" and "Resent-Bcc". */
  const BCC: Bytes := [66, 99, 99]
  const RESENT_BCC: Bytes := [82, 101, 115, 101, 110, 116, 45, 66, 99, 99]

  function IndexOf(s: Bytes, b: Byte): (i: int)
    ensures -1 <= i < |s|
    ensures i >= 0 ==> s[i] == b && forall k :: 0 <= k < i ==> s[k] != b
    ensures i < 0 ==> forall k :: 0 <= k < |s| ==> s[k] != b
  {
    if s == [] then -1 else if s[0] == b then 0 else
      var i := IndexOf(s[1..], b);
      if i < 0 then -1 else i + 1
  }

  predicate Continues(line: Bytes) {
    line != [] && (line[0] == BLANK || line[0] == TAB)
  }

  /** The line starts a Bcc or Resent-Bcc field. */
  predicate StartsBcc(line: Bytes) {
    && !Continues(line)
    && var colon := IndexOf(line, COLON);
       colon > 0 && (SameName(TrimSpace(line[..colon]), BCC) || SameName(TrimSpace(line[..colon]), RESENT_BCC))
  }

  /** The bytes spell the text, which is in small letters, in any mixture of case. */
  predicate Spells(name: Bytes, text: string) {
    |name| == |text| && forall i :: 0 <= i < |name| ==>
      name[i] == text[i] as int || ('a' <= text[i] <= 'z' && name[i] == text[i] as int - 32)
  }

  predicate AllSpace(s: Bytes, i: nat, j: nat) {
    forall k :: i <= k < j && k < |s| ==> s[k] == 32 || 9 <= s[k] <= 13
  }

  /** The line is a field that begins right at its start: a name, perhaps with
      blanks around it, and a colon. */
  predicate NamedField(line: Bytes, i: nat, j: nat, colon: nat) {
    && i < j <= colon < |line| && line[colon] == 58 && (forall k :: 0 <= k < colon ==> line[k] != 58)
    && AllSpace(line, 0, i) && AllSpace(line, j, colon) && line[0] != 32 && line[0] != 9
  }

  lemma {:induction false} TrimSpaceIs(s: Bytes, i: nat, j: nat)
    requires i < j <= |s| && AllSpace(s, 0, i) && AllSpace(s, j, |s|) && !IsSpace(s[i]) && !IsSpace(s[j - 1])
    ensures TrimSpace(s) == s[i..j]
    decreases |s|
  {
    if i > 0 {
      var rest := s[1..];
      assert forall k :: 0 <= k < |rest| ==> rest[k] == s[k + 1];
      TrimSpaceIs(rest, i - 1, j - 1);
      assert rest[i - 1..j - 1] == s[i..j];
    } else if j < |s| {
      TrimSpaceIs(s[..|s| - 1], i, j);
      assert s[..|s| - 1][i..j] == s[i..j];
    }
  }

  lemma {:induction false} TrimSpaceAt(s: Bytes) returns (i: nat, j: nat)
    ensures i <= j <= |s| && TrimSpace(s) == s[i..j] && AllSpace(s, 0, i) && AllSpace(s, j, |s|)
    decreases |s|
  {
    if s == [] {
      i, j := 0, 0;
    } else if IsSpace(s[0]) {
      i, j := TrimSpaceAt(s[1..]);
      i, j := i + 1, j + 1;
      assert forall k :: 0 < k < |s| ==> s[k] == s[1..][k - 1];
    } else if IsSpace(s[|s| - 1]) {
      i, j := TrimSpaceAt(s[..|s| - 1]);
    } else {
      i, j := 0, |s|;
    }
  }

  lemma SpellsIs(name: Bytes)
    ensures Spells(name, "bcc") <==> SameName(name, BCC)
    ensures Spells(name, "resent-bcc") <==> SameName(name, RESENT_BCC)
  {
    var b, r := "bcc", "resent-bcc";
    assert |b| == 3 && b[0] == 'b' && b[1] == 'c' && b[2] == 'c';
    assert |r| == 10 && r[0] == 'r' && r[1] == 'e' && r[2] == 's' && r[3] == 'e' && r[4] == 'n' && r[5] == 't';
    assert r[6] == '-' && r[7] == 'b' && r[8] == 'c' && r[9] == 'c';
  }

  lemma SpellingsHaveNoBlankEnds(name: Bytes)
    requires Spells(name, "bcc") || Spells(name, "resent-bcc")
    ensures name != [] && !IsSpace(name[0]) && !IsSpace(name[|name| - 1])
  {
    assert "bcc"[0] == 'b' && "bcc"[2] == 'c' && "resent-bcc"[0] == 'r' && "resent-bcc"[9] == 'c';
  }

  lemma ColonAt(line: Bytes, colon: nat)
    requires colon < |line| && line[colon] == COLON && forall k :: 0 <= k < colon ==> line[k] != COLON
    ensures IndexOf(line, COLON) == colon
  {
  }

  ghost predicate Spelled(line: Bytes, i: nat, j: nat, colon: nat) {
    NamedField(line, i, j, colon) && (Spells(line[i..j], "bcc") || Spells(line[i..j], "resent-bcc"))
  }

  lemma BccIsSpelled(line: Bytes) returns (i: nat, j: nat, colon: nat)
    requires StartsBcc(line)
    ensures Spelled(line, i, j, colon)
  {
    colon := IndexOf(line, COLON);
    i, j := TrimSpaceAt(line[..colon]);
    assert line[..colon][i..j] == line[i..j];
    SpellsIs(line[i..j]);
    hide TrimSpace, IndexOf, Spells;
  }

  lemma SpelledIsBcc(line: Bytes, i: nat, j: nat, colon: nat)
    requires Spelled(line, i, j, colon)
    ensures StartsBcc(line)
  {
    ColonAt(line, colon);
    SpellsIs(line[i..j]);
    SpellingsHaveNoBlankEnds(line[i..j]);
    TrimSpaceIs(line[..colon], i, j);
    assert line[..colon][i..j] == line[i..j];
    hide TrimSpace, IndexOf, Spells, SameName, IsSpace;
  }

  /** A line starts a blind-copy field exactly if its name, without the blanks
      around it and in any letters, is bcc or resent-bcc. */
  lemma StartsBccExactlyWhen(line: Bytes)
    ensures StartsBcc(line) <==> exists i: nat, j: nat, colon: nat :: Spelled(line, i, j, colon)
  {
    hide StartsBcc, Spelled;
    if StartsBcc(line) {
      var i, j, colon := BccIsSpelled(line);
    } else {
      forall i: nat, j: nat, colon: nat ensures !Spelled(line, i, j, colon) {
        if Spelled(line, i, j, colon) {
          SpelledIsBcc(line, i, j, colon);
        }
      }
    }
  }

  // ------------------------------------------------------- headers as lines

  datatype Header = Header(lines: seq<Bytes>, body: Bytes)

  /** A line break takes an optional carriage return before it along. */
  function Content(line: Bytes): Bytes {
    if line != [] && line[|line| - 1] == CR then line[..|line| - 1] else line
  }

  /** The header lines up to the first empty one, and what comes after it. */
  function Split(raw: Bytes): Option<Header>
    decreases |raw|
  {
    var end := FirstBreak(raw);
    if end == |raw| then None
    else
      var line := Content(raw[..end]);
      if line == [] then Some(Header([], raw[end + 1..]))
      else
        match Split(raw[end + 1..])
        case None => None
        case Some(rest) => Some(Header([line] + rest.lines, rest.body))
  }

  /** A line that can stand in a header as it is. */
  predicate Proper(line: Bytes) {
    line != [] && NoBreak(line)
  }

  predicate AllProper(lines: seq<Bytes>) {
    forall i :: 0 <= i < |lines| ==> Proper(lines[i])
  }

  /** A line ending: CRLF, or LF after a line that does not end in CR. */
  predicate EndingFits(line: Bytes, crlf: bool) {
    crlf || line == [] || line[|line| - 1] != CR
  }

  function Ended(line: Bytes, crlf: bool): Bytes {
    line + if crlf then [CR, LF] else [LF]
  }

  predicate EndingsFit(lines: seq<Bytes>, endings: seq<bool>) {
    |endings| == |lines| + 1 && forall i :: 0 <= i < |lines| ==> EndingFits(lines[i], endings[i])
  }

  /** Lines with their endings, an empty line, and the body. */
  function Written(h: Header, endings: seq<bool>): Bytes
    requires |endings| == |h.lines| + 1
    decreases |h.lines|
  {
    if h.lines == [] then Ended([], endings[0]) + h.body
    else Ended(h.lines[0], endings[0]) + Written(Header(h.lines[1..], h.body), endings[1..])
  }

  lemma SplitLine(line: Bytes, crlf: bool, rest: Bytes)
    requires NoBreak(line) && EndingFits(line, crlf)
    ensures var raw := Ended(line, crlf) + rest;
            var end := FirstBreak(raw);
            end < |raw| && Content(raw[..end]) == line && raw[end + 1..] == rest
  {
    var raw := Ended(line, crlf) + rest;
    var end := |line| + if crlf then 1 else 0;
    assert raw[..end] == line + if crlf then [CR] else [];
    assert raw[end] == LF && raw[end + 1..] == rest;
    FirstBreakIs(raw, end);
    assert (line + [CR])[..|line|] == line;
    assert line + [] == line;
  }

  /** What splitting the rest gives, with lines already seen in front. */
  function After(lines: seq<Bytes>, rest: Option<Header>): Option<Header> {
    match rest
    case None => None
    case Some(h) => Some(Header(lines + h.lines, h.body))
  }

  lemma SplitUnfold(raw: Bytes)
    requires FirstBreak(raw) < |raw|
    ensures var end := FirstBreak(raw);
            var line := Content(raw[..end]);
            Split(raw) == if line == [] then Some(Header([], raw[end + 1..])) else After([line], Split(raw[end + 1..]))
  {
    hide FirstBreak, Content;
  }

  lemma SplitEnded(line: Bytes, crlf: bool, rest: Bytes)
    requires NoBreak(line) && EndingFits(line, crlf)
    ensures Split(Ended(line, crlf) + rest) == if line == [] then Some(Header([], rest)) else After([line], Split(rest))
  {
    hide *;
    SplitLine(line, crlf, rest);
    SplitUnfold(Ended(line, crlf) + rest);
  }

  lemma TailFits(h: Header, endings: seq<bool>)
    requires h.lines != [] && AllProper(h.lines) && EndingsFit(h.lines, endings)
    ensures AllProper(h.lines[1..]) && EndingsFit(h.lines[1..], endings[1..])
    ensures NoBreak(h.lines[0]) && h.lines[0] != [] && EndingFits(h.lines[0], endings[0])
    ensures [h.lines[0]] + h.lines[1..] == h.lines
  {
    hide NoBreak, EndingFits;
  }

  /** Splitting undoes writing, whatever mix of line endings was written. */
  lemma {:induction false} SplitUndoesWriting(h: Header, endings: seq<bool>)
    requires AllProper(h.lines) && EndingsFit(h.lines, endings)
    ensures Split(Written(h, endings)) == Some(h)
    decreases |h.lines|
  {
    if h.lines == [] {
      hide Split, Ended;
      SplitEnded([], endings[0], h.body);
    } else {
      TailFits(h, endings);
      hide Split, Ended, AllProper, EndingsFit, NoBreak, EndingFits;
      var rest := Header(h.lines[1..], h.body);
      SplitUndoesWriting(rest, endings[1..]);
      SplitEnded(h.lines[0], endings[0], Written(rest, endings[1..]));
    }
  }

  /** The ending the first line of the bytes has. */
  lemma LineWasEnded(raw: Bytes) returns (crlf: bool)
    requires FirstBreak(raw) < |raw|
    ensures var end := FirstBreak(raw);
            var line := Content(raw[..end]);
            NoBreak(line) && EndingFits(line, crlf) && raw == Ended(line, crlf) + raw[end + 1..]
  {
    var end := FirstBreak(raw);
    var whole := raw[..end];
    crlf := Content(whole) != whole;
    assert raw == whole + [LF] + raw[end + 1..];
    if crlf {
      assert whole == Content(whole) + [CR];
      assert raw == Content(whole) + [CR, LF] + raw[end + 1..];
    }
  }

  lemma FitsOneMore(line: Bytes, crlf: bool, lines: seq<Bytes>, rest: seq<bool>)
    requires Proper(line) && EndingFits(line, crlf) && AllProper(lines) && EndingsFit(lines, rest)
    ensures AllProper([line] + lines) && EndingsFit([line] + lines, [crlf] + rest)
  {
    hide Proper, EndingFits;
  }

  lemma WrittenOneMore(line: Bytes, crlf: bool, h: Header, rest: seq<bool>)
    requires |rest| == |h.lines| + 1
    ensures Written(Header([line] + h.lines, h.body), [crlf] + rest) == Ended(line, crlf) + Written(h, rest)
  {
    assert ([line] + h.lines)[1..] == h.lines && ([crlf] + rest)[1..] == rest;
  }

  /** Every message with a boundary is its lines with some endings, an empty line
      and the body. */
  lemma {:induction false} SplitWasWritten(raw: Bytes) returns (endings: seq<bool>)
    requires Split(raw).Some?
    ensures var h := Split(raw).value; AllProper(h.lines) && EndingsFit(h.lines, endings) && Written(h, endings) == raw
    decreases |raw|
  {
    var end := FirstBreak(raw);
    SplitUnfold(raw);
    var crlf := LineWasEnded(raw);
    var line := Content(raw[..end]);
    if line == [] {
      endings := [crlf];
    } else {
      hide FirstBreak, Content, Split, Written, AllProper, EndingsFit, EndingFits, NoBreak, Ended;
      var rest := SplitWasWritten(raw[end + 1..]);
      endings := [crlf] + rest;
      var h := Split(raw[end + 1..]).value;
      FitsOneMore(line, crlf, h.lines, rest);
      FitsLength(h.lines, rest);
      WrittenOneMore(line, crlf, h, rest);
    }
  }

  lemma FitsLength(lines: seq<Bytes>, endings: seq<bool>)
    requires EndingsFit(lines, endings)
    ensures |endings| == |lines| + 1
  {
  }

  // ------------------------------------------------------------- stripping

  /** Where the field of a line starts: the nearest line at or before it that is
      no continuation; -1 when there is none. */
  function FieldStart(lines: seq<Bytes>, i: nat): (j: int)
    requires i < |lines|
    ensures -1 <= j <= i && (j >= 0 ==> !Continues(lines[j])) && forall k :: j < k <= i ==> Continues(lines[k])
  {
    if !Continues(lines[i]) then i else if i == 0 then -1 else FieldStart(lines, i - 1)
  }

  /** The line belongs to a Bcc or Resent-Bcc field. */
  predicate Hidden(lines: seq<Bytes>, i: nat)
    requires i < |lines|
  {
    FieldStart(lines, i) >= 0 && StartsBcc(lines[FieldStart(lines, i)])
  }

  /** A line is hidden exactly if a blind-copy line stands at or before it and all
      lines since begin with a blank or a tab. */
  lemma HiddenExactlyWhen(lines: seq<Bytes>, i: nat)
    requires i < |lines|
    ensures Hidden(lines, i) <==>
              exists j :: 0 <= j <= i && StartsBcc(lines[j])
                          && forall k :: j < k <= i ==> lines[k] != [] && (lines[k][0] == 32 || lines[k][0] == 9)
  {
    var start := FieldStart(lines, i);
    hide FieldStart, IndexOf, TrimSpace, SameName;
    forall j | 0 <= j <= i && StartsBcc(lines[j])
               && forall k :: j < k <= i ==> lines[k] != [] && (lines[k][0] == 32 || lines[k][0] == 9)
      ensures j == start
    {
      assert !Continues(lines[j]) && forall k :: j < k <= i ==> Continues(lines[k]);
    }
    if Hidden(lines, i) {
      assert forall k :: start < k <= i ==> Continues(lines[k]);
    }
  }

  /** The first n lines without those of Bcc and Resent-Bcc fields, in order. */
  function KeptOf(lines: seq<Bytes>, n: nat): seq<Bytes>
    requires n <= |lines|
  {
    if n == 0 then [] else KeptOf(lines, n - 1) + if Hidden(lines, n - 1) then [] else [lines[n - 1]]
  }

  function Kept(lines: seq<Bytes>): seq<Bytes> {
    KeptOf(lines, |lines|)
  }

  predicate AnyHidden(lines: seq<Bytes>, n: nat)
    requires n <= |lines|
  {
    exists i :: 0 <= i < n && Hidden(lines, i)
  }

  function CrlfLines(lines: seq<Bytes>): Bytes {
    if lines == [] then [] else CrlfLines(lines[..|lines| - 1]) + lines[|lines| - 1] + [CR, LF]
  }

  /** The message without its blind-copy fields. Without a boundary, and without
      such a field, it is left as it is. */
  function Stripped(raw: Bytes): Bytes {
    match Split(raw)
    case None => raw
    case Some(h) => if AnyHidden(h.lines, |h.lines|) then CrlfLines(Kept(h.lines)) + [CR, LF] + h.body else raw
  }

  lemma {:induction false} KeptAreProper(lines: seq<Bytes>, n: nat)
    requires n <= |lines| && AllProper(lines)
    ensures AllProper(KeptOf(lines, n))
    decreases n
  {
    hide Hidden, Proper;
    if n > 0 {
      KeptAreProper(lines, n - 1);
    }
  }

  lemma {:induction false} NoneKeptStartsBcc(lines: seq<Bytes>, n: nat)
    requires n <= |lines|
    ensures forall i :: 0 <= i < |KeptOf(lines, n)| ==> !StartsBcc(KeptOf(lines, n)[i])
    decreases n
  {
    if n > 0 {
      NoneKeptStartsBcc(lines, n - 1);
      assert StartsBcc(lines[n - 1]) ==> FieldStart(lines, n - 1) == n - 1;
      hide StartsBcc;
    }
  }

  lemma KeptHidesNothing(lines: seq<Bytes>)
    ensures !AnyHidden(Kept(lines), |Kept(lines)|)
  {
    NoneKeptStartsBcc(lines, |lines|);
    hide KeptOf, StartsBcc;
  }

  lemma {:induction false} NothingHiddenAllKept(lines: seq<Bytes>, n: nat)
    requires n <= |lines| && !AnyHidden(lines, n)
    ensures KeptOf(lines, n) == lines[..n]
    decreases n
  {
    if n > 0 {
      assert forall i :: 0 <= i < n ==> !Hidden(lines, i);
      hide Hidden;
      NothingHiddenAllKept(lines, n - 1);
      assert lines[..n] == lines[..n - 1] + [lines[n - 1]];
    }
  }

  function AllCrlf(n: nat): seq<bool> {
    seq(n, _ => true)
  }

  lemma {:induction false} CrlfLinesAreWritten(lines: seq<Bytes>, more: seq<Bytes>, body: Bytes)
    ensures CrlfLines(lines) + Written(Header(more, body), AllCrlf(|more| + 1))
            == Written(Header(lines + more, body), AllCrlf(|lines| + |more| + 1))
    decreases |lines|
  {
    if lines == [] {
      assert lines + more == more;
    } else {
      var front, last := lines[..|lines| - 1], lines[|lines| - 1];
      var longer := [last] + more;
      CrlfLinesAreWritten(front, longer, body);
      assert front + longer == lines + more;
      assert longer[1..] == more && AllCrlf(|longer| + 1)[1..] == AllCrlf(|more| + 1);
      assert Written(Header(longer, body), AllCrlf(|longer| + 1))
        == Ended(last, true) + Written(Header(more, body), AllCrlf(|more| + 1));
    }
  }

  lemma CrlfText(lines: seq<Bytes>, body: Bytes)
    ensures CrlfLines(lines) + [CR, LF] + body == Written(Header(lines, body), AllCrlf(|lines| + 1))
  {
    var none: seq<Bytes> := [];
    CrlfLinesAreWritten(lines, none, body);
    assert lines + none == lines;
    assert Ended([], true) == [CR, LF];
    assert Written(Header(none, body), AllCrlf(1)) == [CR, LF] + body;
    hide CrlfLines, Written;
    assert CrlfLines(lines) + [CR, LF] + body == CrlfLines(lines) + ([CR, LF] + body);
  }

  /** A message from which a field goes is written anew, each line ending in CRLF. */
  lemma StrippedIsCrlf(raw: Bytes)
    requires Split(raw).Some? && AnyHidden(Split(raw).value.lines, |Split(raw).value.lines|)
    ensures var h := Split(raw).value;
            var kept := Kept(h.lines);
            Stripped(raw) == Written(Header(kept, h.body), seq(|kept| + 1, _ => true))
  {
    var h := Split(raw).value;
    CrlfText(Kept(h.lines), h.body);
    hide Split, Written, CrlfLines, KeptOf;
    assert AllCrlf(|Kept(h.lines)| + 1) == seq(|Kept(h.lines)| + 1, _ => true);
  }

  lemma CrlfFits(lines: seq<Bytes>)
    ensures EndingsFit(lines, AllCrlf(|lines| + 1))
  {
  }

  lemma CrlfHeaderSplits(lines: seq<Bytes>, body: Bytes)
    requires AllProper(lines)
    ensures Split(CrlfLines(lines) + [CR, LF] + body) == Some(Header(lines, body))
  {
    CrlfText(lines, body);
    CrlfFits(lines);
    hide *;
    SplitUndoesWriting(Header(lines, body), AllCrlf(|lines| + 1));
  }

  /** Splitting the stripped message gives exactly the lines that belong to no
      blind-copy field, in order, and the same body. */
  lemma StripsExactlyBlindCopies(raw: Bytes)
    requires Split(raw).Some?
    ensures Split(Stripped(raw)) == Some(Header(Kept(Split(raw).value.lines), Split(raw).value.body))
  {
    var h := Split(raw).value;
    var _ := SplitWasWritten(raw);
    if AnyHidden(h.lines, |h.lines|) {
      KeptAreProper(h.lines, |h.lines|);
      CrlfHeaderSplits(Kept(h.lines), h.body);
    } else {
      NothingHiddenAllKept(h.lines, |h.lines|);
      assert h.lines[..|h.lines|] == h.lines;
    }
    hide Split, AnyHidden, KeptOf, CrlfLines;
  }

  /** A stripped message with a boundary has no blind-copy line, and stripping it
      again changes nothing. */
  lemma StrippingTwice(raw: Bytes)
    ensures Stripped(Stripped(raw)) == Stripped(raw)
    ensures Split(raw).Some? ==>
              Split(Stripped(raw)).Some? && !AnyHidden(Split(Stripped(raw)).value.lines,
                |Split(Stripped(raw)).value.lines|)
  {
    if Split(raw).Some? {
      StripsExactlyBlindCopies(raw);
      KeptHidesNothing(Split(raw).value.lines);
      hide AnyHidden, Kept, Split;
    }
  }

  /** Stripping is the identity exactly on the messages without a boundary and
      those without a blind-copy field. */
  lemma StrippingNothing(raw: Bytes)
    ensures Stripped(raw) == raw <==> Split(raw).None? || !AnyHidden(Split(raw).value.lines, |Split(raw).value.lines|)
  {
    if Split(raw).Some? && AnyHidden(Split(raw).value.lines, |Split(raw).value.lines|) {
      StripsExactlyBlindCopies(raw);
      KeptHidesNothing(Split(raw).value.lines);
      hide AnyHidden, Kept, Split;
    }
  }

  // ---------------------------------------------- messages without boundary

  /** The header lines of any message: up to the first empty one or, without
      one, to its end; a last line need not be terminated. */
  function HeaderLines(raw: Bytes): seq<Bytes>
    decreases |raw|
  {
    var end := FirstBreak(raw);
    var line := Content(raw[..end]);
    if line == [] then [] else if end == |raw| then [line] else [line] + HeaderLines(raw[end + 1..])
  }

  /** Some header line of the message starts a blind-copy field. */
  predicate ShowsBcc(raw: Bytes) {
    exists i :: 0 <= i < |HeaderLines(raw)| && StartsBcc(HeaderLines(raw)[i])
  }

  /** With a boundary they are the lines that splitting finds. */
  lemma {:induction false} HeaderLinesOfSplit(raw: Bytes)
    requires Split(raw).Some?
    ensures HeaderLines(raw) == Split(raw).value.lines
    decreases |raw|
  {
    hide FirstBreak, Content;
    var end := FirstBreak(raw);
    if Content(raw[..end]) != [] {
      HeaderLinesOfSplit(raw[end + 1..]);
    }
  }

  /** A stripped message still shows a blind-copy field exactly when the message
      has no boundary and shows one. */
  lemma BccRemainsExactlyWhen(raw: Bytes)
    ensures ShowsBcc(Stripped(raw)) <==> Split(raw).None? && ShowsBcc(raw)
  {
    if Split(raw).Some? {
      StripsExactlyBlindCopies(raw);
      HeaderLinesOfSplit(Stripped(raw));
      NoneKeptStartsBcc(Split(raw).value.lines, |Split(raw).value.lines|);
      hide StartsBcc, Split, HeaderLines, Stripped, KeptOf;
    } else {
      hide StartsBcc, Split, HeaderLines;
    }
  }

  lemma BccLineStarts(line: Bytes)
    requires |line| > 3 && line[0] == BCC[0] && line[1] == BCC[1] && line[2] == BCC[2] && line[3] == COLON
    ensures StartsBcc(line)
  {
    assert line[..3] == [line[0], line[1], line[2]] == BCC;
    assert IndexOf(line, COLON) == 3;
    assert TrimSpace(BCC) == BCC;
  }

  /** A line content that neither breaks nor ends in a carriage return. */
  predicate PlainLine(line: Bytes) {
    line != [] && NoBreak(line) && line[|line| - 1] != CR
  }

  lemma FirstLineIs(raw: Bytes, line: Bytes, rest: Bytes)
    requires raw == line + [LF] + rest && PlainLine(line)
    ensures HeaderLines(raw) == [line] + HeaderLines(rest)
    ensures Split(raw) == After([line], Split(rest))
  {
    assert raw == Ended(line, false) + rest;
    SplitLine(line, false, rest);
    SplitUnfold(raw);
    hide FirstBreak, Content, Split;
  }

  lemma NoLines(raw: Bytes)
    requires raw == []
    ensures Split(raw) == None && HeaderLines(raw) == []
  {
  }

  /** A message of two header lines and nothing else, the second one a blind copy,
      keeps it. */
  lemma HeaderOnlyKeepsItsBcc(raw: Bytes, first: Bytes, second: Bytes)
    requires PlainLine(first) && PlainLine(second) && StartsBcc(second) && raw == first + [LF] + (second + [LF])
    ensures Split(raw) == None && Stripped(raw) == raw && ShowsBcc(Stripped(raw))
  {
    hide StartsBcc, Split, HeaderLines, PlainLine;
    var none: Bytes := [];
    assert second + [LF] == second + [LF] + none;
    FirstLineIs(raw, first, second + [LF]);
    FirstLineIs(second + [LF], second, none);
    NoLines(none);
    assert HeaderLines(raw) == [first, second] && HeaderLines(raw)[1] == second;
  }

  /** "From: a" and "Bcc: b" with no empty line after them. */
  lemma SuchAMessage(raw: Bytes)
    requires raw == [70, 114, 111, 109, 58, 32, 97, LF, 66, 99, 99, 58, 32, 98, LF]
    ensures Split(raw) == None && Stripped(raw) == raw && ShowsBcc(Stripped(raw))
  {
    var first, second := raw[..7], raw[8..14];
    assert PlainLine(first) && PlainLine(second);
    assert |second| == 6 && second[0] == raw[8] && second[1] == raw[9] && second[2] == raw[10] && second[3] == raw[11];
    assert raw == first + [LF] + (second + [LF]);
    hide StartsBcc, PlainLine, Split, Stripped, ShowsBcc, HeaderLines;
    BccLineStarts(second);
    HeaderOnlyKeepsItsBcc(raw, first, second);
  }

  // ------------------------------------------------------------- what stays

  /** A line stays exactly when it belongs to no blind-copy field. */
  lemma {:induction false} KeptInOrder(lines: seq<Bytes>, n: nat, i: nat)
    requires i < n <= |lines| && !Hidden(lines, i)
    ensures |KeptOf(lines, i)| < |KeptOf(lines, n)| && KeptOf(lines, n)[|KeptOf(lines, i)|] == lines[i]
    ensures KeptOf(lines, i) <= KeptOf(lines, n)
    decreases n
  {
    hide Hidden;
    if i < n - 1 {
      KeptInOrder(lines, n - 1, i);
    }
  }

  // --------------------------------------------------------------- methods

  method IndexByte(s: Bytes, from: nat, b: Byte) returns (i: int)
    requires from <= |s|
    ensures i >= 0 ==> from <= i < |s| && s[i] == b && forall k :: from <= k < i ==> s[k] != b
    ensures i < 0 ==> forall k :: from <= k < |s| ==> s[k] != b
  {
    i := from;
    while i < |s|
      invariant from <= i <= |s| && forall k :: from <= k < i ==> s[k] != b
    {
      if s[i] == b {
        return;
      }
      i := i + 1;
    }
    i := -1;
  }

  lemma AfterOneMore(lines: seq<Bytes>, line: Bytes, rest: Option<Header>)
    ensures After(lines, After([line], rest)) == After(lines + [line], rest)
  {
    if rest.Some? {
      assert lines + ([line] + rest.value.lines) == (lines + [line]) + rest.value.lines;
    }
  }

  lemma SplitAt(raw: Bytes, offset: nat, lineEnd: nat)
    requires offset <= lineEnd < |raw| && raw[lineEnd] == LF && forall k :: offset <= k < lineEnd ==> raw[k] != LF
    ensures var line := Content(raw[offset..lineEnd]);
            Split(raw[offset..]) == if line == [] then Some(Header([], raw[lineEnd + 1..]))
              else After([line], Split(raw[lineEnd + 1..]))
  {
    hide *;
    BreakAt(raw, offset, lineEnd);
    SplitUnfold(raw[offset..]);
  }

  lemma BreakAt(raw: Bytes, offset: nat, lineEnd: nat)
    requires offset <= lineEnd < |raw| && raw[lineEnd] == LF && forall k :: offset <= k < lineEnd ==> raw[k] != LF
    ensures FirstBreak(raw[offset..]) == lineEnd - offset < |raw[offset..]|
    ensures raw[offset..][..lineEnd - offset] == raw[offset..lineEnd]
    ensures raw[offset..][lineEnd - offset + 1..] == raw[lineEnd + 1..]
  {
    FirstBreakIs(raw[offset..], lineEnd - offset);
  }

  lemma NoSplit(raw: Bytes, offset: nat)
    requires offset <= |raw| && forall k :: offset <= k < |raw| ==> raw[k] != LF
    ensures Split(raw[offset..]) == None
  {
    FirstBreakIs(raw[offset..], |raw| - offset);
  }

  lemma AfterNothing(raw: Bytes)
    ensures Split(raw) == After([], Split(raw[0..]))
  {
    assert raw[0..] == raw;
    if Split(raw).Some? {
      assert [] + Split(raw).value.lines == Split(raw).value.lines;
    }
  }

  method SplitRawHeader(raw: Bytes) returns (lines: seq<Bytes>, body: Bytes, ok: bool)
    ensures Split(raw) == if ok then Some(Header(lines, body)) else None
  {
    lines := [];
    var offset := 0;
    AfterNothing(raw);
    hide Split;
    while offset < |raw|
      invariant offset <= |raw|
      invariant Split(raw) == After(lines, Split(raw[offset..]))
    {
      var lineEnd := IndexByte(raw, offset, LF);
      if lineEnd < 0 {
        NoSplit(raw, offset);
        return [], [], false;
      }
      SplitAt(raw, offset, lineEnd);
      var line := raw[offset..lineEnd];
      if |line| > 0 && line[|line| - 1] == CR {
        line := line[..|line| - 1];
      }
      if |line| == 0 {
        assert lines + [] == lines;
        return lines, raw[lineEnd + 1..], true;
      }
      AfterOneMore(lines, line, Split(raw[lineEnd + 1..]));
      lines := lines + [line];
      offset := lineEnd + 1;
    }
    NoSplit(raw, offset);
    return [], [], false;
  }

  /** The lines that stay, and whether any goes. */
  method KeepLines(lines: seq<Bytes>) returns (kept: seq<Bytes>, removed: bool)
    ensures kept == Kept(lines) && (removed <==> AnyHidden(lines, |lines|))
  {
    kept := [];
    var skipping := false;
    removed := false;
    for i := 0 to |lines|
      invariant kept == KeptOf(lines, i) && (removed <==> AnyHidden(lines, i))
      invariant skipping <==> i > 0 && Hidden(lines, i - 1)
    {
      var line := lines[i];
      var continuation := |line| > 0 && (line[0] == BLANK || line[0] == TAB);
      HiddenNext(lines, i);
      if continuation {
        if skipping {
          continue;
        }
      } else {
        skipping := false;
        var colon := IndexByte(line, 0, COLON);
        ColonIs(line, colon);
        if colon > 0 {
          var name := TrimSpace(line[..colon]);
          if SameName(name, BCC) || SameName(name, RESENT_BCC) {
            skipping := true;
            removed := true;
            continue;
          }
        }
      }
      kept := kept + [line];
    }
  }

  lemma ColonIs(line: Bytes, colon: int)
    requires colon >= 0 ==> colon < |line| && line[colon] == COLON && forall k :: 0 <= k < colon ==> line[k] != COLON
    requires colon < 0 ==> forall k :: 0 <= k < |line| ==> line[k] != COLON
    ensures (colon > 0 <==> IndexOf(line, COLON) > 0) && (colon > 0 ==> IndexOf(line, COLON) == colon)
  {
  }

  lemma HiddenNext(lines: seq<Bytes>, i: nat)
    requires i < |lines|
    ensures Hidden(lines, i) <==> if Continues(lines[i]) then i > 0 && Hidden(lines, i - 1) else StartsBcc(lines[i])
    ensures AnyHidden(lines, i + 1) <==> AnyHidden(lines, i) || Hidden(lines, i)
  {
    hide StartsBcc;
  }

  method StripBccHeader(raw: Bytes) returns (result: Bytes)
    ensures result == Stripped(raw)
  {
    var lines, body, ok := SplitRawHeader(raw);
    if !ok {
      return raw;
    }
    var kept, removed := KeepLines(lines);
    if !removed {
      return raw;
    }
    result := [];
    for i := 0 to |kept|
      invariant result == CrlfLines(kept[..i])
    {
      assert kept[..i + 1][..i] == kept[..i];
      result := result + kept[i] + [CR, LF];
    }
    assert kept[..|kept|] == kept;
    result := result + [CR, LF] + body;
  }
}

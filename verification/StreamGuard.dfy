/** The byte filter between an IMAP connection and the protocol library: it hands
    the stream on unchanged, line by line and literal by literal, and refuses
    lines, literals and unauthenticated commands above their limits. */
module StreamGuard {
  import opened Common
  import opened LiteralMarker
  import opened Octets

  const LINE_LIMIT: nat := 64 * 1024
  const PRE_AUTH_LITERAL_LIMIT: nat := 8 * 1024
  const PRE_AUTH_COMMAND_LIMIT: nat := 64 * 1024
  const MESSAGE_LIMIT: nat := 25 * 1024 * 1024

  type U64 = n: nat | n < TWO_TO_THE_64

  datatype Options = Options(maxLine: int, preAuthLiteral: U64, preAuthCommand: U64, authenticatedLiteral: U64)

  datatype Fault = EndOfStream | Broken | LineTooLong | LiteralTooLarge | CommandTooLarge

  /** The limits for a server with this message limit. */
  function DefaultOptions(maxMessageBytes: int): Options
    requires maxMessageBytes < 0x8000_0000_0000_0000
  {
    var maximum := if maxMessageBytes > 0 then maxMessageBytes else MESSAGE_LIMIT;
    Options(LINE_LIMIT, PRE_AUTH_LITERAL_LIMIT, PRE_AUTH_COMMAND_LIMIT, if maximum > 0xFFFF_FFFF then 0xFFFF_FFFF
      else maximum)
  }

  /** Missing limits fall back to the standard ones. */
  function Normalized(o: Options): Options {
    Options(if o.maxLine < 1 then LINE_LIMIT else o.maxLine,
            if o.preAuthLiteral == 0 then PRE_AUTH_LITERAL_LIMIT else o.preAuthLiteral,
            if o.preAuthCommand == 0 then PRE_AUTH_COMMAND_LIMIT else o.preAuthCommand,
            if o.authenticatedLiteral == 0 then MESSAGE_LIMIT else o.authenticatedLiteral)
  }

  /** The cost of an unauthenticated line, in the 64-bit arithmetic of the program. */
  function Charge(length: nat, size: nat): U64 {
    (length + size) % TWO_TO_THE_64
  }

  /** Line and literal limits whose sum fits 64 bits: no charge wraps around. */
  predicate NoWrap(o: Options) {
    o.maxLine + o.preAuthLiteral < TWO_TO_THE_64
  }

  lemma DefaultsDoNotWrap(maxMessageBytes: int)
    requires maxMessageBytes < 0x8000_0000_0000_0000
    ensures Normalized(DefaultOptions(maxMessageBytes)) == DefaultOptions(maxMessageBytes)
            && NoWrap(DefaultOptions(maxMessageBytes))
  {
  }

  /** The standard limits in bytes: 64 KiB for a line and for a command before login,
      8 KiB for a literal before login, and for others the message limit, which is
      25 MiB if none is given and at most 4 GiB - 1. */
  lemma StandardLimits(maxMessageBytes: int, o: Options)
    requires maxMessageBytes < 0x8000_0000_0000_0000
    ensures var maximum := if maxMessageBytes > 0 then maxMessageBytes else 26_214_400;
            DefaultOptions(maxMessageBytes) == Options(65_536, 8_192, 65_536, Min(maximum, 4_294_967_295))
    ensures var n := Normalized(o);
            && n.maxLine == (if o.maxLine < 1 then 65_536 else o.maxLine)
            && n.preAuthLiteral == (if o.preAuthLiteral == 0 then 8_192 else o.preAuthLiteral)
            && n.preAuthCommand == (if o.preAuthCommand == 0 then 65_536 else o.preAuthCommand)
            && n.authenticatedLiteral == (if o.authenticatedLiteral == 0 then 26_214_400 else o.authenticatedLiteral)
  {
  }

  /** The charge of every line within the limits is its true cost exactly when
      the limits themselves add up within 64 bits. */
  lemma ChargesAreExact(o: Options)
    requires 1 <= o.maxLine
    ensures NoWrap(o) <==> forall length: nat, size: nat :: length <= o.maxLine && size <= o.preAuthLiteral ==>
            Charge(length, size) == length + size
  {
    if !NoWrap(o) {
      assert Charge(o.maxLine, o.preAuthLiteral) < o.maxLine + o.preAuthLiteral;
    }
  }

  // ---------------------------------------------------------------- framing

  /** A line as the guard handed it on: its bytes and what it announces. */
  datatype Line = Line(text: Bytes, marker: Marker)

  datatype Mode = InLine(partial: Bytes) | InLiteral(remaining: nat)

  datatype Scanner = Scanner(lines: seq<Line>, mode: Mode)

  function Size(m: Marker): nat {
    if m.Literal? then m.size else 0
  }

  function AfterLine(size: nat): Mode {
    if size == 0 then InLine([]) else InLiteral(size)
  }

  function Step(s: Scanner, b: Byte): Scanner {
    match s.mode
    case InLine(partial) =>
      var text := partial + [b];
      if b != LF then s.(mode := InLine(text))
      else Scanner(s.lines + [Line(text, LiteralAtLineEnd(text))], AfterLine(Size(LiteralAtLineEnd(text))))
    case InLiteral(remaining) => s.(mode := AfterLine(if remaining == 0 then 0 else remaining - 1))
  }

  /** The framing of a stream: a function of its bytes alone. */
  function Scanned(stream: Bytes): Scanner {
    if stream == [] then Scanner([], InLine([])) else Step(Scanned(stream[..|stream| - 1]), stream[|stream| - 1])
  }

  lemma ScanOne(stream: Bytes, b: Byte)
    ensures Scanned(stream + [b]) == Step(Scanned(stream), b)
  {
    assert (stream + [b])[..|stream|] == stream;
  }

  lemma {:induction false} ScanText(stream: Bytes, text: Bytes)
    requires Scanned(stream).mode == InLine([]) && NoBreak(text)
    ensures Scanned(stream + text) == Scanned(stream).(mode := InLine(text))
  {
    if text == [] {
      assert stream + text == stream;
    } else {
      var front, b := text[..|text| - 1], text[|text| - 1];
      ScanText(stream, front);
      ScanOne(stream + front, b);
      assert stream + front + [b] == stream + text && front + [b] == text;
    }
  }

  predicate IsLine(line: Bytes) {
    line != [] && line[|line| - 1] == LF && NoBreak(line[..|line| - 1])
  }

  lemma ScanLine(stream: Bytes, line: Bytes)
    requires Scanned(stream).mode == InLine([]) && IsLine(line)
    ensures Scanned(stream + line) ==
            Scanner(Scanned(stream).lines + [Line(line, LiteralAtLineEnd(line))],
              AfterLine(Size(LiteralAtLineEnd(line))))
  {
    var text := line[..|line| - 1];
    assert text + [LF] == line && NoBreak(text);
    hide LiteralAtLineEnd, IsLine;
    ScanText(stream, text);
    ScanOne(stream + text, LF);
    assert stream + text + [LF] == stream + line;
    hide Scanned, NoBreak;
  }

  lemma {:induction false} ScanLiteral(stream: Bytes, literal: Bytes, remaining: nat)
    requires Scanned(stream).mode == AfterLine(remaining) && |literal| <= remaining
    ensures Scanned(stream + literal) == Scanned(stream).(mode := AfterLine(remaining - |literal|))
  {
    hide LiteralAtLineEnd;
    if literal == [] {
      assert stream + literal == stream;
    } else {
      var front, b := literal[..|literal| - 1], literal[|literal| - 1];
      ScanLiteral(stream, front, remaining);
      ScanOne(stream + front, b);
      assert stream + front + [b] == stream + literal;
    }
  }

  /** A line and the literal it announces. */
  datatype Part = Part(line: Bytes, literal: Bytes)

  predicate Proper(p: Part) {
    IsLine(p.line) && Size(LiteralAtLineEnd(p.line)) == |p.literal|
  }

  function Flatten(parts: seq<Part>): Bytes {
    if parts == [] then [] else Flatten(parts[..|parts| - 1]) + parts[|parts| - 1].line + parts[|parts| - 1].literal
  }

  function LinesOf(parts: seq<Part>): (r: seq<Line>)
    ensures |r| == |parts|
  {
    seq(|parts|, i requires 0 <= i < |parts| => Line(parts[i].line, LiteralAtLineEnd(parts[i].line)))
  }

  lemma ScanPart(stream: Bytes, p: Part)
    requires Scanned(stream).mode == InLine([]) && Proper(p)
    ensures Scanned(stream + p.line + p.literal)
            == Scanner(Scanned(stream).lines + [Line(p.line, LiteralAtLineEnd(p.line))], InLine([]))
  {
    ScanLine(stream, p.line);
    hide Scanned, LiteralAtLineEnd, IsLine;
    ScanLiteral(stream + p.line, p.literal, |p.literal|);
  }

  lemma LinesOfOneMore(parts: seq<Part>)
    requires parts != []
    ensures var last := parts[|parts| - 1];
            LinesOf(parts) == LinesOf(parts[..|parts| - 1]) + [Line(last.line, LiteralAtLineEnd(last.line))]
  {
    hide LiteralAtLineEnd;
  }

  /** Framing undoes writing: of lines each followed by the literal it announces,
      exactly those lines are seen. Literal bytes, line breaks and markers among
      them included, are never taken for lines. */
  lemma {:induction false} LiteralsAreNotScanned(parts: seq<Part>)
    requires forall i :: 0 <= i < |parts| ==> Proper(parts[i])
    ensures Scanned(Flatten(parts)) == Scanner(LinesOf(parts), InLine([]))
  {
    if parts != [] {
      var front, last := parts[..|parts| - 1], parts[|parts| - 1];
      LiteralsAreNotScanned(front);
      ScanPart(Flatten(front), last);
      LinesOfOneMore(parts);
      hide LiteralAtLineEnd, Scanned, Proper, LinesOf;
    }
  }

  // ----------------------------------------------------------------- limits

  /** What the running command has cost after these lines, `auth` telling which
      of them ended on an authenticated connection. */
  function Spent(lines: seq<Line>, auth: seq<bool>): nat
    requires |lines| == |auth|
  {
    if lines == [] then 0
    else
      var before := Spent(lines[..|lines| - 1], auth[..|lines| - 1]);
      var last := lines[|lines| - 1];
      if auth[|lines| - 1] then before
      else if last.marker.NoLiteral? then 0
      else before + Charge(|last.text|, Size(last.marker))
  }

  /** The bytes of the lines i..j and of the literals they announce. */
  function Cost(lines: seq<Line>, i: nat, j: nat): nat
    requires i <= j <= |lines|
  {
    if i == j then 0 else Cost(lines, i, j - 1) + |lines[j - 1].text| + Size(lines[j - 1].marker)
  }

  /** The lines i..j belong to one command sent without authentication: each but
      the last goes on with a literal. */
  predicate OneCommand(lines: seq<Line>, auth: seq<bool>, i: nat, j: nat)
    requires |lines| == |auth| && i < j <= |lines|
  {
    (forall k :: i <= k < j ==> !auth[k]) && (forall k :: i <= k < j - 1 ==> !lines[k].marker.NoLiteral?)
  }

  predicate LineWithin(o: Options, line: Line, authenticated: bool) {
    && |line.text| <= o.maxLine && !line.marker.SizeTooLarge?
    && Size(line.marker) <= (if authenticated then o.authenticatedLiteral else o.preAuthLiteral)
  }

  predicate LinesWithin(o: Options, lines: seq<Line>, auth: seq<bool>) {
    |lines| == |auth| && forall k :: 0 <= k < |lines| ==> LineWithin(o, lines[k], auth[k])
  }

  /** Every command stays within the budget, counted in whole bytes. */
  predicate CommandsWithin(o: Options, lines: seq<Line>, auth: seq<bool>) {
    |lines| == |auth| && forall i, j :: 0 <= i < j <= |lines| && OneCommand(lines, auth, i, j) ==>
      Cost(lines, i, j) <= o.preAuthCommand
  }

  /** The running cost bounds the cost of any unfinished part of a command. */
  predicate SpentCovers(o: Options, lines: seq<Line>, auth: seq<bool>)
  {
    && |lines| == |auth|
    && forall i :: 0 <= i < |lines| && OneCommand(lines, auth, i, |lines|) && !lines[|lines| - 1].marker.NoLiteral? ==>
         Cost(lines, i, |lines|) <= Spent(lines, auth)
  }

  lemma {:induction false} CostOfPrefix(lines: seq<Line>, line: Line, i: nat, j: nat)
    requires i <= j <= |lines|
    ensures Cost(lines + [line], i, j) == Cost(lines, i, j)
    decreases j
  {
    if i < j {
      CostOfPrefix(lines, line, i, j - 1);
      assert (lines + [line])[j - 1] == lines[j - 1];
    }
  }

  lemma CommandOfPrefix(lines: seq<Line>, auth: seq<bool>, line: Line, a: bool, i: nat, j: nat)
    requires |lines| == |auth| && i < j <= |lines|
    ensures OneCommand(lines + [line], auth + [a], i, j) <==> OneCommand(lines, auth, i, j)
  {
    assert forall k :: 0 <= k < |lines| ==> (lines + [line])[k] == lines[k] && (auth + [a])[k] == auth[k];
  }

  lemma SpentOneMore(lines: seq<Line>, auth: seq<bool>, line: Line, a: bool)
    requires |lines| == |auth|
    ensures Spent(lines + [line], auth + [a]) ==
            if a then Spent(lines, auth) else if line.marker.NoLiteral? then 0
              else Spent(lines, auth) + Charge(|line.text|, Size(line.marker))
  {
    hide Charge;
    assert (lines + [line])[..|lines|] == lines && (auth + [a])[..|lines|] == auth;
  }

  /** The cost of the command that the new line continues. */
  lemma CostWithLine(o: Options, lines: seq<Line>, auth: seq<bool>, line: Line, i: nat)
    requires NoWrap(o) && SpentCovers(o, lines, auth) && LineWithin(o, line, false)
    requires i <= |lines| && OneCommand(lines + [line], auth + [false], i, |lines| + 1)
    ensures Cost(lines + [line], i, |lines| + 1) <= Spent(lines, auth) + Charge(|line.text|, Size(line.marker))
  {
    CostOfPrefix(lines, line, i, |lines|);
    if i < |lines| {
      assert (lines + [line])[|lines| - 1] == lines[|lines| - 1];
      CommandOfPrefix(lines, auth, line, false, i, |lines|);
    }
  }

  lemma CoversOneMore(o: Options, lines: seq<Line>, auth: seq<bool>, line: Line, a: bool)
    requires NoWrap(o) && SpentCovers(o, lines, auth) && LineWithin(o, line, a)
    ensures SpentCovers(o, lines + [line], auth + [a])
  {
    hide Spent, Charge;
    SpentOneMore(lines, auth, line, a);
    var more, moreAuth, n := lines + [line], auth + [a], |lines| + 1;
    forall i | 0 <= i < n && OneCommand(more, moreAuth, i, n) && !line.marker.NoLiteral?
      ensures Cost(more, i, n) <= Spent(more, moreAuth)
    {
      assert (auth + [a])[|lines|] == a;
      CostWithLine(o, lines, auth, line, i);
    }
  }

  lemma WithinOneMore(o: Options, lines: seq<Line>, auth: seq<bool>, line: Line, a: bool)
    requires NoWrap(o) && SpentCovers(o, lines, auth) && LineWithin(o, line, a)
    requires CommandsWithin(o, lines, auth)
    requires !a ==> Spent(lines, auth) + Charge(|line.text|, Size(line.marker)) <= o.preAuthCommand
    ensures CommandsWithin(o, lines + [line], auth + [a])
  {
    hide Spent, Charge, Cost;
    forall i, j | 0 <= i < j <= |lines| + 1 && OneCommand(lines + [line], auth + [a], i, j)
      ensures Cost(lines + [line], i, j) <= o.preAuthCommand
    {
      if j <= |lines| {
        CostOfPrefix(lines, line, i, j);
        CommandOfPrefix(lines, auth, line, a, i, j);
      } else {
        assert (auth + [a])[|lines|] == a;
        CostWithLine(o, lines, auth, line, i);
      }
    }
  }

  // ------------------------------------------------------------- connection

  lemma FirstLine(bytes: Bytes)
    ensures var end := FirstBreak(bytes);
            end < |bytes| ==>
              IsLine(bytes[..end + 1]) && |bytes[..end + 1]| == end + 1 && bytes[..end + 1] + bytes[end + 1..] == bytes
  {
    var end := FirstBreak(bytes);
    if end < |bytes| {
      assert bytes[..end + 1][..end] == bytes[..end];
    }
  }

  /** Why a complete line is refused, if it is. */
  function LineRefusal(o: Options, authenticated: bool, spent: nat, line: Bytes): Option<Fault> {
    var marker := LiteralAtLineEnd(line);
    if marker.SizeTooLarge? || Size(marker) > (if authenticated then o.authenticatedLiteral else o.preAuthLiteral)
      then Some(LiteralTooLarge)
    else if !authenticated && spent + Charge(|line|, Size(marker)) > o.preAuthCommand then Some(CommandTooLarge)
    else None
  }

  /** Why the next line is refused, if it is. */
  function Refusal(o: Options, authenticated: bool, spent: nat, unread: Bytes, fate: Fault): Option<Fault> {
    var end := FirstBreak(unread);
    if end >= o.maxLine && |unread| > o.maxLine then Some(LineTooLong)
    else if end == |unread| then Some(fate)
    else LineRefusal(o, authenticated, spent, unread[..end + 1])
  }

  /** The command that is running when these lines have been seen began with line
      i: each line since announced a literal, and the one before did not. */
  predicate RunningFrom(lines: seq<Line>, i: nat) {
    && i <= |lines|
    && (forall k :: i <= k < |lines| ==> lines[k].marker.Literal?)
    && (i > 0 ==> !lines[i - 1].marker.Literal?)
  }

  /** Before login, the running cost is the whole of the running command. */
  lemma {:induction false} SpentIsCost(o: Options, lines: seq<Line>, auth: seq<bool>, i: nat)
    requires NoWrap(o) && LinesWithin(o, lines, auth) && RunningFrom(lines, i)
    requires forall k :: 0 <= k < |auth| ==> !auth[k]
    ensures Spent(lines, auth) == Cost(lines, i, |lines|)
    decreases |lines|
  {
    if i < |lines| {
      var n := |lines| - 1;
      var front, last := lines[..n], lines[n];
      assert LineWithin(o, last, auth[n]);
      SpentIsCost(o, front, auth[..n], i);
      assert lines == front + [last];
      CostOfPrefix(front, last, i, n);
    }
  }

  /** The next line of the input. */
  predicate NextLine(input: Bytes, line: Bytes) {
    && line <= input && line != [] && line[|line| - 1] == 10
    && forall k :: 0 <= k < |line| - 1 ==> line[k] != 10
  }

  /** The answer to a line, when the running command has cost so much: it is
      refused for the literal it announces or, before login only, because the
      command with line and literal would be above the budget. Every other line is
      let through. */
  predicate AnswersLine(o: Options, authenticated: bool, cost: nat, line: Bytes, err: Option<Fault>) {
    var marker := LiteralAtLineEnd(line);
    var size := if marker.Literal? then marker.size else 0;
    var tooLarge := marker.SizeTooLarge? || size > if authenticated then o.authenticatedLiteral else o.preAuthLiteral;
    && (tooLarge <==> err == Some(LiteralTooLarge))
    && (authenticated ==> (err == None <==> !tooLarge))
    && (!authenticated && NoWrap(o) ==>
          && (err == None <==> !tooLarge && cost + |line| + size <= o.preAuthCommand)
          && (err == Some(CommandTooLarge) <==> !tooLarge && cost + |line| + size > o.preAuthCommand))
  }

  /** The answer to a caller that waits for a line: the transport's end, a line
      that is too long, or the answer to the line. */
  ghost predicate Answers(o: Options, authenticated: bool, cost: nat, input: Bytes, fate: Fault, err: Option<Fault>) {
    && (err == Some(LineTooLong) <==> |input| > o.maxLine && forall k :: 0 <= k < o.maxLine ==> input[k] != 10)
    && (err == Some(fate) <==> |input| <= o.maxLine && forall k :: 0 <= k < |input| ==> input[k] != 10)
    && (forall line :: NextLine(input, line) && |line| <= o.maxLine ==> AnswersLine(o, authenticated, cost, line, err))
  }

  lemma RefusalAnswersLine(o: Options, authenticated: bool, spent: nat, line: Bytes)
    requires |line| <= o.maxLine
    ensures AnswersLine(o, authenticated, spent, line, LineRefusal(o, authenticated, spent, line))
  {
    hide LiteralAtLineEnd;
  }

  lemma NextLineIs(input: Bytes, line: Bytes)
    requires NextLine(input, line)
    ensures FirstBreak(input) == |line| - 1 && input[..|line|] == line
  {
    var n := |line| - 1;
    assert forall k :: 0 <= k < n ==> input[k] == line[k];
    FirstBreakIs(input, n);
  }

  lemma RefusalEnds(o: Options, authenticated: bool, spent: nat, input: Bytes, fate: Fault)
    requires 1 <= o.maxLine && Transport(fate)
    ensures var err := Refusal(o, authenticated, spent, input, fate);
            && (err == Some(LineTooLong) <==> |input| > o.maxLine && forall k :: 0 <= k < o.maxLine ==> input[k] != 10)
            && (err == Some(fate) <==> |input| <= o.maxLine && forall k :: 0 <= k < |input| ==> input[k] != 10)
  {
    var end := FirstBreak(input);
    assert forall k :: 0 <= k < end ==> input[k] == input[..end][k];
    hide LiteralAtLineEnd;
  }

  lemma RefusalAnswers(o: Options, authenticated: bool, spent: nat, input: Bytes, fate: Fault)
    requires 1 <= o.maxLine && Transport(fate)
    ensures Answers(o, authenticated, spent, input, fate, Refusal(o, authenticated, spent, input, fate))
  {
    RefusalEnds(o, authenticated, spent, input, fate);
    hide LineRefusal, AnswersLine, NextLine;
    forall line | NextLine(input, line) && |line| <= o.maxLine
      ensures AnswersLine(o, authenticated, spent, line, Refusal(o, authenticated, spent, input, fate))
    {
      NextLineIs(input, line);
      RefusalAnswersLine(o, authenticated, spent, line);
    }
    hide Refusal;
  }

  lemma CostHardlyMatters(o: Options, authenticated: bool, spent: nat, cost: nat, input: Bytes, fate: Fault,
      err: Option<Fault>)
    requires Answers(o, authenticated, spent, input, fate, err) && (authenticated || !NoWrap(o))
    ensures Answers(o, authenticated, cost, input, fate, err)
  {
    hide LiteralAtLineEnd, NextLine;
    forall line | NextLine(input, line) && |line| <= o.maxLine ensures AnswersLine(o, authenticated, cost, line, err) {
      assert AnswersLine(o, authenticated, spent, line, err);
    }
    hide AnswersLine;
  }

  /** Before login the answer goes by the whole of the running command. */
  lemma AnswersByCost(o: Options, spent: nat, lines: seq<Line>, auth: seq<bool>, i: nat, input: Bytes, fate: Fault)
    requires Kept(o, spent, lines, auth) && RunningFrom(lines, i) && Transport(fate)
    requires forall k :: 0 <= k < |auth| ==> !auth[k]
    ensures Answers(o, false, Cost(lines, i, |lines|), input, fate, Refusal(o, false, spent, input, fate))
  {
    hide Refusal, Answers, Spent, Cost, SpentCovers, CommandsWithin, LinesWithin, RunningFrom;
    RefusalAnswers(o, false, spent, input, fate);
    if NoWrap(o) {
      SpentIsCost(o, lines, auth, i);
    } else {
      IndexInLines(lines, i);
      CostHardlyMatters(o, false, spent, Cost(lines, i, |lines|), input, fate, Refusal(o, false, spent, input, fate));
    }
  }

  lemma IndexInLines(lines: seq<Line>, i: nat)
    requires RunningFrom(lines, i)
    ensures i <= |lines|
  {
  }

  /** What was returned, what waits and what is unread make up the stream; the
      lines seen and the position are those of a pure scan. */
  predicate Tracks(stream: Bytes, returned: Bytes, pending: Bytes, unread: Bytes, lines: seq<Line>, remaining: nat) {
    && returned + pending + unread == stream
    && Scanned(returned + pending) == Scanner(lines, AfterLine(remaining))
  }

  lemma TracksLine(stream: Bytes, returned: Bytes, before: Bytes, lines: seq<Line>, line: Bytes, unread: Bytes, n: nat)
    requires Tracks(stream, returned, [], before, lines, 0) && IsLine(line) && line + unread == before && n <= |line|
    ensures var marker := LiteralAtLineEnd(line);
            Tracks(stream, returned + line[..n], line[n..], unread, lines + [Line(line, marker)], Size(marker))
  {
    hide LiteralAtLineEnd, IsLine;
    assert returned + [] == returned;
    ScanLine(returned, line);
    hide Scanned;
    assert line[..n] + line[n..] == line;
    assert returned + line[..n] + line[n..] == returned + line;
    assert returned + line[..n] + line[n..] + unread == returned + (line + unread);
  }

  lemma TracksPrefix(stream: Bytes, returned: Bytes, pending: Bytes, unread: Bytes, lines: seq<Line>, remaining: nat)
    requires Tracks(stream, returned, pending, unread, lines, remaining)
    ensures returned <= stream
  {
    hide Scanned;
    assert returned + pending + unread == returned + (pending + unread);
  }

  lemma TracksPending(stream: Bytes, returned: Bytes, pending: Bytes, unread: Bytes, lines: seq<Line>, remaining: nat,
      n: nat)
    requires Tracks(stream, returned, pending, unread, lines, remaining) && n <= |pending|
    ensures Tracks(stream, returned + pending[..n], pending[n..], unread, lines, remaining)
  {
    hide Scanned;
    assert returned + pending[..n] + pending[n..] == returned + pending;
  }

  lemma TracksLiteral(stream: Bytes, returned: Bytes, unread: Bytes, lines: seq<Line>, remaining: nat, n: nat)
    requires Tracks(stream, returned, [], unread, lines, remaining) && n <= |unread| && n <= remaining
    ensures Tracks(stream, returned + unread[..n], [], unread[n..], lines, remaining - n)
  {
    hide Scanned;
    assert returned + [] == returned;
    ScanLiteral(returned, unread[..n], remaining);
    var front, rest := unread[..n], unread[n..];
    assert returned + front + [] == returned + front;
    assert front + rest == unread;
    assert returned + front + rest == returned + (front + rest);
  }

  /** Every line kept to the limits of its time, every command to its budget. */
  predicate Kept(o: Options, spent: nat, lines: seq<Line>, auth: seq<bool>) {
    && 1 <= o.maxLine && spent <= o.preAuthCommand
    && LinesWithin(o, lines, auth) && spent == Spent(lines, auth)
    && (NoWrap(o) ==> SpentCovers(o, lines, auth) && CommandsWithin(o, lines, auth))
  }

  lemma KeptOneMore(o: Options, spent: nat, lines: seq<Line>, auth: seq<bool>, line: Line, a: bool)
    requires Kept(o, spent, lines, auth) && LineWithin(o, line, a)
    requires !a ==> spent + Charge(|line.text|, Size(line.marker)) <= o.preAuthCommand
    ensures Kept(o, if a then spent else if line.marker.NoLiteral? then 0
            else spent + Charge(|line.text|, Size(line.marker)),
                 lines + [line], auth + [a])
  {
    hide Charge, Spent, SpentCovers, CommandsWithin, LineWithin;
    SpentOneMore(lines, auth, line, a);
    if NoWrap(o) {
      CoversOneMore(o, lines, auth, line, a);
      WithinOneMore(o, lines, auth, line, a);
    }
  }

  /** How a transport can end. */
  predicate Transport(f: Fault) {
    f == EndOfStream || f == Broken
  }

  class GuardedConn {
    const options: Options
    /** How the transport ends: the stream is over, or it breaks. */
    const fate: Fault
    var unread: Bytes
    var pending: Bytes
    var literalRemaining: U64
    var preAuthCommandBytes: U64
    var authenticated: bool
    var closed: bool
    /** The whole stream, what the caller has been given of it, the lines handed
        on, and whether no error has been returned yet. */
    ghost const stream: Bytes
    ghost var returned: Bytes
    ghost var lines: seq<Line>
    ghost var auth: seq<bool>
    ghost var ok: bool

    /** Until an error is returned the stream is handed on as it came. */
    ghost predicate Valid()
      reads this
    {
      && Transport(fate) && Kept(options, preAuthCommandBytes, lines, auth)
      && (ok ==> Tracks(stream, returned, pending, unread, lines, literalRemaining))
      && (!authenticated ==> forall k :: 0 <= k < |auth| ==> !auth[k])
    }

    /** The answer to a caller that waits for a line, the running command having
        begun with any line that can be its first. */
    ghost predicate Waiting(err: Option<Fault>)
      reads this
    {
      && (authenticated ==> Answers(options, true, 0, unread, fate, err))
      && (!authenticated ==>
            forall i :: RunningFrom(lines, i) ==>
              Answers(options, false, Cost(lines, i, |lines|), unread, fate, err))
    }

    constructor (o: Options, input: Bytes, end: Fault)
      requires Transport(end)
      ensures Valid() && ok && stream == input && options == Normalized(o) && fate == end
      ensures unread == input && returned == [] && !authenticated && !closed
    {
      options, fate := Normalized(o), end;
      unread, pending, literalRemaining, preAuthCommandBytes := input, [], 0, 0;
      authenticated, closed := false, false;
      stream, returned, lines, auth, ok := input, [], [], [], true;
    }

    method Close()
      modifies `closed
      ensures closed
    {
      closed := true;
    }

    method MarkAuthenticated()
      requires Valid()
      modifies `authenticated
      ensures Valid() && authenticated
    {
      authenticated := true;
    }

    /** Charges an unauthenticated line, or refuses it. The budget left never
        wraps below zero. */
    method AddPreAuthCommandBytes(additional: U64) returns (added: bool)
      requires preAuthCommandBytes <= options.preAuthCommand
      modifies `preAuthCommandBytes
      ensures added <==> old(preAuthCommandBytes) + additional <= options.preAuthCommand
      ensures preAuthCommandBytes == if added then old(preAuthCommandBytes) + additional else old(preAuthCommandBytes)
    {
      var left: U64 := options.preAuthCommand - preAuthCommandBytes;
      if additional > left {
        return false;
      }
      preAuthCommandBytes := preAuthCommandBytes + additional;
      return true;
    }

    /** Collects bytes up to a line break. */
    method CollectLine() returns (line: Bytes, err: Option<Fault>)
      requires 1 <= options.maxLine && Transport(fate)
      modifies `unread, `closed
      ensures var end := FirstBreak(old(unread));
              err == if end >= options.maxLine && |old(unread)| > options.maxLine then Some(LineTooLong)
                     else if end == |old(unread)| then Some(fate) else None
      ensures err == None ==>
                && line == old(unread)[..FirstBreak(old(unread)) + 1] && unread == old(unread)[|line|..]
                && closed == old(closed)
      ensures closed == (old(closed) || (err != None && err != Some(fate)))
    {
      ghost var input := unread;
      line := [];
      while true
        invariant |line| <= options.maxLine && |line| <= |input|
        invariant line == input[..|line|] && unread == input[|line|..] && NoBreak(line)
        invariant closed == old(closed)
        decreases |unread|
      {
        if unread == [] {
          FirstBreakIs(input, |input|);
          return [], Some(fate);
        }
        var character := unread[0];
        unread := unread[1..];
        if |line| >= options.maxLine {
          BreakIsLater(input, |line|);
          Close();
          return [], Some(LineTooLong);
        }
        line := line + [character];
        if character != LF {
          continue;
        }
        FirstBreakIs(input, |line| - 1);
        return line, None;
      }
    }

    static lemma BreakIsLater(input: Bytes, n: nat)
      requires n <= |input| && NoBreak(input[..n])
      ensures FirstBreak(input) >= n
    {
      assert forall k :: 0 <= k < n ==> input[k] == input[..n][k];
    }

    /** Checks a complete line against the limits and enters it in the ledger. */
    method AdmitLine(line: Bytes) returns (literalSize: U64, err: Option<Fault>)
      requires Kept(options, preAuthCommandBytes, lines, auth) && |line| <= options.maxLine
      modifies `preAuthCommandBytes, `closed, `lines, `auth
      ensures Kept(options, preAuthCommandBytes, lines, auth)
      ensures err == LineRefusal(options, authenticated, old(preAuthCommandBytes), line)
      ensures err == None ==>
                && literalSize == Size(LiteralAtLineEnd(line)) && closed == old(closed)
                && lines == old(lines) + [Line(line, LiteralAtLineEnd(line))] && auth == old(auth) + [authenticated]
      ensures err != None ==>
                closed && lines == old(lines) && auth == old(auth) && preAuthCommandBytes == old(preAuthCommandBytes)
    {
      assert preAuthCommandBytes <= options.preAuthCommand;
      literalSize := 0;
      var marker := LiteralAtLineEnd(line);
      hide Charge, Kept, LiteralAtLineEnd;
      if marker.SizeTooLarge? {
        Close();
        return 0, Some(LiteralTooLarge);
      }
      ghost var spent := preAuthCommandBytes;
      if marker.Literal? {
        var maximum := options.authenticatedLiteral;
        if !authenticated {
          maximum := options.preAuthLiteral;
        }
        if marker.size > maximum {
          Close();
          return 0, Some(LiteralTooLarge);
        }
        literalSize := marker.size;
        if !authenticated {
          var added := AddPreAuthCommandBytes(Charge(|line|, literalSize));
          if !added {
            Close();
            return 0, Some(CommandTooLarge);
          }
        }
      } else if !authenticated {
        var added := AddPreAuthCommandBytes(Charge(|line|, 0));
        if !added {
          Close();
          return 0, Some(CommandTooLarge);
        }
        preAuthCommandBytes := 0;
      }
      KeptOneMore(options, spent, lines, auth, Line(line, marker), authenticated);
      lines, auth := lines + [Line(line, marker)], auth + [authenticated];
      err := None;
    }

    /** The next line and the size of the literal it announces. */
    method ReadValidatedLine() returns (line: Bytes, literalSize: U64, err: Option<Fault>)
      requires Transport(fate) && Kept(options, preAuthCommandBytes, lines, auth)
      modifies `unread, `preAuthCommandBytes, `closed, `lines, `auth
      ensures Kept(options, preAuthCommandBytes, lines, auth)
      ensures err == Refusal(options, authenticated, old(preAuthCommandBytes), old(unread), fate)
      ensures err == None ==>
                && IsLine(line) && literalSize == Size(LiteralAtLineEnd(line)) && closed == old(closed)
                && line + unread == old(unread) && |line| == FirstBreak(old(unread)) + 1
                && lines == old(lines) + [Line(line, LiteralAtLineEnd(line))] && auth == old(auth) + [authenticated]
      ensures err != None ==>
                lines == old(lines) && auth == old(auth) && preAuthCommandBytes == old(preAuthCommandBytes)
      ensures closed == (old(closed) || (err != None && err != Some(fate)))
    {
      assert 1 <= options.maxLine;
      FirstLine(unread);
      hide Kept, LineRefusal, LiteralAtLineEnd, IsLine, FirstBreak;
      line, err := CollectLine();
      literalSize := 0;
      if err == None {
        literalSize, err := AdmitLine(line);
      }
    }

    lemma WaitingIs()
      requires Valid()
      ensures Waiting(Refusal(options, authenticated, preAuthCommandBytes, unread, fate))
    {
      hide Refusal, Answers, Tracks;
      if authenticated {
        assert 1 <= options.maxLine;
        hide Kept;
        RefusalAnswers(options, true, preAuthCommandBytes, unread, fate);
        CostHardlyMatters(options, true, preAuthCommandBytes, 0, unread, fate,
                          Refusal(options, true, preAuthCommandBytes, unread, fate));
      } else {
        hide Kept, Cost;
        forall i | RunningFrom(lines, i)
          ensures Answers(options, false, Cost(lines, i, |lines|), unread, fate,
                          Refusal(options, false, preAuthCommandBytes, unread, fate))
        {
          AnswersByCost(options, preAuthCommandBytes, lines, auth, i, unread, fate);
        }
      }
    }

    /** Fills the buffer with the next bytes of the stream. `chunk` is how many
        bytes the transport has ready when a literal is being passed on, and
        `together` whether it reports its end along with the last of them. */
    method Read(buffer: array<Byte>, chunk: nat, together: bool) returns (n: nat, err: Option<Fault>)
      requires Valid()
      modifies this, buffer
      ensures Valid() && n <= buffer.Length && buffer[n..] == old(buffer[n..])
      ensures returned == old(returned) + buffer[..n]
      ensures old(ok) ==> (ok <==> err == None)
      ensures old(ok) ==> returned <= stream
      ensures err != None && n > 0 ==> old(pending) == [] && old(literalRemaining) > 0 && together && unread == []
      ensures err == None && buffer.Length > 0 && (chunk > 0 || old(literalRemaining) == 0) ==> n > 0
      ensures old(pending) == [] && old(literalRemaining) == 0 && buffer.Length > 0 ==>
                err == Refusal(options, authenticated, old(preAuthCommandBytes), old(unread), fate)
      ensures old(pending) == [] && old(literalRemaining) == 0 && buffer.Length > 0 ==> old(Waiting(err))
      ensures old(pending) != [] || buffer.Length == 0 ==> err == None
      ensures old(pending) == [] && old(literalRemaining) > 0 && buffer.Length > 0 ==>
              err == LiteralEnd(n, |old(unread)|, together)
      ensures authenticated == old(authenticated) && old(lines) <= lines && old(auth) <= auth
      ensures closed == (old(closed) || (err != None && err != Some(fate)))
      ensures old(pending) != [] ==> n == Min(buffer.Length, |old(pending)|) && unread == old(unread)
      ensures old(pending) == [] && old(literalRemaining) > 0 && buffer.Length > 0 ==>
                n == Min(Min(Min(buffer.Length, old(literalRemaining)), chunk), |old(unread)|)
      ensures old(pending) == [] && old(literalRemaining) == 0 && buffer.Length > 0 && err == None ==>
                n == Min(buffer.Length, FirstBreak(old(unread)) + 1)
    {
      n, err := 0, None;
      if ok {
        TracksPrefix(stream, returned, pending, unread, lines, literalRemaining);
      }
      if buffer.Length == 0 {
        return;
      }
      hide Kept, Tracks, Refusal, Waiting;
      if |pending| > 0 {
        n := PassPending(buffer);
      } else if literalRemaining > 0 {
        n, err := PassLiteral(buffer, chunk, together);
      } else {
        n, err := PassLine(buffer);
      }
    }

    /** Passes on what waits of a line. */
    method PassPending(buffer: array<Byte>) returns (n: nat)
      requires Valid() && buffer.Length > 0 && pending != []
      modifies `returned, `pending, buffer
      ensures Valid() && n == Min(buffer.Length, |old(pending)|) && buffer[n..] == old(buffer[n..])
      ensures returned == old(returned) + buffer[..n] && (ok ==> returned <= stream)
    {
      hide Kept, Tracks;
      n := CopyTo(buffer, pending);
      if ok {
        TracksPending(stream, returned, pending, unread, lines, literalRemaining, n);
        TracksPrefix(stream, returned + pending[..n], pending[n..], unread, lines, literalRemaining);
      }
      returned := returned + pending[..n];
      pending := pending[n..];
    }

    /** Copies as much as fits to the front of the buffer. */
    static method CopyTo(buffer: array<Byte>, source: Bytes) returns (n: nat)
      modifies buffer
      ensures n == Min(buffer.Length, |source|) && buffer[..n] == source[..n] && buffer[n..] == old(buffer[n..])
    {
      n := 0;
      while n < buffer.Length && n < |source|
        invariant n <= buffer.Length && n <= |source|
        invariant buffer[..n] == source[..n] && buffer[n..] == old(buffer[n..])
      {
        buffer[n] := source[n];
        n := n + 1;
      }
    }

    /** What a transport with so many bytes left reports along with n of them. */
    function LiteralEnd(n: nat, left: nat, together: bool): Option<Fault> {
      if left == 0 || (together && n == left) then Some(fate) else None
    }

    method PassLiteral(buffer: array<Byte>, chunk: nat, together: bool) returns (n: nat, err: Option<Fault>)
      requires Valid() && pending == [] && literalRemaining > 0 && buffer.Length > 0
      modifies `unread, `literalRemaining, `returned, `ok, buffer
      ensures Valid() && n <= buffer.Length && buffer[n..] == old(buffer[n..])
      ensures returned == old(returned) + buffer[..n]
      ensures old(ok) ==> (ok <==> err == None)
      ensures old(ok) ==> returned <= stream
      ensures err == LiteralEnd(n, |old(unread)|, together)
      ensures n == Min(Min(Min(buffer.Length, old(literalRemaining)), chunk), |old(unread)|)
              && unread == old(unread)[n..]
    {
      hide Kept, Tracks;
      var maximum := buffer.Length;
      if maximum > literalRemaining {
        maximum := literalRemaining;
      }
      n := CopyTo(buffer, unread[..Min(Min(maximum, chunk), |unread|)]);
      err := if |unread| == 0 || (together && n == |unread|) then Some(fate) else None;
      if ok {
        TracksLiteral(stream, returned, unread, lines, literalRemaining, n);
        TracksPrefix(stream, returned + unread[..n], [], unread[n..], lines, literalRemaining - n);
      }
      assert unread[..Min(Min(maximum, chunk), |unread|)][..n] == unread[..n];
      returned := returned + unread[..n];
      unread := unread[n..];
      literalRemaining := literalRemaining - n;
      ok := ok && err == None;
    }

    method PassLine(buffer: array<Byte>) returns (n: nat, err: Option<Fault>)
      requires Valid() && pending == [] && literalRemaining == 0 && buffer.Length > 0
      modifies this, buffer
      ensures Valid() && n <= buffer.Length && buffer[n..] == old(buffer[n..])
      ensures returned == old(returned) + buffer[..n]
      ensures old(ok) ==> (ok <==> err == None)
      ensures err == Refusal(options, authenticated, old(preAuthCommandBytes), old(unread), fate)
      ensures old(Waiting(err))
      ensures err == None ==> n == Min(buffer.Length, FirstBreak(old(unread)) + 1)
      ensures closed == (old(closed) || (err != None && err != Some(fate)))
      ensures err != None ==> n == 0
      ensures old(ok) ==> returned <= stream
      ensures authenticated == old(authenticated) && old(lines) <= lines && old(auth) <= auth
    {
      hide Kept, Tracks, Refusal, LiteralAtLineEnd, Waiting;
      WaitingIs();
      ghost var before, seen := unread, lines;
      if ok {
        TracksPrefix(stream, returned, pending, unread, lines, literalRemaining);
      }
      var line, size;
      line, size, err := ReadValidatedLine();
      if err.Some? {
        ok := false;
        return 0, err;
      }
      n := CopyTo(buffer, line);
      if ok {
        TracksLine(stream, returned, before, seen, line, unread, n);
        TracksPrefix(stream, returned + line[..n], line[n..], unread, lines, size);
      }
      literalRemaining := size;
      returned := returned + line[..n];
      pending := line[n..];
    }
  }

  /** Two guards over the same stream that have come equally far have seen the
      same lines and stand at the same place, whatever buffers were used and
      however the transport cut the stream up. */
  lemma ChunksDoNotMatter(c: GuardedConn, d: GuardedConn)
    requires c.Valid() && d.Valid() && c.ok && d.ok && c.stream == d.stream
    requires |c.returned| + |c.pending| == |d.returned| + |d.pending|
    ensures c.returned + c.pending == d.returned + d.pending && c.lines == d.lines
            && c.literalRemaining == d.literalRemaining
  {
    hide Scanned, Kept;
    assert c.returned + c.pending == c.stream[..|c.returned| + |c.pending|];
    assert d.returned + d.pending == d.stream[..|d.returned| + |d.pending|];
  }

  /** Under the standard limits every unauthenticated command handed on, lines
      and literals together, is within the budget at every moment. */
  lemma StandardBudget(c: GuardedConn, maxMessageBytes: int, i: nat, j: nat)
    requires maxMessageBytes < 0x8000_0000_0000_0000 && c.Valid()
             && c.options == Normalized(DefaultOptions(maxMessageBytes))
    requires i < j <= |c.lines| && |c.auth| == |c.lines| && OneCommand(c.lines, c.auth, i, j)
    ensures Cost(c.lines, i, j) <= PRE_AUTH_COMMAND_LIMIT
    ensures forall k :: i <= k < j ==>
            |c.lines[k].text| <= LINE_LIMIT && Size(c.lines[k].marker) <= PRE_AUTH_LITERAL_LIMIT
  {
    hide Spent, SpentCovers, Cost;
    DefaultsDoNotWrap(maxMessageBytes);
  }
}

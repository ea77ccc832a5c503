/** Content-Length framing of the MCP bridge: the frame writer, the frame reader, and what a reader makes of a
    stream of written frames, whole or cut short. */
module McpFraming {
  import opened Common
  import opened Text

  // A byte, shown as the Latin-1 character with its code.
  type Byte = c: char | c as int < 256 witness 'a'

  const CRLF: seq<Byte> := "\r\n"
  const LENGTH_PREFIX: seq<Byte> := "Content-Length: "
  const MAX_FRAME: nat := 64 * 1024 * 1024
  const MAX_INT64: int := 0x7FFF_FFFF_FFFF_FFFF

  datatype FrameError = HeaderEof | MissingLength | MalformedLine | BadNumber | OutOfRange | BodyEof
  datatype Length = Length(n: int) | NoLength(why: FrameError)
  datatype Result = Frame(payload: seq<Byte>) | Failed(error: FrameError)
  // What one read gives, and the bytes it leaves unread.
  datatype Read = Read(result: Result, rest: seq<Byte>)

  // ---------------------------------------------------------------- decimal numbers

  predicate IsDigit(b: Byte) { '0' <= b <= '9' }

  function Decimal(n: nat): (s: seq<Byte>)
    ensures |s| >= 1 && forall k :: 0 <= k < |s| ==> IsDigit(s[k])
  {
    var last := (n % 10 + '0' as int) as char;
    if n < 10 then [last] else Decimal(n / 10) + [last]
  }

  function NumberOf(s: seq<Byte>): (n: nat)
    requires forall k :: 0 <= k < |s| ==> IsDigit(s[k])
  {
    if s == [] then 0 else
    var last := s[|s| - 1];
    assert IsDigit(last);
    10 * NumberOf(s[..|s| - 1]) + (last as int - '0' as int)
  }

  lemma {:induction false} DecimalRoundTrip(n: nat)
    ensures NumberOf(Decimal(n)) == n
  {
    var s := Decimal(n);
    if n >= 10 {
      DecimalRoundTrip(n / 10);
      assert s[..|s| - 1] == Decimal(n / 10);
    } else {
      assert s[..|s| - 1] == [];
    }
  }

  // ---------------------------------------------------------------- substring search

  predicate OccursAt(s: seq<Byte>, sub: seq<Byte>, i: int) { 0 <= i <= |s| - |sub| && s[i..i + |sub|] == sub }

  /** The least position at or after `from` where `sub` occurs in `s`. */
  function Find(s: seq<Byte>, sub: seq<Byte>, from: nat): (r: Option<nat>)
    ensures r.Some? ==> from <= r.value && OccursAt(s, sub, r.value)
    ensures forall i :: from <= i < (if r.Some? then r.value else |s| + 1) ==> !OccursAt(s, sub, i)
    decreases |s| - from
  {
    if OccursAt(s, sub, from) then Some(from)
    else if from >= |s| then None
    else Find(s, sub, from + 1)
  }

  lemma OccursStart(s: seq<Byte>, sub: seq<Byte>, i: int)
    requires sub != []
    ensures OccursAt(s, sub, i) ==> s[i] == sub[0]
  {
    if OccursAt(s, sub, i) { assert s[i..i + |sub|][0] == s[i]; }
  }

  // ---------------------------------------------------------------- scanning the length

  /** Bytes taken by the space character that `s` starts with, 0 when it starts with none; newline excepted. */
  function SpaceWidth(s: seq<Byte>): (w: nat)
    ensures w <= |s|
  {
    if |s| >= 1 && s[0] in {'\t', '\U{0B}', '\U{0C}', '\r', ' '} then 1
    else if |s| >= 2 && s[0] == '\U{C2}' && s[1] in {'\U{85}', '\U{A0}'} then 2
    else if |s| >= 3 && (
      || (s[0] == '\U{E1}' && s[1] == '\U{9A}' && s[2] == '\U{80}')
      || (s[0] == '\U{E2}' && s[1] == '\U{80}' && ('\U{80}' <= s[2] <= '\U{8A}' || s[2] in {'\U{A8}', '\U{A9}', '\U{AF}'}))
      || (s[0] == '\U{E2}' && s[1] == '\U{81}' && s[2] == '\U{9F}')
      || (s[0] == '\U{E3}' && s[1] == '\U{80}' && s[2] == '\U{80}')) then 3
    else 0
  }

  /** What remains after leading spaces; none when a newline comes among them. */
  function SkipSpace(s: seq<Byte>): Option<seq<Byte>> {
    if s != [] && s[0] == '\n' then None
    else var w := SpaceWidth(s); if w == 0 then Some(s) else SkipSpace(s[w..])
  }

  function DigitRun(s: seq<Byte>): (k: nat)
    ensures k <= |s| && forall i :: 0 <= i < k ==> IsDigit(s[i])
    ensures k < |s| ==> !IsDigit(s[k])
  {
    if s != [] && IsDigit(s[0]) then 1 + DigitRun(s[1..]) else 0
  }

  /** A signed 64-bit number at the start of the line; whatever follows its digits is ignored. */
  function ScanInt(line: seq<Byte>): Option<int> {
    var rest := SkipSpace(line);
    if rest.None? || rest.value == [] then None else
    var negative := rest.value[0] == '-';
    var body := if rest.value[0] in {'-', '+'} then rest.value[1..] else rest.value;
    var k := DigitRun(body);
    if k == 0 then None else
    var v: int := if negative then -(NumberOf(body[..k]) as int) else NumberOf(body[..k]);
    if -MAX_INT64 - 1 <= v <= MAX_INT64 then Some(v) else None
  }

  // ---------------------------------------------------------------- frames

  function HeaderOf(n: nat): seq<Byte> { LENGTH_PREFIX + Decimal(n) + CRLF + CRLF }

  function Written(payload: seq<Byte>): seq<Byte> { HeaderOf(|payload|) + payload }

  predicate Sendable(payload: seq<Byte>) { 1 <= |payload| <= MAX_FRAME }

  /** The payload length that a complete header announces. */
  function LengthIn(header: seq<Byte>): (r: Length)
    ensures r.Length? ==> 1 <= r.n <= MAX_FRAME
  {
    var at := Find(header, LENGTH_PREFIX, 0);
    if at.None? then NoLength(MissingLength) else
    var line := header[at.value + |LENGTH_PREFIX|..];
    var end := Find(line, CRLF, 0);
    if end.None? then NoLength(MalformedLine) else
    var n := ScanInt(line[..end.value]);
    if n.None? then NoLength(BadNumber)
    else if n.value <= 0 || n.value > MAX_FRAME then NoLength(OutOfRange)
    else Length(n.value)
  }

  /** One read from a stream that holds `input` and then ends. */
  function ReadFrame(input: seq<Byte>): (r: Read)
    ensures |r.rest| <= |input| && (r.result.Frame? ==> |r.rest| < |input|)
  {
    var at := Find(input, CRLF + CRLF, 0);
    if at.None? then Read(Failed(HeaderEof), []) else
    var length := LengthIn(input[..at.value + 4]);
    var tail := input[at.value + 4..];
    if length.NoLength? then Read(Failed(length.why), tail)
    else if |tail| < length.n then Read(Failed(BodyEof), [])
    else Read(Frame(tail[..length.n]), tail[length.n..])
  }

  // ---------------------------------------------------------------- headers of any writer

  /** The UTF-8 encoding of a character of the basic plane. */
  function Utf8(c: char): (s: seq<Byte>)
    requires c as int < 0x1_0000
    ensures |s| >= 1
  {
    var n := c as int;
    if n < 0x80 then [c]
    else if n < 0x800 then [(0xC0 + n / 64) as char, (0x80 + n % 64) as char]
    else [(0xE0 + n / 4096) as char, (0x80 + n / 64 % 64) as char, (0x80 + n % 64) as char]
  }

  lemma SpacesAreBasic(c: char)
    requires IsSpace(c)
    ensures c as int < 0x1_0000
  {
  }

  /** The scanner's spaces are the encodings of the space characters other than newline. */
  lemma SpaceIsSkipped(c: char, rest: seq<Byte>)
    requires IsSpace(c) && c != '\n'
    ensures c as int < 0x1_0000 && SpaceWidth(Utf8(c) + rest) == |Utf8(c)|
  {
    var n := c as int;
    if 0x2000 <= n <= 0x200A {
      assert n / 4096 == 2 && n / 64 % 64 == 0 && n % 64 == n - 0x2000;
    }
  }

  lemma SkippedIsSpace(s: seq<Byte>) returns (c: char)
    requires SpaceWidth(s) > 0
    ensures IsSpace(c) && c != '\n' && c as int < 0x1_0000 && s[..SpaceWidth(s)] == Utf8(c)
  {
    if SpaceWidth(s) == 1 {
      c := s[0];
    } else if SpaceWidth(s) == 2 {
      c := s[1];
    } else {
      var n := (s[0] as int - 0xE0) * 4096 + (s[1] as int - 0x80) * 64 + (s[2] as int - 0x80);
      c := n as char;
      assert n / 4096 == s[0] as int - 0xE0 && n % 64 == s[2] as int - 0x80;
      assert n / 64 % 64 == s[1] as int - 0x80;
    }
  }

  /** Space characters, encoded one after the other. */
  function Encoded(spaces: string): seq<Byte>
    requires forall i :: 0 <= i < |spaces| ==> spaces[i] as int < 0x1_0000
  {
    if spaces == "" then [] else Utf8(spaces[0]) + Encoded(spaces[1..])
  }

  ghost predicate OnlySpaces(spaces: string) {
    forall i :: 0 <= i < |spaces| ==> IsSpace(spaces[i]) && spaces[i] != '\n' && spaces[i] as int < 0x1_0000
  }

  /** Leading spaces are skipped up to what is none; a newline among them ends the scan. */
  lemma {:induction false} SpacesAreSkipped(spaces: string, rest: seq<Byte>)
    requires OnlySpaces(spaces)
    ensures rest == [] || (SpaceWidth(rest) == 0 && rest[0] != '\n') ==> SkipSpace(Encoded(spaces) + rest) == Some(rest)
    ensures rest != [] && rest[0] == '\n' ==> SkipSpace(Encoded(spaces) + rest) == None
  {
    hide SpaceWidth, Utf8, IsSpace;
    if spaces == "" {
      assert Encoded(spaces) + rest == rest;
      if rest == [] { EmptyHasNoSpace(rest); }
    } else {
      var c, more := spaces[0], Encoded(spaces[1..]) + rest;
      assert Encoded(spaces) + rest == Utf8(c) + more;
      SpaceIsSkipped(c, more);
      SpaceIsNoNewline(c);
      assert (Utf8(c) + more)[|Utf8(c)|..] == more;
      SpacesAreSkipped(spaces[1..], rest);
    }
  }

  lemma EmptyHasNoSpace(s: seq<Byte>)
    requires s == []
    ensures SpaceWidth(s) == 0
  {
  }

  lemma SpaceIsNoNewline(c: char)
    requires IsSpace(c) && c != '\n' && c as int < 0x1_0000
    ensures Utf8(c)[0] != '\n'
  {
  }

  /** What the scanner makes of spaces, an optional sign, digits and whatever else follows: the signed number if it is one
      of 64 bits; and nothing without digits, or after a newline. */
  lemma ScanMeaning(spaces: string, sign: seq<Byte>, digits: seq<Byte>, junk: seq<Byte>)
    requires OnlySpaces(spaces) && sign in {[], ['+'], ['-']}
    requires (forall k :: 0 <= k < |digits| ==> IsDigit(digits[k])) && (junk != [] ==> !IsDigit(junk[0]))
    ensures digits != [] ==>
              var v: int := if sign == ['-'] then -(NumberOf(digits) as int) else NumberOf(digits);
              ScanInt(Encoded(spaces) + (sign + digits + junk)) ==
              if -0x8000_0000_0000_0000 <= v <= 0x7FFF_FFFF_FFFF_FFFF then Some(v) else None
    ensures sign != [] && digits == [] ==> ScanInt(Encoded(spaces) + (sign + digits + junk)) == None
    ensures ScanInt(Encoded(spaces) + (['\n'] + junk)) == None
  {
    SpacesAreSkipped(spaces, ['\n'] + junk);
    if sign != [] || digits != [] {
      var rest := sign + digits + junk;
      assert rest[0] == if sign != [] then sign[0] else digits[0];
      NumberStart(rest);
      SpacesAreSkipped(spaces, rest);
      ScanBody(Encoded(spaces) + rest, sign, digits, junk);
    }
  }

  lemma ScanBody(line: seq<Byte>, sign: seq<Byte>, digits: seq<Byte>, junk: seq<Byte>)
    requires sign in {[], ['+'], ['-']} && (sign != [] || digits != [])
    requires (forall k :: 0 <= k < |digits| ==> IsDigit(digits[k])) && (junk != [] ==> !IsDigit(junk[0]))
    requires SkipSpace(line) == Some(sign + digits + junk)
    ensures digits == [] ==> ScanInt(line) == None
    ensures digits != [] ==>
              var v: int := if sign == ['-'] then -(NumberOf(digits) as int) else NumberOf(digits);
              ScanInt(line) == if -0x8000_0000_0000_0000 <= v <= 0x7FFF_FFFF_FFFF_FFFF then Some(v) else None
  {
    hide SkipSpace, DigitRun, NumberOf;
    var rest := sign + digits + junk;
    var body := if sign == [] then rest else rest[1..];
    assert body == digits + junk;
    assert rest[0] == if sign != [] then sign[0] else digits[0];
    DigitsRun(digits, junk);
    assert body[..|digits|] == digits;
  }

  lemma NumberStart(s: seq<Byte>)
    requires s != [] && (s[0] in {'+', '-'} || IsDigit(s[0]))
    ensures SpaceWidth(s) == 0 && s[0] != '\n'
  {
  }

  lemma {:induction false} DigitsRun(digits: seq<Byte>, junk: seq<Byte>)
    requires (forall k :: 0 <= k < |digits| ==> IsDigit(digits[k])) && (junk != [] ==> !IsDigit(junk[0]))
    ensures DigitRun(digits + junk) == |digits|
  {
    var all := digits + junk;
    var k := DigitRun(all);
    forall i | 0 <= i < |digits| ensures IsDigit(all[i]) { assert all[i] == digits[i]; }
    assert junk != [] ==> all[|digits|] == junk[0];
  }

  /** A header in which the length line, between any other lines, says `value`. */
  ghost predicate SaysLength(header: seq<Byte>, value: seq<Byte>) {
    exists pre: seq<Byte>, post: seq<Byte> ::
      && header == pre + (LENGTH_PREFIX + (value + (CRLF + post)))
      && (forall i :: 0 <= i < |pre| ==> !OccursAt(header, LENGTH_PREFIX, i))
      && (forall i :: 0 <= i < |value| ==> !OccursAt(value + (CRLF + post), CRLF, i))
  }

  lemma FoundAt(s: seq<Byte>, pre: seq<Byte>, sub: seq<Byte>, post: seq<Byte>)
    requires s == pre + (sub + post)
    requires forall i :: 0 <= i < |pre| ==> !OccursAt(s, sub, i)
    ensures Find(s, sub, 0) == Some(|pre|) && s[..|pre|] == pre && s[|pre| + |sub|..] == post
  {
    assert s[|pre|..|pre| + |sub|] == sub;
    assert OccursAt(s, sub, |pre|);
  }

  /** Headers of other writers, with further lines before or after the length, are read alike. */
  lemma LengthLine(header: seq<Byte>, value: seq<Byte>)
    requires SaysLength(header, value)
    ensures LengthIn(header) ==
            match ScanInt(value)
            case None => NoLength(BadNumber)
            case Some(n) => if 1 <= n <= MAX_FRAME then Length(n) else NoLength(OutOfRange)
  {
    hide ScanInt, Find, OccursAt;
    var pre: seq<Byte>, post: seq<Byte> :|
      && header == pre + (LENGTH_PREFIX + (value + (CRLF + post)))
      && (forall i :: 0 <= i < |pre| ==> !OccursAt(header, LENGTH_PREFIX, i))
      && (forall i :: 0 <= i < |value| ==> !OccursAt(value + (CRLF + post), CRLF, i));
    FoundAt(header, pre, LENGTH_PREFIX, value + (CRLF + post));
    FoundAt(value + (CRLF + post), value, CRLF, post);
  }

  /** A complete header: its only blank line is its end. */
  ghost predicate Complete(header: seq<Byte>) {
    |header| >= 4 && OccursAt(header, CRLF + CRLF, |header| - 4) &&
    forall i :: 0 <= i < |header| - 4 ==> !OccursAt(header, CRLF + CRLF, i)
  }

  /** One read of any complete header and what follows it, a header without a length line included. */
  lemma AnyHeader(header: seq<Byte>, value: seq<Byte>, tail: seq<Byte>)
    requires Complete(header)
    ensures (forall i :: 0 <= i <= |header| ==> !OccursAt(header, LENGTH_PREFIX, i)) ==>
              ReadFrame(header + tail) == Read(Failed(MissingLength), tail)
    ensures SaysLength(header, value) ==>
              ReadFrame(header + tail) ==
              match ScanInt(value)
              case None => Read(Failed(BadNumber), tail)
              case Some(n) =>
                if n < 1 || n > 67_108_864 then Read(Failed(OutOfRange), tail)
                else if |tail| < n then Read(Failed(BodyEof), [])
                else Read(Frame(tail[..n]), tail[n..])
  {
    hide ScanInt, SaysLength;
    var input, at := header + tail, |header| - 4;
    forall i | 0 <= i < at ensures !OccursAt(input, CRLF + CRLF, i) {
      assert !OccursAt(header, CRLF + CRLF, i);
      assert header[i..i + 4] == input[i..i + 4];
    }
    assert input[at..at + 4] == header[at..at + 4];
    assert OccursAt(input, CRLF + CRLF, at);
    assert Find(input, CRLF + CRLF, 0) == Some(at);
    assert input[..at + 4] == header && input[at + 4..] == tail;
    if SaysLength(header, value) { LengthLine(header, value); }
  }

  // ---------------------------------------------------------------- one written frame

  lemma {:induction false} ScanDecimal(n: nat)
    ensures ScanInt(Decimal(n)) == if n <= MAX_INT64 then Some(n) else None
  {
    var s := Decimal(n);
    assert IsDigit(s[0]);
    assert SpaceWidth(s) == 0;
    assert DigitRun(s) == |s|;
    assert s[..|s|] == s;
    DecimalRoundTrip(n);
  }

  /** The blank line of a written header is the first one, whatever follows the header. */
  lemma BlankLine(n: nat, s: seq<Byte>, i: int)
    requires 0 <= i < |LENGTH_PREFIX| + |Decimal(n)| && i < |s|
    requires s[i] == HeaderOf(n)[i]
    ensures s[i] != '\r'
  {
    if i >= |LENGTH_PREFIX| {
      assert s[i] == Decimal(n)[i - |LENGTH_PREFIX|];
    } else {
      assert s[i] == LENGTH_PREFIX[i];
    }
  }

  lemma FirstBlankLine(n: nat, tail: seq<Byte>)
    ensures Find(HeaderOf(n) + tail, CRLF + CRLF, 0) == Some(|LENGTH_PREFIX| + |Decimal(n)|)
  {
    var s, at := HeaderOf(n) + tail, |LENGTH_PREFIX| + |Decimal(n)|;
    forall i | 0 <= i < at ensures !OccursAt(s, CRLF + CRLF, i) {
      BlankLine(n, s, i);
      OccursStart(s, CRLF + CRLF, i);
    }
    assert s[at..at + 4] == CRLF + CRLF;
    assert OccursAt(s, CRLF + CRLF, at);
  }

  lemma HeaderAnnounces(n: nat)
    ensures LengthIn(HeaderOf(n)) ==
            if n > MAX_INT64 then NoLength(BadNumber)
            else if 1 <= n <= MAX_FRAME then Length(n) else NoLength(OutOfRange)
  {
    var h := HeaderOf(n);
    assert OccursAt(h, LENGTH_PREFIX, 0) by { assert h[..|LENGTH_PREFIX|] == LENGTH_PREFIX; }
    var line := h[|LENGTH_PREFIX|..];
    assert line == Decimal(n) + CRLF + CRLF;
    forall i | 0 <= i < |Decimal(n)| ensures !OccursAt(line, CRLF, i) {
      assert line[i] == Decimal(n)[i];
      OccursStart(line, CRLF, i);
    }
    assert OccursAt(line, CRLF, |Decimal(n)|) by { assert line[|Decimal(n)|..|Decimal(n)| + 2] == CRLF; }
    assert line[..|Decimal(n)|] == Decimal(n);
    ScanDecimal(n);
  }

  /** A written frame reads back exactly when its payload is sendable; whatever follows it is left unread. */
  lemma FrameRoundTrip(payload: seq<Byte>, tail: seq<Byte>)
    ensures Sendable(payload) ==> ReadFrame(Written(payload) + tail) == Read(Frame(payload), tail)
    ensures !Sendable(payload) ==>
              ReadFrame(Written(payload) + tail) ==
              Read(Failed(if |payload| > MAX_INT64 then BadNumber else OutOfRange), payload + tail)
  {
    var n := |payload|;
    var input := Written(payload) + tail;
    assert input == HeaderOf(n) + (payload + tail);
    FirstBlankLine(n, payload + tail);
    HeaderAnnounces(n);
    assert input[..|HeaderOf(n)|] == HeaderOf(n);
    assert input[|HeaderOf(n)|..] == payload + tail;
  }

  /** A frame cut short anywhere is never taken for a frame. */
  lemma CutFrame(payload: seq<Byte>, k: nat)
    requires Sendable(payload) && k < |Written(payload)|
    ensures ReadFrame(Written(payload)[..k]) ==
            Read(Failed(if k < |HeaderOf(|payload|)| then HeaderEof else BodyEof), [])
  {
    var n := |payload|;
    var h := HeaderOf(n);
    var cut := Written(payload)[..k];
    if k < |h| {
      forall i | 0 <= i <= k ensures !OccursAt(cut, CRLF + CRLF, i) {
        if OccursAt(cut, CRLF + CRLF, i) {
          assert cut[i] == h[i];
          OccursStart(cut, CRLF + CRLF, i);
          BlankLine(n, cut, i);
        }
      }
    } else {
      assert cut == h + payload[..k - |h|];
      FirstBlankLine(n, payload[..k - |h|]);
      HeaderAnnounces(n);
      assert cut[..|h|] == h;
    }
  }

  /** The branch for a Content-Length line without an end is dead code: a header ends with a blank line. */
  lemma LengthLineAlwaysEnds(header: seq<Byte>)
    requires |header| >= 4 && header[|header| - 4..] == CRLF + CRLF
    ensures LengthIn(header) != NoLength(MalformedLine)
  {
    var at := Find(header, LENGTH_PREFIX, 0);
    if at.Some? {
      var h := |header|;
      var p := at.value + |LENGTH_PREFIX|;
      assert header[p - 1] == header[at.value..p][15] == ' ';
      assert header[h - 4..][0] == header[h - 4] && header[h - 4..][1] == header[h - 3]
          && header[h - 4..][2] == header[h - 2] && header[h - 4..][3] == header[h - 1];
      var line := header[p..];
      assert line[|line| - 2..] == CRLF;
      assert OccursAt(line, CRLF, |line| - 2);
    }
  }

  // ---------------------------------------------------------------- a stream of frames

  function WrittenAll(payloads: seq<seq<Byte>>): seq<Byte> {
    if payloads == [] then [] else Written(payloads[0]) + WrittenAll(payloads[1..])
  }

  datatype Drain = Drain(payloads: seq<seq<Byte>>, error: FrameError, rest: seq<Byte>)

  /** Reads frames until a read fails. */
  function ReadAll(input: seq<Byte>): Drain
    decreases |input|
  {
    var r := ReadFrame(input);
    match r.result
    case Failed(e) => Drain([], e, r.rest)
    case Frame(p) => var more := ReadAll(r.rest); more.(payloads := [p] + more.payloads)
  }

  /** How many of the written frames lie wholly within the first `k` bytes. */
  function WholeFrames(payloads: seq<seq<Byte>>, k: nat): (j: nat)
    ensures j <= |payloads|
    ensures |WrittenAll(payloads[..j])| <= k
    ensures j < |payloads| ==> k < |WrittenAll(payloads[..j + 1])|
  {
    if payloads == [] then 0
    else if k < |Written(payloads[0])| then
      assert payloads[..1] == [payloads[0]];
      assert payloads[..1][1..] == [];
      0
    else
      var j := WholeFrames(payloads[1..], k - |Written(payloads[0])|);
      assert payloads[..j + 1][1..] == payloads[1..][..j];
      assert j + 1 < |payloads| ==> payloads[..j + 2][1..] == payloads[1..][..j + 1];
      1 + j
  }

  lemma DrainFrame(payload: seq<Byte>, tail: seq<Byte>)
    requires Sendable(payload)
    ensures ReadAll(Written(payload) + tail) ==
            Drain([payload] + ReadAll(tail).payloads, ReadAll(tail).error, ReadAll(tail).rest)
  {
    hide Written, ReadFrame;
    FrameRoundTrip(payload, tail);
  }

  lemma DrainCut(payload: seq<Byte>, k: nat)
    requires Sendable(payload) && k < |Written(payload)|
    ensures ReadAll(Written(payload)[..k]) in {Drain([], HeaderEof, []), Drain([], BodyEof, [])}
  {
    hide Written, ReadFrame;
    CutFrame(payload, k);
  }

  lemma DrainEmpty()
    ensures ReadAll([]) == Drain([], HeaderEof, [])
  {
    assert Find([], CRLF + CRLF, 0).None?;
  }

  /** A stream of written frames, cut after any number of bytes, yields exactly the whole frames before the cut
      and then an end-of-stream error. */
  lemma {:induction false} StreamRoundTrip(payloads: seq<seq<Byte>>, k: nat)
    requires forall i :: 0 <= i < |payloads| ==> Sendable(payloads[i])
    requires k <= |WrittenAll(payloads)|
    ensures var d := ReadAll(WrittenAll(payloads)[..k]);
            && d.payloads == payloads[..WholeFrames(payloads, k)]
            && d.error in {HeaderEof, BodyEof} && d.rest == []
            && (k == |WrittenAll(payloads)| ==> d == Drain(payloads, HeaderEof, []))
  {
    hide Written, ReadAll, Sendable;
    var input := WrittenAll(payloads)[..k];
    if payloads == [] {
      DrainEmpty();
    } else {
      var first, others := payloads[0], payloads[1..];
      var n := |Written(first)|;
      if k < n {
        assert input == Written(first)[..k];
        DrainCut(first, k);
      } else {
        var tail := WrittenAll(others)[..k - n];
        assert input == Written(first) + tail;
        DrainFrame(first, tail);
        StreamRoundTrip(others, k - n);
        assert payloads == [first] + others;
      }
    }
  }

  /** The frames read from a written stream are the payloads written, and nothing is left, exactly when every
      payload has 1 byte to 64 MiB. */
  lemma StreamReadsBackIff(payloads: seq<seq<Byte>>)
    ensures ReadAll(WrittenAll(payloads)) == Drain(payloads, HeaderEof, [])
            <==> forall i :: 0 <= i < |payloads| ==> 1 <= |payloads[i]| <= 67_108_864
  {
    assert forall i :: 0 <= i < |payloads| ==> (Sendable(payloads[i]) <==> 1 <= |payloads[i]| <= 67_108_864);
    SendableReadsBack(payloads);
  }

  lemma {:induction false} SendableReadsBack(payloads: seq<seq<Byte>>)
    ensures ReadAll(WrittenAll(payloads)) == Drain(payloads, HeaderEof, [])
            <==> forall i :: 0 <= i < |payloads| ==> Sendable(payloads[i])
  {
    if forall i :: 0 <= i < |payloads| ==> Sendable(payloads[i]) {
      StreamRoundTrip(payloads, |WrittenAll(payloads)|);
      assert WrittenAll(payloads)[..|WrittenAll(payloads)|] == WrittenAll(payloads);
    } else {
      FrameRoundTrip(payloads[0], WrittenAll(payloads[1..]));
      if Sendable(payloads[0]) {
        SendableReadsBack(payloads[1..]);
        assert exists i :: 0 <= i < |payloads[1..]| && !Sendable(payloads[1..][i]) by {
          var i :| 0 <= i < |payloads| && !Sendable(payloads[i]);
          assert payloads[1..][i - 1] == payloads[i];
        }
        var d := ReadAll(WrittenAll(payloads[1..]));
        if ReadAll(WrittenAll(payloads)) == Drain(payloads, HeaderEof, []) {
          assert ([payloads[0]] + d.payloads)[1..] == d.payloads;
        }
      }
    }
  }

  // ---------------------------------------------------------------- the reader and the writer

  /** A buffered byte stream: the bytes not yet read (or, for a writer, the bytes written). */
  class Stream {
    var bytes: seq<Byte>

    constructor (initial: seq<Byte>)
      ensures bytes == initial
    { bytes := initial; }

    method ReadByte() returns (b: Option<Byte>)
      modifies this
      ensures old(bytes) == [] ==> b.None? && bytes == []
      ensures old(bytes) != [] ==> b == Some(old(bytes)[0]) && bytes == old(bytes)[1..]
    {
      if bytes == [] { return None; }
      b := Some(bytes[0]);
      bytes := bytes[1..];
    }

    /** Fills a buffer of `n` bytes, or fails with the stream used up. */
    method ReadFull(n: nat) returns (body: Option<seq<Byte>>)
      modifies this
      ensures |old(bytes)| < n ==> body.None? && bytes == []
      ensures |old(bytes)| >= n ==> body == Some(old(bytes)[..n]) && bytes == old(bytes)[n..]
    {
      if |bytes| < n { bytes := []; return None; }
      body := Some(bytes[..n]);
      bytes := bytes[n..];
    }

    method Write(data: seq<Byte>)
      modifies this
      ensures bytes == old(bytes) + data
    { bytes := bytes + data; }
  }

  /** Reads one message, header byte by byte, and leaves the stream just after it. */
  method ReadMessage(r: Stream) returns (res: Result)
    modifies r
    ensures Read(res, r.bytes) == ReadFrame(old(r.bytes))
  {
    hide LengthIn, Find;
    ghost var input := r.bytes;
    var header: seq<Byte> := [];
    while true
      invariant header + r.bytes == input
      invariant forall i :: 0 <= i <= |header| - 4 ==> !OccursAt(input, CRLF + CRLF, i)
      decreases |r.bytes|
    {
      var b := r.ReadByte();
      if b.None? {
        return Failed(HeaderEof);
      }
      header := header + [b.value];
      var at := |header| - 4;
      assert at >= 0 ==> header[at..] == input[at..at + 4];
      if |header| >= 4 && header[at..] == CRLF + CRLF {
        assert OccursAt(input, CRLF + CRLF, at);
        assert Find(input, CRLF + CRLF, 0) == Some(at);
        assert input[..at + 4] == header && input[at + 4..] == r.bytes;
        break;
      }
    }
    var length := LengthIn(header);
    if length.NoLength? { return Failed(length.why); }
    var body := r.ReadFull(length.n);
    if body.None? { return Failed(BodyEof); }
    return Frame(body.value);
  }

  /** Writes one message after whatever the stream already holds. */
  method WriteMessage(w: Stream, payload: seq<Byte>)
    modifies w
    ensures w.bytes == old(w.bytes) + Written(payload)
  {
    w.Write(HeaderOf(|payload|));
    w.Write(payload);
  }
}

/** SRT time lines and files: what is printed and what is read back. */
module SrtSpec {
  import opened Arithmetic
  import opened PyText
  import O = OpEdSpec

  // ---- printing --------------------------------------------------------------------------------

  function ZeroFill(s: string, width: nat): string
    decreases width - |s|
  {
    if |s| >= width then s else ZeroFill("0" + s, width)
  }

  // f"{n:0<width>d}": zeros between the sign and the digits.
  function Padded(n: int, width: nat): string {
    if n >= 0 then ZeroFill(Decimal(n), width)
    else if width == 0 then "-" + Decimal(-n)
    else "-" + ZeroFill(Decimal(-n), width - 1)
  }

  // Division rounds down, so negative times have negative hours.
  function MsToStr(ms: int): string {
    Padded(ms / 3_600_000, 2) + (":" + (Padded(ms % 3_600_000 / 60_000, 2) + (":" +
      (Padded(ms % 60_000 / 1_000, 2) + ("," + Padded(ms % 1_000, 3))))))
  }

  const LIMIT := 360_000_000

  // What two digits can hold as hours.
  predicate InRange(ms: int) {
    0 <= ms < LIMIT
  }

  function TimeLine(start: int, end: int): string {
    MsToStr(start) + (" --> " + MsToStr(end))
  }

  // ---- reading ---------------------------------------------------------------------------------

  function DigitValue(c: char): nat
    requires IsDigit(c)
  {
    c as int - '0' as int
  }

  // \d{2}:\d{2}:\d{2},\d{3} at the start of s
  predicate StartsWithStamp(s: string) {
    && |s| >= 12
    && IsDigit(s[0]) && IsDigit(s[1]) && s[2] == ':'
    && IsDigit(s[3]) && IsDigit(s[4]) && s[5] == ':'
    && IsDigit(s[6]) && IsDigit(s[7]) && s[8] == ','
    && IsDigit(s[9]) && IsDigit(s[10]) && IsDigit(s[11])
  }

  function StampMs(s: string): nat
    requires StartsWithStamp(s)
  {
    (10 * DigitValue(s[0]) + DigitValue(s[1])) * 3_600_000 + (10 * DigitValue(s[3]) + DigitValue(s[4])) * 60_000
    + (10 * DigitValue(s[6]) + DigitValue(s[7])) * 1_000
    + 100 * DigitValue(s[9]) + 10 * DigitValue(s[10]) + DigitValue(s[11])
  }

  datatype Times = Times(start: nat, end: nat, rest: string)

  // The regular expression <stamp>\s*-->\s*<stamp> at the start of s; rest is what follows the match.
  function MatchTimes(s: string): (found: Option<Times>)
    ensures found.Some? ==> |found.value.rest| < |s|
  {
    if !StartsWithStamp(s) then None
    else
      var arrow := LStrip(s[12..]);
      if !("-->" <= arrow) then None
      else
        var tail := LStrip(arrow[3..]);
        if !StartsWithStamp(tail) then None else Some(Times(StampMs(s), StampMs(tail), tail[12..]))
  }

  // 0 when the line is not a time line.
  function ParseStart(line: string): nat {
    match MatchTimes(Strip(line))
    case None => 0
    case Some(times) => times.start
  }

  // ---- one stamp -------------------------------------------------------------------------------

  function Zeros(k: nat): string {
    if k == 0 then "" else "0" + Zeros(k - 1)
  }

  lemma {:induction false} ZeroFillIs(s: string, width: nat)
    ensures ZeroFill(s, width) == Zeros(if |s| < width then width - |s| else 0) + s
    decreases width - |s|
  {
    if |s| < width {
      ZeroFillIs("0" + s, width);
      ZerosBehind(width - |s| - 1);
      assert Zeros(width - |s| - 1) + ("0" + s) == Zeros(width - |s| - 1) + "0" + s;
    }
  }

  lemma {:induction false} ZerosBehind(k: nat)
    ensures Zeros(k) + "0" == "0" + Zeros(k)
  {
    if k > 0 {
      ZerosBehind(k - 1);
      assert "0" + Zeros(k - 1) + "0" == "0" + (Zeros(k - 1) + "0");
    }
  }

  // A sign, zeros, the digits; as long as asked for, the sign included, unless the digits need more.
  lemma PaddedIs(n: int, width: nat)
    ensures var sign, digits := if n < 0 then "-" else "", Decimal(if n < 0 then -n else n);
      var filled := |sign| + |digits|;
      Padded(n, width) == sign + (Zeros(if filled < width then width - filled else 0) + digits)
  {
    hide Decimal;
    if n >= 0 {
      ZeroFillIs(Decimal(n), width);
    } else if width > 0 {
      ZeroFillIs(Decimal(-n), width - 1);
    }
  }

  lemma PaddedTwo(n: nat)
    requires n < 100
    ensures Padded(n, 2) == [Digit(n / 10), Digit(n % 10)]
  {
    if n < 10 {
      assert ZeroFill(Decimal(n), 2) == ZeroFill("0" + Decimal(n), 2);
    } else {
      assert Decimal(n / 10) == [Digit(n / 10)];
    }
  }

  lemma PaddedThree(n: nat)
    requires n < 1000
    ensures Padded(n, 3) == [Digit(n / 100), Digit(n / 10 % 10), Digit(n % 10)]
  {
    if n < 10 {
      assert ZeroFill(Decimal(n), 3) == ZeroFill("00" + Decimal(n), 3) by {
        assert "0" + ("0" + Decimal(n)) == "00" + Decimal(n);
      }
    } else if n < 100 {
      assert Decimal(n / 10) == [Digit(n / 10)];
      assert ZeroFill(Decimal(n), 3) == ZeroFill("0" + Decimal(n), 3);
    } else {
      assert Decimal(n / 100) == [Digit(n / 100)];
      assert Decimal(n / 10) == [Digit(n / 100), Digit(n / 10 % 10)];
    }
  }

  function Stamp(h: nat, m: nat, s: nat, r: nat): string
    requires h < 100 && m < 100 && s < 100 && r < 1000
  {
    [Digit(h / 10), Digit(h % 10), ':', Digit(m / 10), Digit(m % 10), ':', Digit(s / 10), Digit(s % 10), ',',
     Digit(r / 100), Digit(r / 10 % 10), Digit(r % 10)]
  }

  lemma InRangeStamp(ms: int)
    requires InRange(ms)
    ensures MsToStr(ms) == Stamp(ms / 3_600_000, ms % 3_600_000 / 60_000, ms % 60_000 / 1_000, ms % 1_000)
  {
    PaddedTwo(ms / 3_600_000);
    PaddedTwo(ms % 3_600_000 / 60_000);
    PaddedTwo(ms % 60_000 / 1_000);
    PaddedThree(ms % 1_000);
  }

  lemma StampReads(h: nat, m: nat, s: nat, r: nat, rest: string)
    requires h < 100 && m < 100 && s < 100 && r < 1000
    ensures StartsWithStamp(Stamp(h, m, s, r) + rest)
    ensures StampMs(Stamp(h, m, s, r) + rest) == h * 3_600_000 + m * 60_000 + s * 1_000 + r
  {
    var all := Stamp(h, m, s, r) + rest;
    assert all[..12] == Stamp(h, m, s, r);
    DigitsOfTwo(h);
    DigitsOfTwo(m);
    DigitsOfTwo(s);
    DigitsOfThree(r);
  }

  lemma DigitsOfTwo(n: nat)
    requires n < 100
    ensures 10 * DigitValue(Digit(n / 10)) + DigitValue(Digit(n % 10)) == n
  {
  }

  lemma DigitsOfThree(n: nat)
    requires n < 1000
    ensures 100 * DigitValue(Digit(n / 100)) + 10 * DigitValue(Digit(n / 10 % 10)) + DigitValue(Digit(n % 10)) == n
  {
    assert n / 10 == n / 100 * 10 + n / 10 % 10;
  }

  lemma PartsOf(ms: nat)
    ensures ms / 3_600_000 * 3_600_000 + ms % 3_600_000 / 60_000 * 60_000 + ms % 60_000 / 1_000 * 1_000
      + ms % 1_000 == ms
  {
    assert ms % 60_000 == ms % 3_600_000 % 60_000;
    assert ms % 1_000 == ms % 60_000 % 1_000;
  }

  // A printed time in range is read back, whatever follows it.
  lemma StampRoundTrip(ms: int, rest: string)
    requires InRange(ms)
    ensures |MsToStr(ms)| == 12 && IsDigit(MsToStr(ms)[11])
    ensures StartsWithStamp(MsToStr(ms) + rest) && StampMs(MsToStr(ms) + rest) == ms
    ensures (MsToStr(ms) + rest)[12..] == rest
  {
    InRangeStamp(ms);
    StampReads(ms / 3_600_000, ms % 3_600_000 / 60_000, ms % 60_000 / 1_000, ms % 1_000, rest);
    PartsOf(ms);
  }

  lemma DigitsBack(a: char, b: char)
    requires IsDigit(a) && IsDigit(b)
    ensures var n := 10 * DigitValue(a) + DigitValue(b); n < 100 && Digit(n / 10) == a && Digit(n % 10) == b
  {
  }

  lemma ThreeDigitsBack(a: char, b: char, c: char)
    requires IsDigit(a) && IsDigit(b) && IsDigit(c)
    ensures var n := 100 * DigitValue(a) + 10 * DigitValue(b) + DigitValue(c);
      n < 1000 && Digit(n / 100) == a && Digit(n / 10 % 10) == b && Digit(n % 10) == c
  {
    var n, x, y, z := 100 * DigitValue(a) + 10 * DigitValue(b) + DigitValue(c), DigitValue(a), DigitValue(b),
      DigitValue(c);
    assert n / 100 == x && n / 10 == 10 * x + y && n % 10 == z;
  }

  lemma PartsBack(h: nat, m: nat, s: nat, r: nat)
    requires m < 60 && s < 60 && r < 1000
    ensures var ms := h * 3_600_000 + m * 60_000 + s * 1_000 + r;
      ms / 3_600_000 == h && ms % 3_600_000 / 60_000 == m && ms % 60_000 / 1_000 == s && ms % 1_000 == r
  {
    DivideSum(h, m * 60_000 + s * 1_000 + r, 3_600_000);
    DivideSum(m, s * 1_000 + r, 60_000);
    DivideSum(s, r, 1_000);
    DivideSum(60 * h + m, s * 1_000 + r, 60_000);
    DivideSum(60 * (60 * h + m) + s, r, 1_000);
  }

  // The other way round: what is recognised as a time is what that time is printed as, whenever its minutes and
  // seconds are below sixty.
  lemma StampIsPrinted(text: string)
    requires StartsWithStamp(text)
    requires text[3] <= '5' && text[6] <= '5'
    ensures InRange(StampMs(text)) && MsToStr(StampMs(text)) == text[..12]
  {
    hide MsToStr, Digit;
    DigitsBack(text[0], text[1]);
    DigitsBack(text[3], text[4]);
    DigitsBack(text[6], text[7]);
    ThreeDigitsBack(text[9], text[10], text[11]);
    var h, m := 10 * DigitValue(text[0]) + DigitValue(text[1]), 10 * DigitValue(text[3]) + DigitValue(text[4]);
    var s := 10 * DigitValue(text[6]) + DigitValue(text[7]);
    var r := 100 * DigitValue(text[9]) + 10 * DigitValue(text[10]) + DigitValue(text[11]);
    PartsBack(h, m, s, r);
    InRangeStamp(StampMs(text));
    assert Stamp(h, m, s, r) == text[..12];
  }

  lemma {:induction false} DecimalLength(n: nat)
    ensures |Decimal(n)| <= 2 <==> n < 100
  {
    if n >= 100 {
      DecimalLength(n / 10);
      if n / 10 < 100 {
        assert Decimal(n / 10) == Decimal(n / 100) + [Digit(n / 10 % 10)];
      }
    } else if n >= 10 {
      assert Decimal(n / 10) == [Digit(n / 10)];
    }
  }

  // Hours of three digits or more, and negative ones, are not a stamp.
  lemma OutOfRangeNoStamp(ms: int, rest: string)
    requires !InRange(ms)
    ensures !StartsWithStamp(MsToStr(ms) + rest)
    ensures MsToStr(ms) != "" && !IsSpace(MsToStr(ms)[0])
  {
    var hours := Padded(ms / 3_600_000, 2);
    var s := MsToStr(ms) + rest;
    if ms < 0 {
      assert hours[0] == '-';
      assert s[0] == '-';
    } else {
      DecimalLength(ms / 3_600_000);
      DecimalDigits(ms / 3_600_000);
      assert hours == Decimal(ms / 3_600_000) && |hours| >= 3;
      assert s[0] == hours[0] && s[2] == hours[2];
      assert IsDigit(hours[2]) && IsDigit(hours[0]);
    }
  }

  // ---- one time line ---------------------------------------------------------------------------

  lemma LStripStops(s: string)
    requires s != "" ==> !IsSpace(s[0])
    ensures LStrip(s) == s && LStrip(" " + s) == s
  {
    LStripStep(" " + s);
    assert (" " + s)[1..] == s;
  }

  lemma PrintedStart(ms: int)
    ensures MsToStr(ms) != "" && !IsSpace(MsToStr(ms)[0])
  {
    if InRange(ms) {
      StampRoundTrip(ms, "");
      assert MsToStr(ms) + "" == MsToStr(ms);
    } else {
      OutOfRangeNoStamp(ms, "");
    }
  }

  // A time line is recognised exactly when both of its times are in range, and then read back exactly.
  lemma LineMatches(start: int, end: int, rest: string)
    ensures MatchTimes(TimeLine(start, end) + rest)
      == if InRange(start) && InRange(end) then Some(Times(start, end, rest)) else None
  {
    hide MsToStr, StampMs;
    var line := TimeLine(start, end) + rest;
    var last := MsToStr(end) + rest;
    assert line == MsToStr(start) + (" --> " + last);
    if InRange(start) {
      StampRoundTrip(start, " --> " + last);
      var arrow := "-->" + (" " + last);
      assert line[12..] == " " + arrow;
      LStripStops(arrow);
      assert arrow[3..] == " " + last;
      PrintedStart(end);
      assert last[0] == MsToStr(end)[0];
      LStripStops(last);
      if InRange(end) {
        StampRoundTrip(end, rest);
      } else {
        OutOfRangeNoStamp(end, rest);
      }
    } else {
      OutOfRangeNoStamp(start, " --> " + last);
    }
  }

  // A line that starts and ends with something visible is not changed by stripping.
  lemma StripKeeps(s: string)
    requires s != "" && !IsSpace(s[0]) && !IsSpace(s[|s| - 1])
    ensures Strip(s) == s
  {
  }

  lemma PrintedEnd(ms: int)
    ensures MsToStr(ms) != "" && !IsSpace(MsToStr(ms)[|MsToStr(ms)| - 1])
  {
    PaddedThree(ms % 1_000);
    var tail := Padded(ms % 1_000, 3);
    assert MsToStr(ms)[|MsToStr(ms)| - 1] == tail[2];
  }

  lemma LineUnstripped(start: int, end: int)
    ensures Strip(TimeLine(start, end)) == TimeLine(start, end)
  {
    hide MsToStr;
    PrintedStart(start);
    PrintedEnd(end);
    var line := TimeLine(start, end);
    assert line[0] == MsToStr(start)[0] && line[|line| - 1] == MsToStr(end)[|MsToStr(end)| - 1];
    StripKeeps(line);
  }

  // Printing and parsing the start: exact when both times fit, and 0 for everything else.
  lemma ParseStartRoundTrip(start: int, end: int)
    ensures ParseStart(TimeLine(start, end)) == start <==> start == 0 || (InRange(start) && InRange(end))
    ensures !(InRange(start) && InRange(end)) ==> ParseStart(TimeLine(start, end)) == 0
  {
    hide MsToStr, MatchTimes;
    LineUnstripped(start, end);
    LineMatches(start, end, "");
    assert TimeLine(start, end) + "" == TimeLine(start, end);
  }

  // ---- the last end ----------------------------------------------------------------------------

  function Max(a: nat, b: nat): nat {
    if b > a then b else a
  }

  // Over all matches in the content, from left to right and without overlap.
  function ScanEnds(content: string, best: nat): nat
    decreases |content|
  {
    if content == "" then best
    else
      match MatchTimes(content)
      case Some(times) => ScanEnds(times.rest, Max(best, times.end))
      case None => ScanEnds(content[1..], best)
  }

  predicate NoColon(s: string) {
    ':' !in s
  }

  // Text without a colon, before a time line or at the end, holds no start of a match.
  lemma NoMatchInside(noise: string, rest: string)
    requires noise != "" && NoColon(noise)
    requires rest == "" || (|rest| >= 2 && rest[0] != ':' && rest[1] != ':')
    ensures MatchTimes(noise + rest) == None
  {
    hide MatchTimes;
    var s := noise + rest;
    if |s| >= 3 {
      if |noise| >= 3 {
        assert s[2] == noise[2];
      } else {
        assert s[2] == rest[2 - |noise|];
      }
    }
    NoStamp(s);
  }

  lemma NoStamp(s: string)
    requires |s| >= 3 ==> s[2] != ':'
    ensures MatchTimes(s) == None
  {
  }

  lemma {:induction false} ScanSkips(noise: string, rest: string, best: nat)
    requires NoColon(noise)
    requires rest == "" || (|rest| >= 2 && rest[0] != ':' && rest[1] != ':')
    ensures ScanEnds(noise + rest, best) == ScanEnds(rest, best)
  {
    if noise == "" {
      assert noise + rest == rest;
    } else {
      NoMatchInside(noise, rest);
      assert (noise + rest)[1..] == noise[1..] + rest;
      ScanSkips(noise[1..], rest, best);
    }
  }

  predicate AllInRange(spans: seq<O.Span>) {
    forall k :: 0 <= k < |spans| ==> InRange(spans[k].start) && InRange(spans[k].end)
  }

  // Time lines with other text before, between and after them.
  function Interleaved(noise: seq<string>, spans: seq<O.Span>): string
    requires |noise| == |spans| + 1
  {
    if spans == [] then noise[0]
    else noise[0] + (TimeLine(spans[0].start, spans[0].end) + Interleaved(noise[1..], spans[1..]))
  }

  function LargestEnd(spans: seq<O.Span>, best: nat): nat
    requires AllInRange(spans)
  {
    if spans == [] then best else LargestEnd(spans[1..], Max(best, spans[0].end))
  }

  lemma LineStart(start: int, end: int, rest: string)
    requires InRange(start) && InRange(end)
    ensures var s := TimeLine(start, end) + rest; |s| >= 2 && s[0] != ':' && s[1] != ':'
  {
    InRangeStamp(start);
  }

  // Whatever else the file says, as long as it has no colon: the scan ends with the largest end.
  lemma {:induction false} ScanFindsLargest(noise: seq<string>, spans: seq<O.Span>, best: nat)
    requires |noise| == |spans| + 1 && AllInRange(spans)
    requires forall k :: 0 <= k < |noise| ==> NoColon(noise[k])
    ensures ScanEnds(Interleaved(noise, spans), best) == LargestEnd(spans, best)
  {
    hide TimeLine, MatchTimes;
    if spans == [] {
      assert noise[0] + "" == noise[0];
      ScanSkips(noise[0], "", best);
    } else {
      var rest := Interleaved(noise[1..], spans[1..]);
      var line := TimeLine(spans[0].start, spans[0].end) + rest;
      LineStart(spans[0].start, spans[0].end, rest);
      ScanSkips(noise[0], line, best);
      LineMatches(spans[0].start, spans[0].end, rest);
      assert ScanEnds(line, best) == ScanEnds(rest, Max(best, spans[0].end));
      ScanFindsLargest(noise[1..], spans[1..], Max(best, spans[0].end));
    }
  }

  // That is the maximum of the ends: it bounds them all, and it is one of them unless there are none.
  lemma {:induction false} LargestEndIsMax(spans: seq<O.Span>, best: nat)
    requires AllInRange(spans)
    ensures LargestEnd(spans, best) >= best
    ensures forall e :: e in spans ==> e.end <= LargestEnd(spans, best)
    ensures LargestEnd(spans, best) == best || exists e :: e in spans && e.end == LargestEnd(spans, best)
  {
    if spans == [] {
    } else {
      LargestEndIsMax(spans[1..], Max(best, spans[0].end));
      HeadAndTail(spans);
    }
  }

  // ---- blocks of a file ------------------------------------------------------------------------

  // Index of the first two newlines in a row, or |s|.
  function FindPair(s: string): (i: nat)
    ensures i < |s| ==> i + 2 <= |s|
    ensures i <= |s|
  {
    if |s| < 2 then |s|
    else if s[0] == '\n' && s[1] == '\n' then 0
    else
      var i := FindPair(s[1..]);
      1 + i
  }

  // content.split("\n\n")
  function SplitBlocks(s: string): (blocks: seq<string>)
    ensures blocks != []
    decreases |s|
  {
    var i := FindPair(s);
    if i == |s| then [s] else [s[..i]] + SplitBlocks(s[i + 2..])
  }

  // No two newlines in a row.
  predicate PairFree(s: string) {
    forall i :: 0 <= i < |s| - 1 ==> s[i] != '\n' || s[i + 1] != '\n'
  }

  // What splitting can leave between two separators.
  predicate IsBlock(s: string) {
    PairFree(s) && (s != "" ==> s[|s| - 1] != '\n')
  }

  predicate AllBlocks(blocks: seq<string>) {
    forall k :: 0 <= k < |blocks| ==> IsBlock(blocks[k])
  }

  lemma {:induction false} PairSkips(a: string, b: string)
    requires IsBlock(a)
    ensures FindPair(a + ("\n\n" + b)) == |a|
  {
    var s := a + ("\n\n" + b);
    if a == "" {
      assert s == "\n\n" + b;
    } else {
      assert s[1..] == a[1..] + ("\n\n" + b);
      if |a| > 1 {
        assert s[0] == a[0] && s[1] == a[1];
      }
      PairSkips(a[1..], b);
    }
  }

  lemma {:induction false} PairAbsent(s: string)
    requires PairFree(s)
    ensures FindPair(s) == |s|
  {
    if |s| >= 2 {
      PairAbsent(s[1..]);
    }
  }

  lemma SplitFirstBlock(first: string, rest: string)
    requires IsBlock(first)
    ensures SplitBlocks(first + ("\n\n" + rest)) == [first] + SplitBlocks(rest)
  {
    var s := first + ("\n\n" + rest);
    PairSkips(first, rest);
    assert s[..|first|] == first && s[|first| + 2..] == rest;
  }

  // Splitting undoes joining.
  lemma {:induction false} SplitJoinBlocks(blocks: seq<string>)
    requires blocks != [] && AllBlocks(blocks)
    ensures SplitBlocks(Join(blocks, "\n\n")) == blocks
  {
    hide FindPair, SplitBlocks, IsBlock;
    assert IsBlock(blocks[0]);
    if |blocks| == 1 {
      OneBlock(blocks[0]);
    } else {
      var rest := Join(blocks[1..], "\n\n");
      SplitJoinBlocks(blocks[1..]);
      SplitFirstBlock(blocks[0], rest);
      assert blocks[0] + "\n\n" + rest == blocks[0] + ("\n\n" + rest);
      HeadAndTail(blocks);
    }
  }

  lemma OneBlock(block: string)
    requires IsBlock(block)
    ensures SplitBlocks(block) == [block]
  {
    PairAbsent(block);
  }

  // ---- reading the events of a file ------------------------------------------------------------

  // The first line that is a time line.
  function FirstTimes(lines: seq<string>): Option<Times> {
    if lines == [] then None
    else
      var times := MatchTimes(Strip(lines[0]));
      if times.Some? then times else FirstTimes(lines[1..])
  }

  function BlockEvent(block: string): seq<O.Span> {
    match FirstTimes(Split(Strip(block), '\n'))
    case None => []
    case Some(times) => [O.Span(times.start, times.end)]
  }

  function BlockEvents(blocks: seq<string>): seq<O.Span> {
    if blocks == [] then [] else BlockEvents(blocks[..|blocks| - 1]) + BlockEvent(blocks[|blocks| - 1])
  }

  function ParseEvents(content: string): seq<O.Span> {
    BlockEvents(SplitBlocks(Strip(content)))
  }

  // An entry of a file: a line before the time line, and text after it.
  datatype Entry = Entry(head: string, span: O.Span, tail: string)

  // The head is one visible line that is no time line; the tail is empty or starts a new line, without blank
  // lines. What else the tail says does not matter.
  predicate GoodEntry(entry: Entry) {
    && entry.head != "" && !IsSpace(entry.head[0]) && '\n' !in entry.head
    && MatchTimes(Strip(entry.head)) == None
    && InRange(entry.span.start) && InRange(entry.span.end)
    && (entry.tail != "" ==> entry.tail[0] == '\n')
    && IsBlock(entry.tail)
  }

  function TimeLineOf(entry: Entry): string {
    TimeLine(entry.span.start, entry.span.end)
  }

  function Rendered(entry: Entry): string {
    entry.head + (['\n'] + (TimeLineOf(entry) + entry.tail))
  }

  function RenderedAll(entries: seq<Entry>): (blocks: seq<string>)
    ensures |blocks| == |entries|
  {
    seq(|entries|, i requires 0 <= i < |entries| => Rendered(entries[i]))
  }

  function SpansOf(entries: seq<Entry>): (spans: seq<O.Span>)
    ensures |spans| == |entries|
  {
    seq(|entries|, i requires 0 <= i < |entries| => entries[i].span)
  }

  // What stripping leaves of an entry: at most the tail gets shorter.
  function Trimmed(entry: Entry): Entry {
    entry.(tail := RStrip(entry.tail))
  }

  lemma TimeLineFacts(span: O.Span)
    requires InRange(span.start) && InRange(span.end)
    ensures var line := TimeLine(span.start, span.end);
      |line| == 29 && '\n' !in line && !IsSpace(line[28]) && IsDigit(line[0]) && IsDigit(line[28])
  {
    InRangeStamp(span.start);
    InRangeStamp(span.end);
  }

  lemma RStripOfVisibleEnd(s: string)
    requires s != "" && !IsSpace(s[|s| - 1])
    ensures RStrip(s) == s
  {
  }

  lemma StripRendered(entry: Entry)
    requires GoodEntry(entry)
    ensures Strip(Rendered(entry)) == Rendered(Trimmed(entry)) == RStrip(Rendered(entry))
    ensures RStrip(Rendered(entry)) != "" && !IsSpace(Rendered(entry)[0])
  {
    hide TimeLine, MatchTimes, IsBlock;
    TimeLineFacts(entry.span);
    var front := entry.head + (['\n'] + TimeLineOf(entry));
    assert Rendered(entry) == front + entry.tail;
    assert front[0] == entry.head[0] && front[|front| - 1] == TimeLineOf(entry)[28];
    RStripOfVisibleEnd(front);
    VisibleStart(Rendered(entry));
    if RStrip(entry.tail) == "" {
      RStripOfSpace(front, entry.tail);
      assert front + "" == front;
    } else {
      RStripAppend(front, entry.tail);
    }
    assert Rendered(Trimmed(entry)) == front + RStrip(entry.tail);
  }

  lemma TrimmedGood(entry: Entry)
    requires GoodEntry(entry)
    ensures GoodEntry(Trimmed(entry))
  {
    var tail := RStrip(entry.tail);
    RStripEnds(entry.tail);
  }

  lemma FirstLine(line: string, tail: string)
    requires '\n' !in line && (tail != "" ==> tail[0] == '\n')
    ensures Split(line + tail, '\n')[0] == line
  {
    if tail == "" {
      assert line + tail == line;
      assert Find(line, '\n') == |line|;
    } else {
      assert line + tail == line + ['\n'] + tail[1..];
      SplitFirst(line, tail[1..], '\n');
    }
  }

  lemma SplitLines(head: string, line: string, tail: string)
    requires '\n' !in head && '\n' !in line && (tail != "" ==> tail[0] == '\n')
    ensures var lines := Split(head + (['\n'] + (line + tail)), '\n');
      |lines| >= 2 && lines[0] == head && lines[1] == line
  {
    hide Split;
    var rest := line + tail;
    assert head + (['\n'] + rest) == head + ['\n'] + rest;
    SplitFirst(head, rest, '\n');
    FirstLine(line, tail);
  }

  // The block of an entry yields its times.
  lemma EntryRead(entry: Entry)
    requires GoodEntry(entry)
    ensures BlockEvent(Rendered(entry)) == [entry.span]
  {
    hide TimeLine, MatchTimes, IsBlock, Strip;
    StripRendered(entry);
    TimeLineFacts(entry.span);
    TrimmedGood(entry);
    var line, tail := TimeLineOf(entry), RStrip(entry.tail);
    SplitLines(entry.head, line, tail);
    var lines := Split(Rendered(Trimmed(entry)), '\n');
    LineUnstripped(entry.span.start, entry.span.end);
    LineMatches(entry.span.start, entry.span.end, "");
    assert line + "" == line;
    assert FirstTimes(lines) == FirstTimes(lines[1..]);
  }

  lemma EntryIsBlock(entry: Entry)
    requires GoodEntry(entry)
    ensures IsBlock(Rendered(entry))
  {
    hide TimeLine, MatchTimes;
    TimeLineFacts(entry.span);
    var line := TimeLineOf(entry);
    var s := Rendered(entry);
    var h := |entry.head|;
    assert s[h] == '\n' && s[h - 1] == entry.head[h - 1] && s[h + 1] == line[0];
    assert forall i :: 0 <= i < h ==> s[i] == entry.head[i];
    assert forall i :: 0 <= i < 29 ==> s[h + 1 + i] == line[i];
    assert forall i :: 0 <= i < |entry.tail| ==> s[h + 30 + i] == entry.tail[i];
    forall i | 0 <= i < |s| - 1
      ensures s[i] != '\n' || s[i + 1] != '\n'
    {
      if h < i < h + 30 {
        assert s[i] == line[i - h - 1];
      } else if i >= h + 30 {
        assert s[i] == entry.tail[i - h - 30] && s[i + 1] == entry.tail[i + 1 - h - 30];
      }
    }
  }

  lemma {:induction false} EventsRead(entries: seq<Entry>)
    requires GoodEntries(entries)
    ensures BlockEvents(RenderedAll(entries)) == SpansOf(entries)
  {
    hide GoodEntry, BlockEvent, Rendered;
    if entries == [] {
    } else {
      var n := |entries| - 1;
      EventsRead(entries[..n]);
      EntryRead(entries[n]);
      assert RenderedAll(entries)[..n] == RenderedAll(entries[..n]);
      assert SpansOf(entries) == SpansOf(entries[..n]) + [entries[n].span];
    }
  }

  lemma {:induction false} JoinVisible(blocks: seq<string>, sep: string)
    requires blocks != [] && forall k :: 0 <= k < |blocks| ==> blocks[k] != "" && !IsSpace(blocks[k][0])
    ensures Join(blocks, sep) != "" && !IsSpace(Join(blocks, sep)[0])
  {
  }

  // Stripping a joined file only changes its last block.
  lemma {:induction false} RStripJoin(blocks: seq<string>, sep: string)
    requires blocks != [] && RStrip(blocks[|blocks| - 1]) != ""
    ensures RStrip(Join(blocks, sep)) == Join(blocks[..|blocks| - 1] + [RStrip(blocks[|blocks| - 1])], sep)
    ensures RStrip(Join(blocks, sep)) != ""
  {
    hide RStrip;
    var n := |blocks| - 1;
    var trimmed := blocks[..n] + [RStrip(blocks[n])];
    if n == 0 {
    } else {
      RStripJoin(blocks[1..], sep);
      assert blocks[1..][..n - 1] == blocks[1..n];
      assert trimmed[1..] == blocks[1..n] + [RStrip(blocks[n])];
      RStripAppend(blocks[0] + sep, Join(blocks[1..], sep));
    }
  }

  predicate GoodEntries(entries: seq<Entry>) {
    forall k :: 0 <= k < |entries| ==> GoodEntry(entries[k])
  }

  // What stripping leaves of a file: its last entry is trimmed.
  function TrimmedLast(entries: seq<Entry>): seq<Entry>
    requires entries != []
  {
    entries[..|entries| - 1] + [Trimmed(entries[|entries| - 1])]
  }

  lemma StripIsRStrip(s: string)
    requires s != "" && !IsSpace(s[0])
    ensures Strip(s) == RStrip(s)
  {
  }

  lemma FileStripped(entries: seq<Entry>)
    requires entries != [] && GoodEntries(entries)
    ensures Strip(Join(RenderedAll(entries), "\n\n")) == Join(RenderedAll(TrimmedLast(entries)), "\n\n")
  {
    hide GoodEntry, Rendered, Trimmed, RStrip, LStrip, Strip, Join;
    var blocks, n := RenderedAll(entries), |entries| - 1;
    forall k | 0 <= k < |entries|
      ensures blocks[k] != "" && !IsSpace(blocks[k][0])
    {
      RenderedVisible(entries[k]);
    }
    JoinVisible(blocks, "\n\n");
    StripIsRStrip(Join(blocks, "\n\n"));
    StripRendered(entries[n]);
    RStripJoin(blocks, "\n\n");
    assert RenderedAll(TrimmedLast(entries)) == blocks[..n] + [RStrip(blocks[n])];
  }

  lemma TrimmedLastGood(entries: seq<Entry>)
    requires entries != [] && GoodEntries(entries)
    ensures GoodEntries(TrimmedLast(entries)) && SpansOf(TrimmedLast(entries)) == SpansOf(entries)
  {
    hide GoodEntry;
    TrimmedGood(entries[|entries| - 1]);
  }

  // Writing entries to a file and reading it gives their times back, in order.
  lemma {:induction false} FileRoundTrip(entries: seq<Entry>)
    requires GoodEntries(entries)
    ensures ParseEvents(Join(RenderedAll(entries), "\n\n")) == SpansOf(entries)
  {
    hide GoodEntry, Rendered, FindPair, BlockEvent, IsBlock, Strip;
    if entries == [] {
      EmptyFile();
    } else {
      var trimmed := TrimmedLast(entries);
      FileStripped(entries);
      TrimmedLastGood(entries);
      forall k | 0 <= k < |trimmed|
        ensures IsBlock(RenderedAll(trimmed)[k])
      {
        EntryIsBlock(trimmed[k]);
      }
      SplitJoinBlocks(RenderedAll(trimmed));
      EventsRead(trimmed);
    }
  }

  lemma RenderedVisible(entry: Entry)
    requires GoodEntry(entry)
    ensures Rendered(entry) != "" && !IsSpace(Rendered(entry)[0])
  {
    assert Rendered(entry)[0] == entry.head[0];
  }

  lemma EmptyFile()
    ensures ParseEvents("") == []
  {
    hide MatchTimes;
    OneBlock("");
    NoStamp("");
    assert Strip("") == "" && Split("", '\n') == [""];
    assert FirstTimes([""]) == None;
  }

  // ---- credits ---------------------------------------------------------------------------------

  // Is this text, starting then, in a file that ends then, a credit?
  type Judge = (string, nat, nat) -> bool

  predicate IsCredit(block: string, totalEnd: nat, judge: Judge) {
    var lines := Split(Strip(block), '\n');
    |lines| >= 3 && judge(Join(lines[2..], "\n"), totalEnd, ParseStart(lines[1]))
  }

  // Splitting can be undone by joining.
  lemma {:induction false} JoinSplit(s: string, c: char)
    ensures Join(Split(s, c), [c]) == s
    decreases |s|
  {
    hide Find, Join;
    var i := Find(s, c);
    if i < |s| {
      JoinSplit(s[i + 1..], c);
      JoinFirst(s[..i], Split(s[i + 1..], c), [c]);
      AroundChar(s, i);
    } else {
      JoinOne(s, [c]);
    }
  }

  lemma AroundChar(s: string, i: nat)
    requires i < |s|
    ensures s == s[..i] + [s[i]] + s[i + 1..]
  {
  }

  // What a block of an entry is judged by: its text without white space at the end, the end of the file, and its own
  // start. An entry without any text is no credit, whatever the judge.
  lemma CreditOfEntry(entry: Entry, totalEnd: nat, judge: Judge)
    requires GoodEntry(entry)
    ensures IsCredit(Rendered(entry), totalEnd, judge) <==>
      RStrip(entry.tail) != "" && judge(RStrip(entry.tail)[1..], totalEnd, entry.span.start)
  {
    hide GoodEntry, Rendered, Strip, RStrip, ParseStart, Split;
    StripRendered(entry);
    TrimmedGood(entry);
    var trimmed := Trimmed(entry);
    EntryLines(trimmed);
    if trimmed.tail != "" {
      JoinSplit(trimmed.tail[1..], '\n');
    }
  }

  // The lines of an entry: the first one, the time line, and those of its text.
  lemma EntryLines(entry: Entry)
    requires GoodEntry(entry)
    ensures var lines := Split(Rendered(entry), '\n');
      && |lines| >= 2 && ParseStart(lines[1]) == entry.span.start
      && lines[2..] == if entry.tail == "" then [] else Split(entry.tail[1..], '\n')
  {
    hide MatchTimes, IsBlock, Strip, Split, TimeLine, ParseStart;
    TimeLineFacts(entry.span);
    var line, tail := TimeLineOf(entry), entry.tail;
    StartReadBack(entry.span.start, entry.span.end);
    assert Rendered(entry) == entry.head + ['\n'] + (line + tail);
    SplitFirst(entry.head, line + tail, '\n');
    if tail == "" {
      assert line + tail == line;
      OneLine(line);
    } else {
      assert tail == ['\n'] + tail[1..];
      assert line + tail == line + ['\n'] + tail[1..];
      SplitFirst(line, tail[1..], '\n');
    }
  }

  lemma OneLine(line: string)
    requires '\n' !in line
    ensures Split(line, '\n') == [line]
  {
    assert Find(line, '\n') == |line|;
  }

  lemma StartReadBack(start: int, end: int)
    requires InRange(start) && InRange(end)
    ensures ParseStart(TimeLine(start, end)) == start
  {
    hide TimeLine, MatchTimes;
    ParseStartRoundTrip(start, end);
  }

  function KeptBlocks(blocks: seq<string>, totalEnd: nat, judge: Judge): seq<string> {
    if blocks == [] then []
    else
      var n := |blocks| - 1;
      if IsCredit(blocks[n], totalEnd, judge) then KeptBlocks(blocks[..n], totalEnd, judge)
      else KeptBlocks(blocks[..n], totalEnd, judge) + [blocks[n]]
  }

  function Cleaned(content: string, judge: Judge): string {
    Join(KeptBlocks(SplitBlocks(Strip(content)), ScanEnds(content, 0), judge), "\n\n")
  }

  lemma {:induction false} PiecesAreBlocks(s: string)
    requires s != "" ==> s[|s| - 1] != '\n'
    ensures AllBlocks(SplitBlocks(s))
    decreases |s|
  {
    hide PairFree;
    var i := FindPair(s);
    BeforePair(s);
    if i < |s| {
      PiecesAreBlocks(s[i + 2..]);
    } else {
      assert s[..i] == s;
    }
  }

  lemma {:induction false} BeforePair(s: string)
    ensures PairFree(s[..FindPair(s)])
    ensures 0 < FindPair(s) < |s| ==> s[FindPair(s) - 1] != '\n'
    ensures FindPair(s) < |s| ==> s[FindPair(s)] == s[FindPair(s) + 1] == '\n'
  {
    if |s| >= 2 && !(s[0] == '\n' && s[1] == '\n') {
      BeforePair(s[1..]);
      var i := FindPair(s[1..]);
      assert s[..1 + i] == [s[0]] + s[1..][..i];
    }
  }

  lemma {:induction false} KeptAreBlocks(blocks: seq<string>, totalEnd: nat, judge: Judge)
    requires AllBlocks(blocks)
    ensures AllBlocks(KeptBlocks(blocks, totalEnd, judge))
  {
    hide IsCredit, IsBlock;
    if blocks == [] {
    } else {
      KeptAreBlocks(blocks[..|blocks| - 1], totalEnd, judge);
    }
  }

  lemma {:induction false} StripVisibleEnd(s: string)
    ensures Strip(s) != "" ==> !IsSpace(Strip(s)[|Strip(s)| - 1])
  {
    RStripEnds(LStrip(s));
  }

  // The blocks of the cleaned file are exactly the blocks of the file that are no credits, in order.
  lemma {:induction false} CleanedBlocks(content: string, judge: Judge)
    ensures var kept := KeptBlocks(SplitBlocks(Strip(content)), ScanEnds(content, 0), judge);
      SplitBlocks(Cleaned(content, judge)) == if kept == [] then [""] else kept
  {
    hide SplitBlocks, KeptBlocks, ScanEnds, Strip;
    StripVisibleEnd(content);
    PiecesAreBlocks(Strip(content));
    var blocks := SplitBlocks(Strip(content));
    KeptAreBlocks(blocks, ScanEnds(content, 0), judge);
    var kept := KeptBlocks(blocks, ScanEnds(content, 0), judge);
    if kept == [] {
      OneBlock("");
    } else {
      SplitJoinBlocks(kept);
    }
  }

  // Joining undoes splitting.
  lemma {:induction false} JoinSplitBlocks(s: string)
    ensures Join(SplitBlocks(s), "\n\n") == s
    decreases |s|
  {
    hide FindPair, Join;
    var i := FindPair(s);
    if i < |s| {
      JoinSplitBlocks(s[i + 2..]);
      JoinFirst(s[..i], SplitBlocks(s[i + 2..]), "\n\n");
      PairBetween(s);
    } else {
      JoinOne(s, "\n\n");
    }
  }

  lemma PairBetween(s: string)
    requires FindPair(s) < |s|
    ensures s == s[..FindPair(s)] + "\n\n" + s[FindPair(s) + 2..]
  {
    BeforePair(s);
    AroundPair(s, FindPair(s));
  }

  lemma AroundPair(s: string, i: nat)
    requires i + 2 <= |s| && s[i] == s[i + 1] == '\n'
    ensures s == s[..i] + "\n\n" + s[i + 2..]
  {
    assert s[i..i + 2] == "\n\n";
    assert s == s[..i] + s[i..i + 2] + s[i + 2..];
  }

  lemma JoinFirst(first: string, rest: seq<string>, sep: string)
    requires rest != []
    ensures Join([first] + rest, sep) == first + sep + Join(rest, sep)
  {
    assert ([first] + rest)[1..] == rest;
  }

  lemma JoinOne(part: string, sep: string)
    ensures Join([part], sep) == part
  {
  }

  // The file stays as it is, but for the white space around it, exactly when none of its blocks is a credit.
  lemma {:induction false} NothingToClean(content: string, judge: Judge)
    ensures var blocks := SplitBlocks(Strip(content));
      Cleaned(content, judge) == Strip(content) <==> NoCredits(blocks, ScanEnds(content, 0), judge)
  {
    hide IsCredit, NoCredits, SplitBlocks, KeptBlocks, ScanEnds, Strip;
    var blocks, totalEnd := SplitBlocks(Strip(content)), ScanEnds(content, 0);
    JoinSplitBlocks(Strip(content));
    CleanedBlocks(content, judge);
    KeptShrinks(blocks, totalEnd, judge);
    EmptyIsNoCredit(totalEnd, judge);
  }

  lemma EmptyIsNoCredit(totalEnd: nat, judge: Judge)
    ensures KeptBlocks([""], totalEnd, judge) == [""]
  {
    assert Strip("") == "" && Split("", '\n') == [""];
    assert !IsCredit("", totalEnd, judge);
    assert [""][..0] == [];
    assert KeptBlocks([], totalEnd, judge) == [];
  }

  predicate NoCredits(blocks: seq<string>, totalEnd: nat, judge: Judge) {
    forall k :: 0 <= k < |blocks| ==> !IsCredit(blocks[k], totalEnd, judge)
  }

  lemma {:induction false} KeptShrinks(blocks: seq<string>, totalEnd: nat, judge: Judge)
    ensures |KeptBlocks(blocks, totalEnd, judge)| <= |blocks|
    ensures KeptBlocks(blocks, totalEnd, judge) == blocks <==> NoCredits(blocks, totalEnd, judge)
  {
    hide IsCredit;
    if blocks == [] {
    } else {
      var n := |blocks| - 1;
      KeptShrinks(blocks[..n], totalEnd, judge);
      assert blocks == blocks[..n] + [blocks[n]];
    }
  }

  // ---- cleaning twice ----------------------------------------------------------------------------

  lemma {:induction false} StripDropsLast(s: string)
    requires s != "" && IsSpace(s[|s| - 1])
    ensures Strip(s) == Strip(s[..|s| - 1])
  {
    hide LStrip, RStrip;
    LStripDropsLast(s);
    var left := LStrip(s);
    if left != "" {
      assert left[|left| - 1] == s[|s| - 1];
      RStripStep(left);
    }
  }

  lemma RStripStep(s: string)
    requires s != "" && IsSpace(s[|s| - 1])
    ensures RStrip(s) == RStrip(s[..|s| - 1])
  {
  }

  lemma {:induction false} LStripDropsLast(s: string)
    requires s != "" && IsSpace(s[|s| - 1])
    ensures var left, front := LStrip(s), LStrip(s[..|s| - 1]);
      if left == "" then front == "" else front == left[..|left| - 1]
  {
    hide IsSpace, LStrip;
    var front := s[..|s| - 1];
    LStripKeeps("");
    if !IsSpace(s[0]) {
      LStripKeeps(s);
      LStripKeeps(front);
    } else {
      LStripStep(s);
      if |s| > 1 {
        LStripStep(front);
        assert front[1..] == s[1..][..|s| - 2];
        LStripDropsLast(s[1..]);
      }
    }
  }

  lemma LStripKeeps(s: string)
    requires s == "" || !IsSpace(s[0])
    ensures LStrip(s) == s
  {
  }

  predicate Creditless(s: string, totalEnd: nat, judge: Judge) {
    NoCredits(SplitBlocks(s), totalEnd, judge)
  }

  lemma SameStripSameCredit(a: string, b: string, totalEnd: nat, judge: Judge)
    requires Strip(a) == Strip(b)
    ensures IsCredit(a, totalEnd, judge) == IsCredit(b, totalEnd, judge)
  {
  }

  lemma CreditsCons(block: string, blocks: seq<string>, totalEnd: nat, judge: Judge)
    ensures NoCredits([block] + blocks, totalEnd, judge)
      <==> !IsCredit(block, totalEnd, judge) && NoCredits(blocks, totalEnd, judge)
  {
    hide IsCredit;
    var all := [block] + blocks;
    assert all[0] == block && all[1..] == blocks;
    assert forall k :: 0 <= k < |blocks| ==> blocks[k] == all[k + 1];
  }

  // The first block and the rest.
  lemma CreditlessSplits(s: string, totalEnd: nat, judge: Judge)
    ensures var i := FindPair(s);
      Creditless(s, totalEnd, judge) <==>
        !IsCredit(s[..i], totalEnd, judge) && (i < |s| ==> Creditless(s[i + 2..], totalEnd, judge))
  {
    hide IsCredit, NoCredits;
    var i := FindPair(s);
    if i < |s| {
      CreditsCons(s[..i], SplitBlocks(s[i + 2..]), totalEnd, judge);
    } else {
      CreditsCons(s, [], totalEnd, judge);
      assert [s] + [] == [s] && s[..i] == s && NoCredits([], totalEnd, judge) by { NoBlocks(totalEnd, judge); }
    }
  }

  lemma NoBlocks(totalEnd: nat, judge: Judge)
    ensures NoCredits([], totalEnd, judge)
  {
  }

  lemma EmptyBlock(totalEnd: nat, judge: Judge)
    ensures !IsCredit("", totalEnd, judge)
  {
    assert Strip("") == "" && Split("", '\n') == [""];
  }

  // White space in front of a file takes no part in what its credits are, although it can shift the blocks.
  lemma {:induction false} CreditsDropFirst(s: string, totalEnd: nat, judge: Judge)
    requires s != "" && IsSpace(s[0])
    ensures Creditless(s, totalEnd, judge) <==> Creditless(s[1..], totalEnd, judge)
    decreases |s|
  {
    hide IsCredit, Creditless, Strip, IsSpace;
    CreditlessSplits(s, totalEnd, judge);
    if |s| >= 2 && s[0] == '\n' && s[1] == '\n' {
      assert s[..0] == "" && s[1..][1..] == s[2..];
      EmptyBlock(totalEnd, judge);
      CreditsDropFirst(s[1..], totalEnd, judge);
    } else {
      var i := FindPair(s);
      assert i == 1 + FindPair(s[1..]) by { FirstAlone(s); }
      CreditlessSplits(s[1..], totalEnd, judge);
      assert s[1..][..i - 1] == s[..i][1..];
      assert i < |s| ==> s[1..][i - 1 + 2..] == s[i + 2..];
      StripDropsFirst(s[..i]);
      SameStripSameCredit(s[..i], s[1..][..i - 1], totalEnd, judge);
    }
  }

  lemma FirstAlone(s: string)
    requires s != "" && !(|s| >= 2 && s[0] == '\n' && s[1] == '\n')
    ensures FindPair(s) == 1 + FindPair(s[1..])
  {
  }

  lemma StripDropsFirst(s: string)
    requires s != "" && IsSpace(s[0])
    ensures Strip(s) == Strip(s[1..])
  {
  }

  lemma {:induction false} CreditsLStrip(s: string, totalEnd: nat, judge: Judge)
    ensures Creditless(s, totalEnd, judge) <==> Creditless(LStrip(s), totalEnd, judge)
    decreases |s|
  {
    hide Creditless, IsSpace;
    if s != "" && IsSpace(s[0]) {
      CreditsDropFirst(s, totalEnd, judge);
      CreditsLStrip(s[1..], totalEnd, judge);
    }
  }

  // A pair that is still there when the last character is taken away.
  lemma {:induction false} FindPairPrefix(s: string)
    requires s != ""
    ensures var i, front := FindPair(s), s[..|s| - 1];
      FindPair(front) == if i + 2 < |s| then i else |front|
  {
    if |s| >= 2 && !(s[0] == '\n' && s[1] == '\n') {
      FindPairPrefix(s[1..]);
      assert s[..|s| - 1][1..] == s[1..][..|s| - 2];
    }
  }

  lemma {:induction false} CreditsDropLast(s: string, totalEnd: nat, judge: Judge)
    requires s != "" && IsSpace(s[|s| - 1])
    ensures Creditless(s, totalEnd, judge) <==> Creditless(s[..|s| - 1], totalEnd, judge)
    decreases |s|
  {
    hide IsCredit, Creditless, Strip, IsSpace;
    var i, front := FindPair(s), s[..|s| - 1];
    CreditlessSplits(s, totalEnd, judge);
    CreditlessSplits(front, totalEnd, judge);
    FindPairPrefix(s);
    if i + 2 < |s| {
      assert front[..i] == s[..i] && front[i + 2..] == s[i + 2..][..|s| - i - 3];
      CreditsDropLast(s[i + 2..], totalEnd, judge);
    } else {
      assert front[..|front|] == front;
      StripDropsLast(s);
      if i < |s| {
        PairAtEnd(s, totalEnd, judge);
      } else {
        assert s[..i] == s;
      }
      SameStripSameCredit(s[..i], front, totalEnd, judge);
    }
  }

  lemma PairAtEnd(s: string, totalEnd: nat, judge: Judge)
    requires FindPair(s) + 2 == |s|
    ensures Strip(s[..|s| - 1]) == Strip(s[..FindPair(s)]) && Creditless(s[FindPair(s) + 2..], totalEnd, judge)
  {
    hide Strip, IsCredit;
    EmptyBlock(totalEnd, judge);
    CreditlessSplits("", totalEnd, judge);
    var i := FindPair(s);
    BeforePair(s);
    hide FindPair, Creditless, PairFree;
    StripDropsLast(s[..i + 1]);
    assert s[..i + 1][..i] == s[..i] && s[i + 2..] == "";
  }

  lemma {:induction false} CreditsRStrip(s: string, totalEnd: nat, judge: Judge)
    ensures Creditless(s, totalEnd, judge) <==> Creditless(RStrip(s), totalEnd, judge)
    decreases |s|
  {
    hide Creditless, IsSpace;
    if s != "" && IsSpace(s[|s| - 1]) {
      CreditsDropLast(s, totalEnd, judge);
      CreditsRStrip(s[..|s| - 1], totalEnd, judge);
    }
  }

  // Removing credits can move the end of the file forward, which the judge sees. Cleaning the cleaned file again
  // removes nothing more exactly when none of the blocks that were kept is a credit with respect to the new end;
  // in particular when the end has not moved.
  lemma {:induction false} SecondCleaning(content: string, judge: Judge)
    ensures var cleaned := Cleaned(content, judge);
      var kept := KeptBlocks(SplitBlocks(Strip(content)), ScanEnds(content, 0), judge);
      && (Cleaned(cleaned, judge) == Strip(cleaned) <==> NoCredits(kept, ScanEnds(cleaned, 0), judge))
      && (ScanEnds(cleaned, 0) == ScanEnds(content, 0) ==> Cleaned(cleaned, judge) == Strip(cleaned))
  {
    hide IsCredit, NoCredits, SplitBlocks, KeptBlocks, ScanEnds, LStrip, RStrip;
    var cleaned, before := Cleaned(content, judge), ScanEnds(content, 0);
    var blocks, after := SplitBlocks(Strip(content)), ScanEnds(cleaned, 0);
    CleanedBlocks(content, judge);
    NothingToClean(cleaned, judge);
    CreditsLStrip(cleaned, after, judge);
    CreditsRStrip(LStrip(cleaned), after, judge);
    NoBlocks(after, judge);
    EmptyBlock(after, judge);
    CreditsCons("", [], after, judge);
    assert [""] + [] == [""];
    KeptAreKept(blocks, before, judge);
  }

  lemma {:induction false} KeptAreKept(blocks: seq<string>, totalEnd: nat, judge: Judge)
    ensures NoCredits(KeptBlocks(blocks, totalEnd, judge), totalEnd, judge)
  {
    hide IsCredit;
    if blocks == [] {
    } else {
      KeptAreKept(blocks[..|blocks| - 1], totalEnd, judge);
    }
  }
}

/** The loops over the lines and blocks of an SRT file. */
module SrtFiles {
  import opened PyText
  import opened SrtSpec

  method ParseLastEnd(content: string) returns (lastMs: nat)
    ensures lastMs == ScanEnds(content, 0)
  {
    lastMs := 0;
    var rest := content;
    while rest != ""
      invariant ScanEnds(rest, lastMs) == ScanEnds(content, 0)
      decreases |rest|
    {
      match MatchTimes(rest)
      case None => rest := rest[1..];
      case Some(times) =>
        if times.end > lastMs {
          lastMs := times.end;
        }
        rest := times.rest;
    }
  }

  // The first time line of a block is its event; the rest of the block is not looked at.
  method ParseSrtEvents(content: string) returns (events: seq<O.Span>)
    ensures events == ParseEvents(content)
  {
    hide SplitBlocks, Strip, Split, MatchTimes;
    events := [];
    var blocks := SplitBlocks(Strip(content));
    for i := 0 to |blocks|
      invariant events == BlockEvents(blocks[..i])
    {
      var lines := Split(Strip(blocks[i]), '\n');
      var event := FirstEvent(lines);
      assert blocks[..i + 1][..i] == blocks[..i];
      events := events + event;
    }
    assert blocks[..|blocks|] == blocks;
  }

  method FirstEvent(lines: seq<string>) returns (event: seq<O.Span>)
    ensures event == match FirstTimes(lines)
      case None => []
      case Some(times) => [O.Span(times.start, times.end)]
  {
    hide Strip, MatchTimes;
    for j := 0 to |lines|
      invariant FirstTimes(lines) == FirstTimes(lines[j..])
    {
      var times := MatchTimes(Strip(lines[j]));
      if times.Some? {
        return [O.Span(times.value.start, times.value.end)];
      }
      assert lines[j..][1..] == lines[j + 1..];
    }
    event := [];
  }

  method RemoveCredits(content: string, judge: Judge) returns (cleaned: string, removed: nat)
    ensures cleaned == Cleaned(content, judge)
    ensures var blocks := SplitBlocks(Strip(content));
      removed == |blocks| - |KeptBlocks(blocks, ScanEnds(content, 0), judge)|
  {
    hide SplitBlocks, Strip, Split, ScanEnds, ParseStart;
    var blocks := SplitBlocks(Strip(content));
    var kept := [];
    removed := 0;
    var totalEnd := ParseLastEnd(content);
    for i := 0 to |blocks|
      invariant kept == KeptBlocks(blocks[..i], totalEnd, judge)
      invariant removed == i - |kept|
    {
      assert blocks[..i + 1][..i] == blocks[..i];
      var lines := Split(Strip(blocks[i]), '\n');
      if |lines| < 3 {
        kept := kept + [blocks[i]];
      } else if judge(Join(lines[2..], "\n"), totalEnd, ParseStart(lines[1])) {
        removed := removed + 1;
      } else {
        kept := kept + [blocks[i]];
      }
    }
    assert blocks[..|blocks|] == blocks;
    cleaned := Join(kept, "\n\n");
  }
}

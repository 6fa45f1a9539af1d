/** The prompt that numbers lines and the parser that takes a model's reply apart again. */
module ResponseSpec {
  import opened PyText

  // ---- the regular expression ^\d+[\.:]\s* -----------------------------------------------------

  function LeadingDigits(s: string): (n: nat)
    ensures n <= |s|
  {
    if s != "" && IsDigit(s[0]) then 1 + LeadingDigits(s[1..]) else 0
  }

  predicate HasNumber(s: string) {
    var n := LeadingDigits(s);
    n > 0 && n < |s| && (s[n] == '.' || s[n] == ':')
  }

  function StripNumber(s: string): string {
    if HasNumber(s) then LStrip(s[LeadingDigits(s) + 1..]) else s
  }

  // ---- parsing ---------------------------------------------------------------------------------

  // How a reply is read line by line: which lines are blank, which carry a number, and the line without it.
  datatype Reader = Reader(blank: string -> bool, numbered: string -> bool, bare: string -> string)

  function StandardReader(): Reader {
    Reader(line => IsBlank(line), line => HasNumber(line), line => StripNumber(line))
  }

  function NonBlank(reader: Reader, lines: seq<string>): seq<string> {
    if lines == [] then []
    else
      var rest, last := NonBlank(reader, lines[..|lines| - 1]), lines[|lines| - 1];
      if reader.blank(last) then rest else rest + [last]
  }

  function Bare(reader: Reader, lines: seq<string>): (r: seq<string>)
    ensures |r| == |lines|
  {
    seq(|lines|, i requires 0 <= i < |lines| => reader.bare(lines[i]))
  }

  // Unnumbered lines are appended to the line before them.
  function MergeSpill(reader: Reader, lines: seq<string>): (r: seq<string>)
    ensures |r| <= |lines|
  {
    if lines == [] then []
    else
      var merged, last := MergeSpill(reader, lines[..|lines| - 1]), lines[|lines| - 1];
      if reader.numbered(last) || merged == [] then merged + [reader.bare(last)]
      else merged[..|merged| - 1] + [merged[|merged| - 1] + " " + reader.bare(last)]
  }

  function ParseLines(reader: Reader, lines: seq<string>, expected: nat): Option<seq<string>> {
    if |lines| == expected then Some(Bare(reader, lines))
    else if |lines| > expected then
      if |MergeSpill(reader, lines)| == expected then Some(MergeSpill(reader, lines))
      else Some(Bare(reader, lines)[..expected])
    else None
  }

  function LinesOf(reader: Reader, response: string): seq<string> {
    NonBlank(reader, Split(Strip(response), '\n'))
  }

  function Parse(reader: Reader, response: string, expected: nat): Option<seq<string>> {
    ParseLines(reader, LinesOf(reader, response), expected)
  }

  // A parsed reply always has the expected number of lines; only a reply with too few lines is refused.
  lemma ParseCounts(reader: Reader, response: string, expected: nat)
    ensures Parse(reader, response, expected).Some? ==> |Parse(reader, response, expected).value| == expected
    ensures Parse(reader, response, expected).None? <==> |LinesOf(reader, response)| < expected
  {
  }

  // ---- the numbered prompt ---------------------------------------------------------------------

  function Row(i: nat, text: string): string {
    Decimal(i + 1) + ":" + text
  }

  function Rows(texts: seq<string>): (rows: seq<string>)
    ensures |rows| == |texts|
  {
    seq(|texts|, i requires 0 <= i < |texts| => Row(i, " " + texts[i]))
  }

  // "\n".join(f"{i + 1}: {line}" ...)
  function Numbered(texts: seq<string>): string {
    Join(Rows(texts), "\n")
  }

  datatype GlossaryEntry = GlossaryEntry(source: string, target: string)

  function Terms(entries: seq<GlossaryEntry>): (r: seq<string>)
    ensures |r| == |entries|
  {
    seq(|entries|, i requires 0 <= i < |entries| => entries[i].source + " \U{2192} " + entries[i].target)
  }

  function Prompt(template: string, glossary: seq<GlossaryEntry>, texts: seq<string>): string {
    if glossary == [] then template + Numbered(texts)
    else
      var used := if |glossary| > 15 then glossary[..15] else glossary;
      "Glossary: " + Join(Terms(used), ", ") + "\n\n" + template + Numbered(texts)
  }

  // A prompt ends with the template and the numbered lines. In front of it stands the glossary, if there is one, and
  // of that no more than its first fifteen entries.
  lemma PromptParts(template: string, glossary: seq<GlossaryEntry>, texts: seq<string>)
    ensures glossary == [] ==> Prompt(template, glossary, texts) == template + Numbered(texts)
    ensures 0 < |glossary| <= 15 ==>
      Prompt(template, glossary, texts)
        == "Glossary: " + Join(Terms(glossary), ", ") + ("\n\n" + (template + Numbered(texts)))
    ensures |glossary| > 15 ==> Prompt(template, glossary, texts) == Prompt(template, glossary[..15], texts)
  {
    hide Numbered, Terms, Join;
    var front := "Glossary: " + Join(Terms(glossary), ", ");
    assert front + "\n\n" + template + Numbered(texts) == front + ("\n\n" + (template + Numbered(texts)));
  }

  // Each term as it stands there.
  lemma TermReads(glossary: seq<GlossaryEntry>, i: nat)
    requires i < |glossary|
    ensures Terms(glossary)[i] == glossary[i].source + (" \U{2192} " + glossary[i].target)
  {
  }

  // ---- numbers come off again ------------------------------------------------------------------

  lemma {:induction false} DigitsThen(digits: string, rest: string)
    requires AllDigits(digits) && (rest != "" ==> !IsDigit(rest[0]))
    ensures LeadingDigits(digits + rest) == |digits|
  {
    if digits == "" {
      assert digits + rest == rest;
    } else {
      assert (digits + rest)[1..] == digits[1..] + rest;
      DigitsThen(digits[1..], rest);
    }
  }

  // The number at the start of a line: digits, then a dot or a colon; it takes the white space behind it along.
  predicate NumberEnds(s: string, k: nat) {
    1 <= k < |s| && AllDigits(s[..k]) && (s[k] == '.' || s[k] == ':')
  }

  lemma NumberStripped(s: string, k: nat)
    requires NumberEnds(s, k)
    ensures HasNumber(s) && StripNumber(s) == LStrip(s[k + 1..])
  {
    DigitsThen(s[..k], s[k..]);
    assert s == s[..k] + s[k..];
  }

  // Without such a beginning there is no number, and the line stays as it is.
  lemma NoNumberStripped(s: string)
    requires forall k: nat :: !NumberEnds(s, k)
    ensures !HasNumber(s) && StripNumber(s) == s
  {
    LeadingAreDigits(s);
    assert !NumberEnds(s, LeadingDigits(s));
  }

  lemma {:induction false} LeadingAreDigits(s: string)
    ensures AllDigits(s[..LeadingDigits(s)])
  {
    if s != "" && IsDigit(s[0]) {
      LeadingAreDigits(s[1..]);
      assert s[..LeadingDigits(s)] == [s[0]] + s[1..][..LeadingDigits(s[1..])];
    }
  }

  lemma {:induction false} RowNumbered(i: nat, text: string)
    ensures LeadingDigits(Row(i, text)) == |Decimal(i + 1)| && HasNumber(Row(i, text))
    ensures StripNumber(Row(i, text)) == LStrip(text)
  {
    var number := Decimal(i + 1);
    DecimalDigits(i + 1);
    assert Row(i, text) == number + (":" + text);
    DigitsThen(number, ":" + text);
    assert Row(i, text)[|number| + 1..] == text;
  }

  lemma {:induction false} DecimalVisible(n: nat)
    ensures !IsSpace(Decimal(n)[0]) && '\n' !in Decimal(n)
  {
    DecimalDigits(n);
    assert IsDigit(Decimal(n)[0]);
  }

  lemma {:induction false} RowVisible(i: nat, text: string)
    ensures Row(i, text) != "" && !IsSpace(Row(i, text)[0]) && !IsBlank(Row(i, text))
    ensures '\n' !in text ==> '\n' !in Row(i, text)
  {
    var number := Decimal(i + 1);
    DecimalVisible(i + 1);
    VisibleStart(number + (":" + text));
    assert Row(i, text) == number + (":" + text);
  }

  predicate PlainLine(reader: Reader, line: string) {
    !reader.blank(line) && '\n' !in line
  }

  lemma {:induction false} AllNonBlank(reader: Reader, lines: seq<string>)
    requires forall k :: 0 <= k < |lines| ==> !reader.blank(lines[k])
    ensures NonBlank(reader, lines) == lines
  {
    if lines == [] {
    } else {
      AllNonBlank(reader, lines[..|lines| - 1]);
    }
  }

  // Stripping, splitting and dropping blank lines recovers the lines of a reply.
  lemma {:induction false} LinesRecovered(reader: Reader, response: string, lines: seq<string>)
    requires lines != [] && forall k :: 0 <= k < |lines| ==> PlainLine(reader, lines[k])
    ensures Strip(response) == Join(lines, "\n") ==> LinesOf(reader, response) == lines
  {
    forall k | 0 <= k < |lines|
      ensures !reader.blank(lines[k]) && '\n' !in lines[k]
    {
      assert PlainLine(reader, lines[k]);
    }
    SplitJoin(lines, '\n');
    AllNonBlank(reader, lines);
  }

  // A numbered row as the standard reader sees it.
  lemma {:induction false} RowReads(i: nat, text: string)
    requires '\n' !in text
    ensures PlainLine(StandardReader(), Row(i, text)) && StandardReader().numbered(Row(i, text))
    ensures StandardReader().bare(Row(i, text)) == LStrip(text)
  {
    RowNumbered(i, text);
    RowVisible(i, text);
  }

  // ---- round trip of the numbering -------------------------------------------------------------

  lemma {:induction false} RowRStrip(i: nat, text: string)
    ensures RStrip(Row(i, text)) == Row(i, RStrip(text))
  {
    var number := Decimal(i + 1);
    if RStrip(text) != "" {
      RStripAppend(number + ":", text);
    } else {
      RStripOfSpace(number + ":", text);
      assert (number + ":")[|number|] == ':';
    }
  }

  lemma {:induction false} JoinVisible(parts: seq<string>)
    requires parts != [] && parts[0] != "" && !IsSpace(parts[0][0])
    ensures Join(parts, "\n") != "" && Join(parts, "\n")[0] == parts[0][0]
  {
  }

  // Stripping a joined text on the right strips its last line.
  lemma {:induction false} JoinRStrip(parts: seq<string>)
    requires parts != [] && RStrip(parts[|parts| - 1]) != ""
    ensures RStrip(Join(parts, "\n")) == Join(parts[..|parts| - 1] + [RStrip(parts[|parts| - 1])], "\n")
    ensures RStrip(Join(parts, "\n")) != ""
  {
    var n := |parts| - 1;
    var stripped := parts[..n] + [RStrip(parts[n])];
    if n == 0 {
    } else {
      JoinRStrip(parts[1..]);
      RStripAppend(parts[0] + "\n", Join(parts[1..], "\n"));
      assert stripped[1..] == parts[1..][..n - 1] + [RStrip(parts[n])];
    }
  }

  // What a text becomes on the way through the numbering: it loses the whitespace in front, and the last
  // one also the whitespace behind.
  function ThroughNumbering(texts: seq<string>): (r: seq<string>)
    ensures |r| == |texts|
  {
    seq(|texts|, i requires 0 <= i < |texts| =>
      if i == |texts| - 1 then LStrip(RStrip(texts[i])) else LStrip(texts[i]))
  }

  lemma LStripSpace(text: string)
    ensures LStrip(" " + text) == LStrip(text)
  {
    var spaced := " " + text;
    assert spaced[1..] == text;
    LStripStep(spaced);
  }

  lemma {:induction false} SpaceInFront(text: string)
    ensures LStrip(RStrip(" " + text)) == LStrip(RStrip(text))
  {
    if RStrip(text) != "" {
      RStripAppend(" ", text);
      LStripSpace(RStrip(text));
    } else {
      RStripOfSpace(" ", text);
      BlankSpace();
    }
  }

  lemma BlankSpace()
    ensures RStrip(" ") == ""
  {
    assert " "[..0] == "";
  }

  // The rows of a stripped numbered reply.
  function StrippedRows(texts: seq<string>): (r: seq<string>)
    requires texts != []
    ensures |r| == |texts|
  {
    var n := |texts| - 1;
    Rows(texts)[..n] + [Row(n, RStrip(" " + texts[n]))]
  }

  lemma {:induction false} NumberedStrips(texts: seq<string>)
    requires texts != []
    ensures Strip(Numbered(texts)) == Join(StrippedRows(texts), "\n")
  {
    var n := |texts| - 1;
    var rows := Rows(texts);
    RowVisible(0, " " + texts[0]);
    JoinVisible(rows);
    VisibleStart(Numbered(texts));
    RowRStrip(n, " " + texts[n]);
    RowVisible(n, RStrip(" " + texts[n]));
    JoinRStrip(rows);
  }

  lemma {:induction false} StrippedRowAt(texts: seq<string>, i: nat)
    requires i < |texts| && '\n' !in texts[i]
    ensures PlainLine(StandardReader(), StrippedRows(texts)[i])
    ensures StandardReader().bare(StrippedRows(texts)[i]) == ThroughNumbering(texts)[i]
  {
    hide LStrip, RStrip, IsBlank, HasNumber, StripNumber;
    if i == |texts| - 1 {
      var text := RStrip(" " + texts[i]);
      assert '\n' !in " " + texts[i];
      SpaceInFront(texts[i]);
      RowReads(i, text);
    } else {
      LStripSpace(texts[i]);
      RowReads(i, " " + texts[i]);
    }
  }

  lemma {:induction false} BareRows(reader: Reader, rows: seq<string>, texts: seq<string>)
    requires |rows| == |texts| && forall i :: 0 <= i < |rows| ==> reader.bare(rows[i]) == texts[i]
    ensures ParseLines(reader, rows, |texts|) == Some(texts)
  {
    assert Bare(reader, rows) == texts;
  }

  // The parser undoes the numbering of the prompt.
  lemma {:induction false} NumberingParses(texts: seq<string>)
    requires forall i :: 0 <= i < |texts| ==> '\n' !in texts[i]
    ensures Parse(StandardReader(), Numbered(texts), |texts|) == Some(ThroughNumbering(texts))
  {
    if texts == [] {
      NothingParses();
    } else {
      var rows := StrippedRows(texts);
      forall i | 0 <= i < |texts|
        ensures PlainLine(StandardReader(), rows[i])
        ensures StandardReader().bare(rows[i]) == ThroughNumbering(texts)[i]
      {
        StrippedRowAt(texts, i);
      }
      NumberedStrips(texts);
      LinesRecovered(StandardReader(), Numbered(texts), rows);
      BareRows(StandardReader(), rows, ThroughNumbering(texts));
    }
  }

  lemma NothingParses()
    ensures Parse(StandardReader(), "", 0) == Some([])
  {
    var reader := StandardReader();
    assert Split("", '\n') == [""];
    assert NonBlank(reader, [""][..0]) == [];
    assert reader.blank("");
    assert LinesOf(reader, "") == [];
  }

  // A text does not begin with white space, and the last one does not end with it either.
  predicate UnpaddedAt(texts: seq<string>, i: nat)
    requires i < |texts|
  {
    texts[i] != "" ==> !IsSpace(texts[i][0]) && (i == |texts| - 1 ==> !IsSpace(texts[i][|texts[i]| - 1]))
  }

  predicate Unpadded(texts: seq<string>) {
    forall i :: 0 <= i < |texts| ==> UnpaddedAt(texts, i)
  }

  lemma LStripUnchanged(s: string)
    ensures LStrip(s) == s <==> (s != "" ==> !IsSpace(s[0]))
  {
  }

  lemma StripUnchanged(s: string)
    ensures LStrip(RStrip(s)) == s <==> (s != "" ==> !IsSpace(s[0]) && !IsSpace(s[|s| - 1]))
  {
    LStripUnchanged(RStrip(s));
    if s != "" && IsSpace(s[|s| - 1]) {
      assert |LStrip(RStrip(s))| <= |RStrip(s)| < |s|;
    }
  }

  lemma ThroughIs(texts: seq<string>, i: nat)
    requires i < |texts|
    ensures ThroughNumbering(texts)[i] == if i == |texts| - 1 then LStrip(RStrip(texts[i])) else LStrip(texts[i])
  {
    hide LStrip, RStrip;
  }

  lemma ThroughAt(texts: seq<string>, i: nat)
    requires i < |texts|
    ensures ThroughNumbering(texts)[i] == texts[i] <==> UnpaddedAt(texts, i)
  {
    LStripUnchanged(texts[i]);
    StripUnchanged(texts[i]);
    ThroughIs(texts, i);
    hide LStrip, RStrip, IsSpace, ThroughNumbering;
  }

  lemma ThroughUnchanged(texts: seq<string>)
    ensures ThroughNumbering(texts) == texts <==> Unpadded(texts)
  {
    hide ThroughNumbering, UnpaddedAt;
    forall i | 0 <= i < |texts|
      ensures ThroughNumbering(texts)[i] == texts[i] <==> UnpaddedAt(texts, i)
    {
      ThroughAt(texts, i);
    }
  }

  // So the texts come back unchanged exactly when there was no such white space.
  lemma {:induction false} NumberingRoundTrip(texts: seq<string>)
    requires forall i :: 0 <= i < |texts| ==> '\n' !in texts[i]
    ensures Parse(StandardReader(), Numbered(texts), |texts|) == Some(texts) <==> Unpadded(texts)
  {
    hide Unpadded;
    NumberingParses(texts);
    ThroughUnchanged(texts);
  }

  // ---- replies that spill over several lines ---------------------------------------------------

  // A numbered row, its text, and the unnumbered lines that follow it.
  datatype Item = Item(row: string, text: string, spill: seq<string>)

  predicate GoodItem(reader: Reader, item: Item) {
    && PlainLine(reader, item.row) && reader.numbered(item.row) && reader.bare(item.row) == item.text
    && forall k :: 0 <= k < |item.spill| ==> GoodSpill(reader, item.spill[k])
  }

  predicate GoodSpill(reader: Reader, line: string) {
    PlainLine(reader, line) && !reader.numbered(line) && reader.bare(line) == line
  }

  predicate GoodItems(reader: Reader, items: seq<Item>) {
    forall k :: 0 <= k < |items| ==> GoodItem(reader, items[k])
  }

  function Flatten(items: seq<Item>): seq<string> {
    if items == [] then []
    else
      var n := |items| - 1;
      Flatten(items[..n]) + [items[n].row] + items[n].spill
  }

  function Glue(text: string, spill: seq<string>): string {
    if spill == [] then text else Glue(text, spill[..|spill| - 1]) + " " + spill[|spill| - 1]
  }

  // Each item with its spill, joined by single spaces.
  function Glued(items: seq<Item>): (r: seq<string>)
    ensures |r| == |items|
  {
    if items == [] then []
    else
      var n := |items| - 1;
      Glued(items[..n]) + [Glue(items[n].text, items[n].spill)]
  }

  lemma MergeNumbered(reader: Reader, lines: seq<string>, row: string)
    requires reader.numbered(row)
    ensures MergeSpill(reader, lines + [row]) == MergeSpill(reader, lines) + [reader.bare(row)]
  {
    assert (lines + [row])[..|lines|] == lines;
  }

  lemma MergeUnnumbered(reader: Reader, lines: seq<string>, line: string, merged: seq<string>, text: string)
    requires !reader.numbered(line) && MergeSpill(reader, lines) == merged + [text]
    ensures MergeSpill(reader, lines + [line]) == merged + [text + " " + reader.bare(line)]
  {
    assert (lines + [line])[..|lines|] == lines;
    assert (merged + [text])[..|merged|] == merged;
  }

  lemma LastSplitsOff(lines: seq<string>, spill: seq<string>)
    requires spill != []
    ensures lines + spill == lines + spill[..|spill| - 1] + [spill[|spill| - 1]]
  {
  }

  lemma {:induction false} MergeItem(reader: Reader, lines: seq<string>, row: string, spill: seq<string>)
    requires reader.numbered(row) && forall k :: 0 <= k < |spill| ==> GoodSpill(reader, spill[k])
    ensures MergeSpill(reader, lines + [row] + spill) == MergeSpill(reader, lines) + [Glue(reader.bare(row), spill)]
  {
    if spill == [] {
      MergeNumbered(reader, lines, row);
      assert lines + [row] + spill == lines + [row];
    } else {
      var front, last := spill[..|spill| - 1], spill[|spill| - 1];
      assert GoodSpill(reader, last);
      MergeItem(reader, lines, row, front);
      MergeUnnumbered(reader, lines + [row] + front, last, MergeSpill(reader, lines), Glue(reader.bare(row), front));
      LastSplitsOff(lines + [row], spill);
    }
  }

  lemma {:induction false} MergeFlat(reader: Reader, items: seq<Item>)
    requires GoodItems(reader, items)
    ensures MergeSpill(reader, Flatten(items)) == Glued(items)
  {
    if items == [] {
    } else {
      var n := |items| - 1;
      MergeFlat(reader, items[..n]);
      assert GoodItem(reader, items[n]);
      MergeItem(reader, Flatten(items[..n]), items[n].row, items[n].spill);
    }
  }

  lemma {:induction false} FlatPlain(reader: Reader, items: seq<Item>)
    requires GoodItems(reader, items)
    ensures forall k :: 0 <= k < |Flatten(items)| ==> PlainLine(reader, Flatten(items)[k])
    ensures |Flatten(items)| >= |items|
  {
    if items == [] {
    } else {
      var n := |items| - 1;
      FlatPlain(reader, items[..n]);
      assert GoodItem(reader, items[n]);
    }
  }

  // With one line per item nothing has spilled.
  lemma {:induction false} FlatTight(reader: Reader, items: seq<Item>)
    requires GoodItems(reader, items) && |Flatten(items)| == |items|
    ensures Bare(reader, Flatten(items)) == Glued(items)
  {
    if items == [] {
    } else {
      var n := |items| - 1;
      FlatPlain(reader, items[..n]);
      FlatTight(reader, items[..n]);
      assert GoodItem(reader, items[n]);
      assert Flatten(items) == Flatten(items[..n]) + [items[n].row];
    }
  }

  // Numbered items that spill onto extra lines come back as exactly the items, spill joined on.
  lemma {:induction false} SpillParses(reader: Reader, items: seq<Item>, response: string)
    requires items != [] && GoodItems(reader, items) && Strip(response) == Join(Flatten(items), "\n")
    ensures Parse(reader, response, |items|) == Some(Glued(items))
  {
    FlatPlain(reader, items);
    LinesRecovered(reader, response, Flatten(items));
    if |Flatten(items)| == |items| {
      FlatTight(reader, items);
    } else {
      MergeFlat(reader, items);
    }
  }

  // The rows of the numbering and visible lines without a number are such items for the standard reader.
  lemma {:induction false} StandardItems(i: nat, text: string, line: string)
    requires '\n' !in text
    ensures GoodItem(StandardReader(), Item(Row(i, text), LStrip(text), []))
    ensures !IsBlank(line) && !HasNumber(line) && '\n' !in line ==> GoodSpill(StandardReader(), line)
  {
    RowReads(i, text);
  }
}

/** The parser as a sequence of loops. */
module ResponseParser {
  import opened PyText
  import opened ResponseSpec

  method KeepNonBlank(lines: seq<string>, reader: Reader) returns (kept: seq<string>)
    ensures kept == NonBlank(reader, lines)
  {
    kept := [];
    for i := 0 to |lines|
      invariant kept == NonBlank(reader, lines[..i])
    {
      assert lines[..i + 1][..i] == lines[..i];
      if !reader.blank(lines[i]) {
        kept := kept + [lines[i]];
      }
    }
    assert lines[..|lines|] == lines;
  }

  method CleanLines(lines: seq<string>, reader: Reader) returns (cleaned: seq<string>)
    ensures cleaned == Bare(reader, lines)
  {
    cleaned := [];
    for i := 0 to |lines|
      invariant |cleaned| == i && forall j :: 0 <= j < i ==> cleaned[j] == reader.bare(lines[j])
    {
      cleaned := cleaned + [reader.bare(lines[i])];
    }
  }

  method MergeLines(lines: seq<string>, cleaned: seq<string>, reader: Reader) returns (merged: seq<string>)
    requires cleaned == Bare(reader, lines)
    ensures merged == MergeSpill(reader, lines)
  {
    merged := [];
    for i := 0 to |lines|
      invariant merged == MergeSpill(reader, lines[..i])
    {
      assert lines[..i + 1][..i] == lines[..i];
      if reader.numbered(lines[i]) {
        merged := merged + [cleaned[i]];
      } else if merged != [] {
        merged := merged[|merged| - 1 := merged[|merged| - 1] + " " + cleaned[i]];
      } else {
        merged := merged + [cleaned[i]];
      }
    }
    assert lines[..|lines|] == lines;
  }

  method ParseResponse(response: string, expectedCount: nat) returns (parsed: Option<seq<string>>)
    ensures parsed == Parse(StandardReader(), response, expectedCount)
  {
    var reader := StandardReader();
    parsed := ParseWith(Split(Strip(response), '\n'), expectedCount, reader);
  }

  method ParseWith(rawLines: seq<string>, expectedCount: nat, reader: Reader) returns (parsed: Option<seq<string>>)
    ensures parsed == ParseLines(reader, NonBlank(reader, rawLines), expectedCount)
  {
    var lines := KeepNonBlank(rawLines, reader);
    var cleaned := CleanLines(lines, reader);
    if |cleaned| == expectedCount {
      return Some(cleaned);
    }
    if |cleaned| > expectedCount {
      var merged := MergeLines(lines, cleaned, reader);
      if |merged| == expectedCount {
        return Some(merged);
      }
      return Some(cleaned[..expectedCount]);
    }
    return None;
  }
}

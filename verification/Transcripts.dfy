/** What a translation yields, told from the answers of the model call by call: first accepted attempts, and the
    fallback to single lines. */
module Transcripts {
  import opened Arithmetic
  import opened PyText
  import opened ResponseSpec
  import opened TranslationSpec

  // How many attempts a batch took, and, when all of them were refused, how many each of its lines took.
  datatype Log = Log(tries: nat, singles: seq<nat>)

  function Total(tries: seq<nat>): nat {
    if tries == [] then 0 else Total(tries[..|tries| - 1]) + tries[|tries| - 1]
  }

  function Calls(log: Log): nat {
    log.tries + Total(log.singles)
  }

  // What the call with that number answers to one line, if it is acceptable.
  function LineAnswer(service: Service, line: string, call: nat): Option<string> {
    match service.model(call, service.prompt([line]))
    case None => None
    case Some(reply) => if service.hasCjk(service.readSingle(reply)) then None else Some(service.readSingle(reply))
  }

  // And to a batch.
  function BatchAnswer(service: Service, lines: seq<string>, call: nat): Option<seq<string>> {
    match service.model(call, service.prompt(lines))
    case None => None
    case Some(reply) =>
      var texts := service.readBatch(reply, |lines|);
      if texts.None? || exists i :: 0 <= i < |texts.value| && service.hasCjk(texts.value[i]) then None else texts
  }

  // From that call on a line takes so many attempts, the last of which is the first accepted one; or all attempts
  // are refused, and the line is kept.
  predicate LineSettles(service: Service, line: string, call: nat, tries: nat, text: string) {
    && 1 <= tries <= service.maxRetries
    && (forall c :: call <= c < call + tries - 1 ==> LineAnswer(service, line, c).None?)
    && match LineAnswer(service, line, call + tries - 1)
       case Some(answer) => text == answer
       case None => tries == service.maxRetries && text == line
  }

  // One line after the other.
  predicate LinesSettle(service: Service, lines: seq<string>, call: nat, tries: seq<nat>, texts: seq<string>) {
    && |tries| == |texts| == |lines|
    && forall i: nat :: i < |lines| ==> LineSettlesAt(service, lines, call, tries, texts, i)
  }

  // Line i begins where the lines before it end.
  predicate LineSettlesAt(service: Service, lines: seq<string>, call: nat, tries: seq<nat>, texts: seq<string>, i: nat)
    requires |tries| == |texts| == |lines| && i < |lines|
  {
    LineSettles(service, lines[i], call + Total(tries[..i]), tries[i], texts[i])
  }

  predicate BatchSettles(service: Service, lines: seq<string>, call: nat, log: Log, texts: seq<string>) {
    && 1 <= log.tries <= service.maxRetries
    && (forall c :: call <= c < call + log.tries - 1 ==> BatchAnswer(service, lines, c).None?)
    && match BatchAnswer(service, lines, call + log.tries - 1)
       case Some(answer) => log.singles == [] && texts == answer
       case None =>
         log.tries == service.maxRetries && LinesSettle(service, lines, call + log.tries, log.singles, texts)
  }

  // Batch after batch from line `start` on.
  predicate Settles(service: Service, lines: seq<string>, size: nat, start: nat, call: nat, logs: seq<Log>,
      texts: seq<string>)
    requires size >= 1
    decreases |lines| - start
  {
    if start >= |lines| then logs == [] && texts == []
    else
      var n := End(lines, size, start) - start;
      && logs != [] && n <= |texts|
      && BatchSettles(service, lines[start..start + n], call, logs[0], texts[..n])
      && Settles(service, lines, size, start + size, call + Calls(logs[0]), logs[1..], texts[n..])
  }

  function AllCalls(logs: seq<Log>): nat {
    if logs == [] then 0 else Calls(logs[0]) + AllCalls(logs[1..])
  }

  // ---- the transcript decides ------------------------------------------------------------------------

  lemma AsksLine(service: Service, line: string, call: nat)
    ensures Ask(service, AcceptSingle(service), service.prompt([line]), call) == LineAnswer(service, line, call)
  {
  }

  lemma AsksBatch(service: Service, lines: seq<string>, call: nat)
    ensures Ask(service, AcceptBatch(service, |lines|), service.prompt(lines), call)
      == BatchAnswer(service, lines, call)
  {
  }

  lemma RetrySettles<T>(service: Service, accept: string -> Option<T>, prompt: string, meter: Meter, tries: nat)
    requires 1 <= tries <= service.maxRetries
    requires forall c :: meter.calls <= c < meter.calls + tries - 1 ==> Ask(service, accept, prompt, c).None?
    requires Ask(service, accept, prompt, meter.calls + tries - 1).Some? || tries == service.maxRetries
    ensures var tried := Retry(service, accept, prompt, 1, meter);
      && tried.value == Ask(service, accept, prompt, meter.calls + tries - 1)
      && tried.meter.calls == meter.calls + tries
  {
    hide Ask, Retry, Slept;
    var last := RetryExact(service, accept, prompt, 1, meter);
  }

  lemma LineDecided(service: Service, line: string, meter: Meter, tries: nat, text: string)
    requires LineSettles(service, line, meter.calls, tries, text)
    ensures var single := Single(service, line, meter);
      single.lines == [text] && single.meter.calls == meter.calls + tries
  {
    hide Ask, AcceptSingle, LineAnswer, Retry;
    forall c: nat
      ensures Ask(service, AcceptSingle(service), service.prompt([line]), c) == LineAnswer(service, line, c)
    {
      AsksLine(service, line, c);
    }
    RetrySettles(service, AcceptSingle(service), service.prompt([line]), meter, tries);
  }

  lemma LinesSettleFront(service: Service, lines: seq<string>, call: nat, tries: seq<nat>, texts: seq<string>)
    requires LinesSettle(service, lines, call, tries, texts) && lines != []
    ensures var n := |lines| - 1;
      && LinesSettle(service, lines[..n], call, tries[..n], texts[..n])
      && LineSettles(service, lines[n], call + Total(tries[..n]), tries[n], texts[n])
  {
    hide LineSettles, Total;
    var n := |lines| - 1;
    assert LineSettlesAt(service, lines, call, tries, texts, n);
    forall i: nat | i < n
      ensures LineSettlesAt(service, lines[..n], call, tries[..n], texts[..n], i)
    {
      assert LineSettlesAt(service, lines, call, tries, texts, i);
      assert tries[..n][..i] == tries[..i];
    }
  }

  lemma {:induction false} LinesDecided(service: Service, lines: seq<string>, meter: Meter, tries: seq<nat>,
      texts: seq<string>)
    requires LinesSettle(service, lines, meter.calls, tries, texts)
    ensures var singles := Singles(service, lines, meter);
      singles.lines == texts && singles.meter.calls == meter.calls + Total(tries)
  {
    hide LineSettles, Single;
    if lines == [] {
    } else {
      var n := |lines| - 1;
      LinesSettleFront(service, lines, meter.calls, tries, texts);
      hide LinesSettle;
      LinesDecided(service, lines[..n], meter, tries[..n], texts[..n]);
      LineDecided(service, lines[n], Singles(service, lines[..n], meter).meter, tries[n], texts[n]);
      assert texts == texts[..n] + [texts[n]];
    }
  }

  lemma BatchDecided(service: Service, lines: seq<string>, meter: Meter, log: Log, texts: seq<string>)
    requires lines != [] && BatchSettles(service, lines, meter.calls, log, texts)
    ensures var batch := Batch(service, lines, meter);
      batch.lines == texts && batch.meter.calls == meter.calls + Calls(log)
  {
    hide Ask, AcceptBatch, BatchAnswer, Retry, Singles, LinesSettle;
    forall c: nat
      ensures Ask(service, AcceptBatch(service, |lines|), service.prompt(lines), c) == BatchAnswer(service, lines, c)
    {
      AsksBatch(service, lines, c);
    }
    RetrySettles(service, AcceptBatch(service, |lines|), service.prompt(lines), meter, log.tries);
    var tried := Retry(service, AcceptBatch(service, |lines|), service.prompt(lines), 1, meter);
    if tried.value.None? {
      LinesDecided(service, lines, tried.meter, log.singles, texts);
    }
  }

  // Whatever the model answers: the output is that of the transcript, with as many calls.
  lemma {:induction false} TranscriptDecides(service: Service, lines: seq<string>, size: nat, start: nat, meter: Meter,
      logs: seq<Log>, texts: seq<string>)
    requires size >= 1 && Settles(service, lines, size, start, meter.calls, logs, texts)
    ensures var result := Batches(service, lines, size, start, meter);
      result.lines == texts && result.meter.calls == meter.calls + AllCalls(logs)
    decreases |lines| - start
  {
    hide Batch, BatchSettles, Calls;
    if start < |lines| {
      var n := End(lines, size, start) - start;
      BatchDecided(service, lines[start..start + n], meter, logs[0], texts[..n]);
      var first := Batch(service, lines[start..start + n], meter);
      TranscriptDecides(service, lines, size, start + size, first.meter, logs[1..], texts[n..]);
      assert texts == texts[..n] + texts[n..];
    }
  }

  // ---- and there always is one -------------------------------------------------------------------------

  lemma LineHasTries(service: Service, line: string, meter: Meter) returns (tries: nat, text: string)
    requires service.maxRetries >= 1
    ensures LineSettles(service, line, meter.calls, tries, text)
  {
    hide Ask, AcceptSingle, LineAnswer, Retry, Slept;
    forall c: nat
      ensures Ask(service, AcceptSingle(service), service.prompt([line]), c) == LineAnswer(service, line, c)
    {
      AsksLine(service, line, c);
    }
    tries := RetryExact(service, AcceptSingle(service), service.prompt([line]), 1, meter);
    var answer := LineAnswer(service, line, meter.calls + tries - 1);
    text := if answer.Some? then answer.value else line;
  }

  lemma {:induction false} LinesHaveTries(service: Service, lines: seq<string>, meter: Meter)
    returns (tries: seq<nat>, texts: seq<string>)
    requires service.maxRetries >= 1
    ensures LinesSettle(service, lines, meter.calls, tries, texts)
  {
    hide LineSettles, LinesSettle, Single, Singles, Total;
    if lines == [] {
      tries, texts := [], [];
      NoLinesSettle(service, meter.calls);
    } else {
      var n := |lines| - 1;
      var earlier, front := LinesHaveTries(service, lines[..n], meter);
      LinesDecided(service, lines[..n], meter, earlier, front);
      var last, text := LineHasTries(service, lines[n], Singles(service, lines[..n], meter).meter);
      tries, texts := earlier + [last], front + [text];
      LinesSettleNext(service, lines, meter.calls, earlier, front, last, text);
    }
  }

  lemma NoLinesSettle(service: Service, call: nat)
    ensures LinesSettle(service, [], call, [], [])
  {
  }

  lemma SettlesAtNext(service: Service, lines: seq<string>, call: nat, tries: seq<nat>, texts: seq<string>,
      last: nat, text: string, i: nat)
    requires |lines| - 1 == |tries| == |texts| && i < |tries|
    requires LineSettlesAt(service, lines[..|lines| - 1], call, tries, texts, i)
    ensures LineSettlesAt(service, lines, call, tries + [last], texts + [text], i)
  {
    hide LineSettles, Total;
    assert (tries + [last])[..i] == tries[..i];
  }

  lemma LinesSettleNext(service: Service, lines: seq<string>, call: nat, tries: seq<nat>, texts: seq<string>,
      last: nat, text: string)
    requires lines != [] && LinesSettle(service, lines[..|lines| - 1], call, tries, texts)
    requires LineSettles(service, lines[|lines| - 1], call + Total(tries), last, text)
    ensures LinesSettle(service, lines, call, tries + [last], texts + [text])
  {
    var n := |lines| - 1;
    LastSettlesAt(service, lines, call, tries, texts, last, text);
    hide LineSettlesAt, LineSettles, Total;
    forall i: nat | i < n
      ensures LineSettlesAt(service, lines, call, tries + [last], texts + [text], i)
    {
      SettlesAtNext(service, lines, call, tries, texts, last, text, i);
    }
  }

  lemma LastSettlesAt(service: Service, lines: seq<string>, call: nat, tries: seq<nat>, texts: seq<string>,
      last: nat, text: string)
    requires |lines| - 1 == |tries| == |texts|
    requires LineSettles(service, lines[|lines| - 1], call + Total(tries), last, text)
    ensures LineSettlesAt(service, lines, call, tries + [last], texts + [text], |lines| - 1)
  {
    hide LineSettles, Total;
    assert (tries + [last])[..|tries|] == tries;
  }

  lemma BatchHasLog(service: Service, lines: seq<string>, meter: Meter) returns (log: Log, texts: seq<string>)
    requires service.maxRetries >= 1 && CountsLines(service)
    ensures BatchSettles(service, lines, meter.calls, log, texts) && |texts| == |lines|
  {
    hide Ask, AcceptBatch, Retry, Slept, LinesSettle;
    forall c: nat
      ensures Ask(service, AcceptBatch(service, |lines|), service.prompt(lines), c) == BatchAnswer(service, lines, c)
    {
      AsksBatch(service, lines, c);
    }
    var tries := RetryExact(service, AcceptBatch(service, |lines|), service.prompt(lines), 1, meter);
    var answer := BatchAnswer(service, lines, meter.calls + tries - 1);
    if answer.Some? {
      log, texts := Log(tries, []), answer.value;
    } else {
      var singles;
      singles, texts := LinesHaveTries(service, lines, Meter(meter.calls + tries, 0));
      log := Log(tries, singles);
      SettledLengths(service, lines, meter.calls + tries, singles, texts);
    }
  }

  lemma SettledLengths(service: Service, lines: seq<string>, call: nat, tries: seq<nat>, texts: seq<string>)
    requires LinesSettle(service, lines, call, tries, texts)
    ensures |texts| == |lines|
  {
  }

  // Every run has a transcript, and only one: that of its output.
  lemma {:induction false} TranscriptExists(service: Service, lines: seq<string>, size: nat, start: nat, meter: Meter)
    returns (logs: seq<Log>, texts: seq<string>)
    requires service.maxRetries >= 1 && CountsLines(service) && size >= 1
    ensures Settles(service, lines, size, start, meter.calls, logs, texts)
    ensures Batches(service, lines, size, start, meter).lines == texts
    decreases |lines| - start
  {
    hide CountsLines, Batch, BatchSettles;
    logs, texts := [], [];
    if start < |lines| {
      var n := End(lines, size, start) - start;
      var log, first := BatchHasLog(service, lines[start..start + n], meter);
      var rest, others :=
        TranscriptExists(service, lines, size, start + size, Meter(meter.calls + Calls(log), 0));
      logs, texts := [log] + rest, first + others;
      assert texts[..n] == first && texts[n..] == others && logs[1..] == rest;
    }
    TranscriptDecides(service, lines, size, start, meter, logs, texts);
  }

  // ---- the client's own fallback -----------------------------------------------------------------------

  // The first line of a reply to a single line: a number, the text, and whatever follows on further lines.
  lemma NumberedLineRead(i: nat, text: string, rest: string)
    requires IsPlain(text) && text != "" && (rest != "" ==> rest[0] == '\n')
    ensures ReadFirstLine(Row(i, " " + text) + rest) == text
  {
    hide IsCjk;
    var row := Row(i, " " + text);
    hide Strip, StripNumber, ReadFirstLine, Row;
    FirstRowKept(i, text, rest);
    StripTwice(row + rest);
    RowReads(i, " " + text);
    LStripSpace(text);
    VisibleStart(text);
    ReadFirstLineIs(row + rest, row);
    assert StandardReader().bare(row) == StripNumber(row);
  }

  lemma ReadFirstLineIs(response: string, row: string)
    requires Split(Strip(Strip(response)), '\n')[0] == row
    ensures ReadFirstLine(response) == StripNumber(row)
  {
  }

  lemma FirstRowKept(i: nat, text: string, rest: string)
    requires IsPlain(text) && text != "" && (rest != "" ==> rest[0] == '\n')
    ensures Split(Strip(Row(i, " " + text) + rest), '\n')[0] == Row(i, " " + text)
  {
    var row := Row(i, " " + text);
    assert '\n' !in " " + text;
    RowVisible(i, " " + text);
    RowEndsVisible(i, text);
    hide IsCjk, IsPlain, Row, RStrip, LStrip, Split, IsSpace;
    VisibleStart(row + rest);
    if RStrip(rest) != "" {
      RStripAppend(row, rest);
      FirstOfMore(row, RStrip(rest));
    } else {
      RStripOfSpace(row, rest);
      FirstOfOne(row);
    }
  }

  lemma FirstOfMore(row: string, tail: string)
    requires '\n' !in row && tail != "" && tail[0] == '\n'
    ensures Split(row + tail, '\n')[0] == row
  {
    assert tail == ['\n'] + tail[1..];
    assert row + tail == row + ['\n'] + tail[1..];
    SplitFirst(row, tail[1..], '\n');
  }

  lemma FirstOfOne(row: string)
    requires '\n' !in row
    ensures Split(row, '\n')[0] == row
  {
    assert Find(row, '\n') == |row|;
  }

  lemma RowEndsVisible(i: nat, text: string)
    requires IsPlain(text) && text != ""
    ensures RStrip(Row(i, " " + text)) == Row(i, " " + text)
  {
    hide IsCjk, IsSpace;
    assert Row(i, " " + text)[|Row(i, " " + text)| - 1] == text[|text| - 1];
  }

  lemma StandardLineAnswer(model: Model, settings: Settings, line: string, text: string, rest: string, call: nat)
    requires IsPlain(text) && text != "" && (rest != "" ==> rest[0] == '\n')
    requires model(call, Prompt(settings.template, settings.glossary, [line])) == Some(Row(0, " " + text) + rest)
    ensures LineAnswer(StandardService(model, settings), line, call) == Some(text)
  {
    hide Prompt, Row, IsPlain, ReadFirstLine;
    NumberedLineRead(0, text, rest);
    PlainHasNoCjk(model, settings, text);
    hide StandardService;
    LineAnswerIs(model, settings, line, call);
  }

  lemma LineAnswerIs(model: Model, settings: Settings, line: string, call: nat)
    ensures var service := StandardService(model, settings);
      match model(call, Prompt(settings.template, settings.glossary, [line]))
      case None => LineAnswer(service, line, call).None?
      case Some(reply) =>
        var text := ReadFirstLine(reply);
        LineAnswer(service, line, call) == if service.hasCjk(text) then None else Some(text)
  {
    hide Prompt, ReadFirstLine, IsCjk;
  }

  // That call does not answer the batch: it fails, or its reply has too few lines.
  predicate IsRefused(model: Model, settings: Settings, batch: seq<string>, call: nat) {
    match model(call, Prompt(settings.template, settings.glossary, batch))
    case None => true
    case Some(reply) => ReadReply(reply, |batch|).None?
  }

  // From line `start` on, no batch is ever answered, but each of its lines is at the first attempt: by its numbered
  // translation, behind which there may be further lines.
  ghost predicate AnswersLinesOnly(model: Model, settings: Settings, translate: string -> string,
      behind: nat -> string, lines: seq<string>, size: nat, start: nat, call: nat)
    requires size >= 1 && settings.maxRetries >= 1
    decreases |lines| - start
  {
    start >= |lines| ||
      (var batch := lines[start..End(lines, size, start)];
       var next := call + settings.maxRetries;
       && (forall c: nat :: call <= c < next ==> IsRefused(model, settings, batch, c))
       && (forall i: nat :: i < |batch| ==> RepliesTo(model, settings, translate, behind, batch[i], next + i))
       && AnswersLinesOnly(model, settings, translate, behind, lines, size, start + size, next + |batch|))
  }

  predicate RepliesTo(model: Model, settings: Settings, translate: string -> string, behind: nat -> string,
      line: string, call: nat)
  {
    model(call, Prompt(settings.template, settings.glossary, [line]))
      == Some(Row(0, " " + translate(line)) + behind(call))
  }

  predicate IsWord(text: string) {
    IsPlain(text) && text != ""
  }

  predicate StartsNewLine(rest: string) {
    rest != "" ==> rest[0] == '\n'
  }

  lemma RefusedIsNoAnswer(model: Model, settings: Settings, batch: seq<string>, call: nat)
    requires IsRefused(model, settings, batch, call)
    ensures BatchAnswer(StandardService(model, settings), batch, call).None?
  {
    hide Prompt, ReadReply, IsCjk;
  }

  lemma LineFallsBack(model: Model, settings: Settings, translate: string -> string, behind: nat -> string,
      line: string, call: nat)
    requires settings.maxRetries >= 1 && IsWord(translate(line)) && StartsNewLine(behind(call))
    requires RepliesTo(model, settings, translate, behind, line, call)
    ensures LineSettles(StandardService(model, settings), line, call, 1, translate(line))
  {
    hide Prompt, Row, IsPlain, LineAnswer;
    StandardLineAnswer(model, settings, line, translate(line), behind(call), call);
  }

  function Ones(n: nat): (r: seq<nat>)
    ensures |r| == n
  {
    seq(n, i => 1)
  }

  lemma {:induction false} TotalOnes(n: nat)
    ensures Total(Ones(n)) == n
  {
    if n > 0 {
      TotalOnes(n - 1);
      assert Ones(n)[..n - 1] == Ones(n - 1);
    }
  }

  lemma BatchFallsBack(model: Model, settings: Settings, translate: string -> string, behind: nat -> string,
      batch: seq<string>, call: nat)
    requires settings.maxRetries >= 1
    requires forall i :: 0 <= i < |batch| ==> IsWord(translate(batch[i]))
    requires forall c: nat :: StartsNewLine(behind(c))
    requires forall c: nat :: call <= c < call + settings.maxRetries ==> IsRefused(model, settings, batch, c)
    requires forall i: nat :: i < |batch| ==>
      RepliesTo(model, settings, translate, behind, batch[i], call + settings.maxRetries + i)
    ensures BatchSettles(StandardService(model, settings), batch, call, Log(settings.maxRetries, Ones(|batch|)),
      Mapped(translate, batch))
  {
    hide IsRefused, RepliesTo, LineSettles, Total, IsWord, StartsNewLine;
    var service, next := StandardService(model, settings), call + settings.maxRetries;
    forall c: nat | call <= c < next
      ensures BatchAnswer(service, batch, c).None?
    {
      RefusedIsNoAnswer(model, settings, batch, c);
    }
    var tries, texts := Ones(|batch|), Mapped(translate, batch);
    forall i: nat | i < |batch|
      ensures LineSettlesAt(service, batch, next, tries, texts, i)
    {
      TotalOnes(i);
      assert tries[..i] == Ones(i);
      LineFallsBack(model, settings, translate, behind, batch[i], next + i);
    }
    hide BatchAnswer;
    assert service.maxRetries == settings.maxRetries;
  }

  // The transcript: all attempts for each batch, one for each line.
  function LinesOnly(n: nat, size: nat, maxRetries: nat): seq<Log>
    requires size >= 1
  {
    if n == 0 then []
    else
      var k := if size < n then size else n;
      [Log(maxRetries, Ones(k))] + LinesOnly(n - k, size, maxRetries)
  }

  // What the first batch adds.
  lemma FirstBatchCalls(n: nat, size: nat, maxRetries: nat)
    requires 0 < n && 0 < size
    ensures var rest: nat := if size < n then n - size else 0;
      && AllCalls(LinesOnly(n, size, maxRetries))
        == maxRetries + (n - rest) + AllCalls(LinesOnly(rest, size, maxRetries))
      && BatchCount(n, size) == 1 + BatchCount(rest, size)
  {
    var k := if size < n then size else n;
    TotalOnes(k);
    hide Ones, Total;
  }

  lemma {:induction false} LinesOnlyCalls(n: nat, size: nat, maxRetries: nat)
    requires size >= 1
    ensures AllCalls(LinesOnly(n, size, maxRetries)) == BatchCount(n, size) * maxRetries + n
  {
    if n > 0 {
      hide LinesOnly, AllCalls, BatchCount;
      var rest: nat := if size < n then n - size else 0;
      FirstBatchCalls(n, size, maxRetries);
      LinesOnlyCalls(rest, size, maxRetries);
      Distribute(maxRetries, 1, BatchCount(rest, size));
    }
  }

  lemma {:induction false} LinesOnlySettle(model: Model, settings: Settings, translate: string -> string,
      behind: nat -> string, lines: seq<string>, size: nat, start: nat, call: nat)
    requires size >= 1 && settings.maxRetries >= 1 && start <= |lines|
    requires forall i :: 0 <= i < |lines| ==> IsWord(translate(lines[i]))
    requires forall c: nat :: StartsNewLine(behind(c))
    requires AnswersLinesOnly(model, settings, translate, behind, lines, size, start, call)
    ensures Settles(StandardService(model, settings), lines, size, start, call,
      LinesOnly(|lines| - start, size, settings.maxRetries), Mapped(translate, lines[start..]))
    decreases |lines| - start
  {
    hide IsRefused, RepliesTo, BatchSettles, IsWord, StartsNewLine, StandardService, Settles, LinesOnly, Mapped;
    var service, texts := StandardService(model, settings), Mapped(translate, lines[start..]);
    if start >= |lines| {
      NothingSettles(model, settings, translate, lines, size, start, call);
    } else {
      var n := End(lines, size, start) - start;
      var next := start + n;
      BatchFallsBack(model, settings, translate, behind, lines[start..next], call);
      if start + size <= |lines| {
        LinesOnlySettle(model, settings, translate, behind, lines, size, next, call + settings.maxRetries + n);
      } else {
        NothingSettles(model, settings, translate, lines, size, start + size, call + settings.maxRetries + n);
      }
      FirstSettles(service, settings.maxRetries, translate, lines, size, start, call);
    }
  }

  lemma NothingSettles(model: Model, settings: Settings, translate: string -> string, lines: seq<string>, size: nat,
      start: nat, call: nat)
    requires size >= 1 && settings.maxRetries >= 0 && start >= |lines|
    ensures Settles(StandardService(model, settings), lines, size, start, call, [], [])
    ensures LinesOnly(0, size, settings.maxRetries) == [] && Mapped(translate, []) == []
    ensures start == |lines| ==> lines[start..] == []
  {
  }

  lemma FirstSettles(service: Service, maxRetries: nat, translate: string -> string, lines: seq<string>, size: nat,
      start: nat, call: nat)
    requires size >= 1 && start < |lines|
    requires var n := End(lines, size, start) - start;
      && BatchSettles(service, lines[start..start + n], call, Log(maxRetries, Ones(n)),
           Mapped(translate, lines[start..start + n]))
      && Settles(service, lines, size, start + size, call + maxRetries + n,
           LinesOnly(|lines| - start - n, size, maxRetries), Mapped(translate, lines[start + n..]))
    ensures Settles(service, lines, size, start, call, LinesOnly(|lines| - start, size, maxRetries),
      Mapped(translate, lines[start..]))
  {
    hide BatchSettles;
    var n := End(lines, size, start) - start;
    var texts := Mapped(translate, lines[start..]);
    TotalOnes(n);
    assert texts[..n] == Mapped(translate, lines[start..start + n]);
    assert texts[n..] == Mapped(translate, lines[start + n..]);
    LogsSplit(|lines| - start, size, maxRetries);
  }

  lemma LogsSplit(n: nat, size: nat, maxRetries: nat)
    requires size >= 1 && n >= 1
    ensures var k, logs := if size < n then size else n, LinesOnly(n, size, maxRetries);
      logs != [] && logs[0] == Log(maxRetries, Ones(k)) && logs[1..] == LinesOnly(n - k, size, maxRetries)
  {
  }

  // When no batch is ever answered but every line on its own is, those answers come out, one for each line and in
  // order, after all the attempts at the batches and one call for every line.
  lemma FallbackRepliesComeOut(model: Model, settings: Settings, translate: string -> string,
      behind: nat -> string, lines: seq<string>, size: nat, meter: Meter)
    requires size >= 1 && settings.maxRetries >= 1
    requires forall i :: 0 <= i < |lines| ==> IsWord(translate(lines[i]))
    requires forall c: nat :: StartsNewLine(behind(c))
    requires AnswersLinesOnly(model, settings, translate, behind, lines, size, 0, meter.calls)
    ensures var result := All(StandardService(model, settings), lines, size, meter);
      && result.Some? && result.value.lines == Mapped(translate, lines)
      && result.value.meter.calls == meter.calls + Ceiling(|lines|, size) * settings.maxRetries + |lines|
  {
    hide IsWord, AnswersLinesOnly, StartsNewLine, Settles, StandardService, Batches;
    var logs := LinesOnly(|lines|, size, settings.maxRetries);
    LinesOnlySettle(model, settings, translate, behind, lines, size, 0, meter.calls);
    LinesOnlyCalls(|lines|, size, settings.maxRetries);
    assert lines[0..] == lines;
    BatchCountIsCeiling(|lines|, size);
    TranscriptDecides(StandardService(model, settings), lines, size, 0, meter, logs, Mapped(translate, lines));
    if lines == [] {
      assert Mapped(translate, lines) == [];
    }
  }
}

/** Batch translation with retries and a line-by-line fallback, against a model that may answer anything. */
module TranslationSpec {
  import opened Arithmetic
  import opened PyText
  import opened ResponseSpec

  // max_retries, backoff_base and the prompt ingredients
  datatype Settings = Settings(maxRetries: int, backoffBase: nat, template: string, glossary: seq<GlossaryEntry>)

  // The model: what the k-th call answers to a prompt. None is a failed request.
  type Model = (nat, string) -> Option<string>

  // How many calls have been made, and how long the client has slept.
  datatype Meter = Meter(calls: nat, slept: nat)

  datatype Attempted<T> = Attempted(value: Option<T>, meter: Meter)

  // Everything the client goes through to get a translation.
  datatype Service = Service(
    model: Model,
    maxRetries: int,
    backoffBase: nat,
    prompt: seq<string> -> string,
    readBatch: (string, nat) -> Option<seq<string>>,
    readSingle: string -> string,
    hasCjk: string -> bool)

  predicate IsCjk(c: char) {
    || '\U{4e00}' <= c <= '\U{9fff}'
    || '\U{3400}' <= c <= '\U{4dbf}'
    || '\U{2e80}' <= c <= '\U{2eff}'
    || '\U{f900}' <= c <= '\U{faff}'
  }

  // The blocks of Unicode that count: the unified ideographs, their first extension, the radicals and the
  // compatibility ideographs.
  lemma CjkBlocks(c: char)
    ensures IsCjk(c) <==>
      var code := c as int;
      0x4E00 <= code <= 0x9FFF || 0x3400 <= code <= 0x4DBF || 0x2E80 <= code <= 0x2EFF || 0xF900 <= code <= 0xFAFF
  {
  }

  function ReadReply(response: string, n: nat): Option<seq<string>> {
    Parse(StandardReader(), Strip(response), n)
  }

  function ReadFirstLine(response: string): string {
    StripNumber(Split(Strip(Strip(response)), '\n')[0])
  }

  // A batch reply is parsed into the expected number of lines; a single one is its first line, without a number.
  function StandardService(model: Model, settings: Settings): Service {
    Service(
      model,
      settings.maxRetries,
      settings.backoffBase,
      lines => Prompt(settings.template, settings.glossary, lines),
      (response: string, n: nat) => ReadReply(response, n),
      response => ReadFirstLine(response),
      text => exists c :: c in text && IsCjk(c))
  }

  // ---- what counts as an acceptable answer -----------------------------------------------------

  predicate NoneCjk(service: Service, texts: seq<string>) {
    forall i :: 0 <= i < |texts| ==> !service.hasCjk(texts[i])
  }

  function AcceptBatch(service: Service, n: nat): string -> Option<seq<string>> {
    response =>
      var parsed := service.readBatch(response, n);
      if parsed.Some? && NoneCjk(service, parsed.value) then parsed else None
  }

  function AcceptSingle(service: Service): string -> Option<string> {
    response =>
      var translated := service.readSingle(response);
      if service.hasCjk(translated) then None else Some(translated)
  }

  // A parsed batch always has the expected number of lines.
  ghost predicate CountsLines(service: Service) {
    forall response: string, n: nat ::
      service.readBatch(response, n).Some? ==> |service.readBatch(response, n).value| == n
  }

  lemma ReplyCounts(response: string, n: nat)
    ensures ReadReply(response, n).Some? ==> |ReadReply(response, n).value| == n
  {
    ParseCounts(StandardReader(), Strip(response), n);
  }

  lemma StandardCountsLines(model: Model, settings: Settings)
    ensures CountsLines(StandardService(model, settings))
  {
    forall response: string, n: nat
      ensures var service := StandardService(model, settings);
        service.readBatch(response, n).Some? ==> |service.readBatch(response, n).value| == n
    {
      ReplyCounts(response, n);
    }
  }

  // ---- retrying --------------------------------------------------------------------------------

  function Pow2(n: nat): (p: nat)
    ensures p >= 1
  {
    if n == 0 then 1 else 2 * Pow2(n - 1)
  }

  // The sleep after a failed attempt; the last one is not followed by a sleep.
  function Backoff(service: Service, attempt: nat): nat
    requires attempt >= 1
  {
    if attempt < service.maxRetries then service.backoffBase * Pow2(attempt - 1) else 0
  }

  // What one call yields.
  function Ask<T>(service: Service, accept: string -> Option<T>, prompt: string, calls: nat): Option<T> {
    match service.model(calls, prompt)
    case None => None
    case Some(response) => accept(response)
  }

  function Retry<T>(service: Service, accept: string -> Option<T>, prompt: string, attempt: nat, meter: Meter)
    : Attempted<T>
    requires attempt >= 1
    decreases service.maxRetries + 1 - attempt
  {
    if attempt > service.maxRetries then Attempted(None, meter)
    else
      var answer := Ask(service, accept, prompt, meter.calls);
      if answer.Some? then Attempted(answer, Meter(meter.calls + 1, meter.slept))
      else
        Retry(service, accept, prompt, attempt + 1,
          Meter(meter.calls + 1, meter.slept + Backoff(service, attempt)))
  }

  // What is slept between the attempts `attempt` and `last`.
  function Slept(service: Service, attempt: nat, last: nat): int
    requires 1 <= attempt <= last
  {
    service.backoffBase * (Pow2(last - 1) - Pow2(attempt - 1))
  }

  lemma SleepAdds(service: Service, attempt: nat, last: nat)
    requires 1 <= attempt < last && attempt < service.maxRetries
    ensures Backoff(service, attempt) + Slept(service, attempt + 1, last) == Slept(service, attempt, last)
  {
    assert Pow2(attempt) == 2 * Pow2(attempt - 1);
    Telescope(service.backoffBase, Pow2(last - 1), Pow2(attempt - 1));
  }

  lemma NoSleepYet(service: Service, attempt: nat)
    requires attempt >= 1
    ensures Slept(service, attempt, attempt) == 0 && (attempt >= service.maxRetries ==> Backoff(service, attempt) == 0)
  {
  }

  // The answer is that of the first accepted attempt, or nothing when all are refused; every attempt is one
  // call, and the sleeps between them double.
  lemma {:induction false} RetryExact<T>(service: Service, accept: string -> Option<T>, prompt: string, attempt: nat,
      meter: Meter) returns (last: nat)
    requires 1 <= attempt <= service.maxRetries
    ensures attempt <= last <= service.maxRetries
    ensures forall call :: meter.calls <= call < meter.calls + last - attempt ==>
      Ask(service, accept, prompt, call).None?
    ensures var tried := Retry(service, accept, prompt, attempt, meter);
      && tried.value == Ask(service, accept, prompt, meter.calls + last - attempt)
      && (tried.value.None? ==> last == service.maxRetries)
      && tried.meter.calls == meter.calls + last + 1 - attempt
      && tried.meter.slept == meter.slept + Slept(service, attempt, last)
    decreases service.maxRetries - attempt
  {
    hide Ask, Backoff, Slept;
    last := attempt;
    NoSleepYet(service, attempt);
    var next := Meter(meter.calls + 1, meter.slept + Backoff(service, attempt));
    if Ask(service, accept, prompt, meter.calls).None? {
      if attempt < service.maxRetries {
        last := RetryExact(service, accept, prompt, attempt + 1, next);
        SleepAdds(service, attempt, last);
      } else {
        assert Retry(service, accept, prompt, attempt + 1, next) == Attempted(None, next);
      }
    }
  }

  // ---- lines, batches, everything --------------------------------------------------------------

  datatype Translated = Translated(lines: seq<string>, meter: Meter)

  // One line on its own: the translation, or the original when every attempt failed. Without any attempt
  // nothing at all is produced.
  function Single(service: Service, line: string, meter: Meter): Translated {
    var tried := Retry(service, AcceptSingle(service), service.prompt([line]), 1, meter);
    Translated(
      if tried.value.Some? then [tried.value.value] else if service.maxRetries >= 1 then [line] else [],
      tried.meter)
  }

  function Singles(service: Service, lines: seq<string>, meter: Meter): Translated {
    if lines == [] then Translated([], meter)
    else
      var earlier := Singles(service, lines[..|lines| - 1], meter);
      var last := Single(service, lines[|lines| - 1], earlier.meter);
      Translated(earlier.lines + last.lines, last.meter)
  }

  function Batch(service: Service, lines: seq<string>, meter: Meter): Translated {
    if lines == [] then Translated([], meter)
    else
      var tried := Retry(service, AcceptBatch(service, |lines|), service.prompt(lines), 1, meter);
      if tried.value.Some? then Translated(tried.value.value, tried.meter)
      else Singles(service, lines, tried.meter)
  }

  function End(lines: seq<string>, size: nat, start: nat): (end: nat)
    requires start <= |lines|
    ensures start <= end <= |lines|
  {
    if start + size < |lines| then start + size else |lines|
  }

  // Batch after batch from line `start` on.
  function Batches(service: Service, lines: seq<string>, size: nat, start: nat, meter: Meter): Translated
    requires size >= 1
    decreases |lines| - start
  {
    if start >= |lines| then Translated([], meter)
    else
      var end := End(lines, size, start);
      var first := Batch(service, lines[start..end], meter);
      var rest := Batches(service, lines, size, start + size, first.meter);
      Translated(first.lines + rest.lines, rest.meter)
  }

  // None: a batch size of zero is refused; with a negative one there are no batches.
  function All(service: Service, lines: seq<string>, size: int, meter: Meter): Option<Translated> {
    if lines == [] then Some(Translated([], meter))
    else if size == 0 then None
    else if size < 0 then Some(Translated([], meter))
    else Some(Batches(service, lines, size, 0, meter))
  }

  // ---- what comes out is aligned with what went in ---------------------------------------------

  // Each output line is free of CJK characters or the original line.
  predicate Faithful(service: Service, lines: seq<string>, output: seq<string>) {
    |output| == |lines| && forall i :: 0 <= i < |lines| ==> !service.hasCjk(output[i]) || output[i] == lines[i]
  }

  lemma {:induction false} RetryAccepted<T>(service: Service, accept: string -> Option<T>, prompt: string,
      attempt: nat, meter: Meter) returns (response: string)
    requires attempt >= 1
    ensures var tried := Retry(service, accept, prompt, attempt, meter);
      tried.value.Some? ==> accept(response) == tried.value
    decreases service.maxRetries + 1 - attempt
  {
    response := "";
    if attempt <= service.maxRetries {
      var answer := service.model(meter.calls, prompt);
      if Ask(service, accept, prompt, meter.calls).Some? {
        response := answer.value;
      } else {
        response := RetryAccepted(service, accept, prompt, attempt + 1,
          Meter(meter.calls + 1, meter.slept + Backoff(service, attempt)));
      }
    }
  }

  lemma {:induction false} SingleFaithful(service: Service, line: string, meter: Meter)
    requires service.maxRetries >= 1
    ensures Faithful(service, [line], Single(service, line, meter).lines)
  {
    var response := RetryAccepted(service, AcceptSingle(service),
      service.prompt([line]), 1, meter);
  }

  lemma FaithfulConcat(service: Service, a: seq<string>, b: seq<string>, x: seq<string>, y: seq<string>)
    requires Faithful(service, a, x) && Faithful(service, b, y)
    ensures Faithful(service, a + b, x + y)
  {
  }

  lemma {:induction false} SinglesFaithful(service: Service, lines: seq<string>, meter: Meter)
    requires service.maxRetries >= 1
    ensures Faithful(service, lines, Singles(service, lines, meter).lines)
  {
    if lines == [] {
    } else {
      var front, last := lines[..|lines| - 1], lines[|lines| - 1];
      var earlier := Singles(service, front, meter);
      SinglesFaithful(service, front, meter);
      SingleFaithful(service, last, earlier.meter);
      FaithfulConcat(service, front, [last], earlier.lines, Single(service, last, earlier.meter).lines);
      assert lines == front + [last];
    }
  }

  lemma {:induction false} BatchFaithful(service: Service, lines: seq<string>, meter: Meter)
    requires service.maxRetries >= 1 && CountsLines(service)
    ensures Faithful(service, lines, Batch(service, lines, meter).lines)
  {
    if lines != [] {
      var prompt := service.prompt(lines);
      var tried := Retry(service, AcceptBatch(service, |lines|), prompt, 1, meter);
      var response := RetryAccepted(service, AcceptBatch(service, |lines|), prompt, 1, meter);
      if tried.value.Some? {
        assert service.readBatch(response, |lines|) == tried.value;
      } else {
        SinglesFaithful(service, lines, tried.meter);
      }
    }
  }

  lemma {:induction false} BatchesFaithful(service: Service, lines: seq<string>, size: nat, start: nat,
      meter: Meter)
    requires service.maxRetries >= 1 && CountsLines(service) && size >= 1 && start <= |lines|
    ensures Faithful(service, lines[start..], Batches(service, lines, size, start, meter).lines)
    decreases |lines| - start
  {
    hide Batch;
    if start < |lines| {
      var end := End(lines, size, start);
      var first := Batch(service, lines[start..end], meter);
      var rest := Batches(service, lines, size, start + size, first.meter);
      BatchFaithful(service, lines[start..end], meter);
      if start + size <= |lines| {
        BatchesFaithful(service, lines, size, start + size, first.meter);
      }
      FaithfulConcat(service, lines[start..end], lines[end..], first.lines, rest.lines);
      Halves(lines, start, end);
    }
  }

  lemma Halves(lines: seq<string>, i: nat, j: nat)
    requires i <= j <= |lines|
    ensures lines[i..] == lines[i..j] + lines[j..]
  {
  }

  // Whatever the model answers: one output per input line, in order, each free of CJK characters or the
  // original. Without retries (or without batches) nothing comes out, so this is exactly the condition.
  lemma {:induction false} TranslationAligned(service: Service, lines: seq<string>, size: int, meter: Meter)
    requires CountsLines(service) && size != 0
    ensures var result := All(service, lines, size, meter);
      result.Some? && (Faithful(service, lines, result.value.lines)
        <==> lines == [] || (service.maxRetries >= 1 && size >= 1))
  {
    if lines != [] && size >= 1 {
      if service.maxRetries >= 1 {
        BatchesFaithful(service, lines, size, 0, meter);
        assert lines[0..] == lines;
      } else {
        NothingWithoutRetries(service, lines, size, 0, meter);
      }
    }
  }

  // In the client's own terms, with its parser, its prompt and its character ranges.
  lemma StandardTranslation(model: Model, settings: Settings, lines: seq<string>, size: nat, meter: Meter)
    requires settings.maxRetries >= 1 && size >= 1
    ensures var output := All(StandardService(model, settings), lines, size, meter).value.lines;
      && |output| == |lines|
      && forall i :: 0 <= i < |lines| ==> output[i] == lines[i] || forall c :: c in output[i] ==> !IsCjk(c)
  {
    hide All, CountsLines, IsCjk;
    var service := StandardService(model, settings);
    StandardCountsLines(model, settings);
    TranslationAligned(service, lines, size, meter);
    var output := All(service, lines, size, meter).value.lines;
    forall i | 0 <= i < |lines| && output[i] != lines[i]
      ensures forall c :: c in output[i] ==> !IsCjk(c)
    {
      assert !service.hasCjk(output[i]);
    }
  }

  lemma {:induction false} NothingWithoutRetries(service: Service, lines: seq<string>, size: nat, start: nat,
      meter: Meter)
    requires service.maxRetries < 1 && size >= 1
    ensures Batches(service, lines, size, start, meter).lines == []
    decreases |lines| - start
  {
    hide Batch;
    if start < |lines| {
      var first := Batch(service, lines[start..End(lines, size, start)], meter);
      NoBatch(service, lines[start..End(lines, size, start)], meter);
      NothingWithoutRetries(service, lines, size, start + size, first.meter);
    }
  }

  lemma NoBatch(service: Service, lines: seq<string>, meter: Meter)
    requires service.maxRetries < 1
    ensures Batch(service, lines, meter).lines == []
  {
    NoSingles(service, lines, meter);
  }

  lemma {:induction false} NoSingles(service: Service, lines: seq<string>, meter: Meter)
    requires service.maxRetries < 1
    ensures Singles(service, lines, meter).lines == []
  {
    if lines == [] {
    } else {
      var earlier := Singles(service, lines[..|lines| - 1], meter);
      NoSingles(service, lines[..|lines| - 1], meter);
      NoSingle(service, lines[|lines| - 1], earlier.meter);
    }
  }

  lemma NoSingle(service: Service, line: string, meter: Meter)
    requires service.maxRetries < 1
    ensures Single(service, line, meter).lines == []
  {
  }

  // ---- a model that translates -----------------------------------------------------------------

  function Mapped(translate: string -> string, lines: seq<string>): (r: seq<string>)
    ensures |r| == |lines|
  {
    seq(|lines|, i requires 0 <= i < |lines| => translate(lines[i]))
  }

  // From line `start` on, the model answers every batch at the first attempt with an acceptable translation of
  // each of its lines; the batch at `start` is its call number `call`.
  predicate Answers(service: Service, translate: string -> string, lines: seq<string>, size: nat, start: nat, call: nat)
    requires size >= 1
    decreases |lines| - start
  {
    start >= |lines| ||
      (var batch := lines[start..End(lines, size, start)];
       && Ask(service, AcceptBatch(service, |batch|), service.prompt(batch), call) == Some(Mapped(translate, batch))
       && Answers(service, translate, lines, size, start + size, call + 1))
  }

  lemma BatchAnswered(service: Service, translate: string -> string, lines: seq<string>, meter: Meter)
    requires service.maxRetries >= 1 && lines != []
    requires Ask(service, AcceptBatch(service, |lines|), service.prompt(lines), meter.calls)
      == Some(Mapped(translate, lines))
    ensures Batch(service, lines, meter) == Translated(Mapped(translate, lines), Meter(meter.calls + 1, meter.slept))
  {
    hide Ask, AcceptBatch;
  }

  // Then the whole translation is the translation of each line, in order, with one call a batch and no sleep.
  lemma {:induction false} AnswersAreUsed(service: Service, translate: string -> string, lines: seq<string>, size: nat,
      start: nat, meter: Meter)
    requires service.maxRetries >= 1 && size >= 1 && start <= |lines|
    requires Answers(service, translate, lines, size, start, meter.calls)
    ensures Batches(service, lines, size, start, meter)
      == Translated(Mapped(translate, lines[start..]),
           Meter(meter.calls + BatchCount(|lines| - start, size), meter.slept))
    decreases |lines| - start
  {
    hide Batch, Ask, AcceptBatch;
    if start < |lines| {
      var end := End(lines, size, start);
      var first := Batch(service, lines[start..end], meter);
      BatchAnswered(service, translate, lines[start..end], meter);
      Halves(lines, start, end);
      assert Mapped(translate, lines[start..])
        == Mapped(translate, lines[start..end]) + Mapped(translate, lines[end..]);
      if start + size <= |lines| {
        AnswersAreUsed(service, translate, lines, size, start + size, first.meter);
      } else {
        assert Mapped(translate, lines[end..]) == [];
      }
    }
  }

  // ---- from the prompt to the reply and back ---------------------------------------------------------

  // A translation that survives numbering: one line, no white space around it, and nothing that looks Chinese.
  predicate IsPlain(text: string) {
    && '\n' !in text && (text != "" ==> !IsSpace(text[0]) && !IsSpace(text[|text| - 1]))
    && forall c :: c in text ==> !IsCjk(c)
  }

  // From line `start` on, the model replies to every prompt with its translations, numbered like the prompt.
  predicate RepliesNumbered(model: Model, settings: Settings, translate: string -> string, lines: seq<string>,
      size: nat, start: nat, call: nat)
    requires size >= 1
    decreases |lines| - start
  {
    start >= |lines| ||
      (var batch := lines[start..End(lines, size, start)];
       && model(call, Prompt(settings.template, settings.glossary, batch)) == Some(Numbered(Mapped(translate, batch)))
       && RepliesNumbered(model, settings, translate, lines, size, start + size, call + 1))
  }

  lemma NumberedReplyRead(texts: seq<string>)
    requires forall i :: 0 <= i < |texts| ==> IsPlain(texts[i])
    ensures ReadReply(Numbered(texts), |texts|) == Some(texts)
  {
    forall i | 0 <= i < |texts|
      ensures UnpaddedAt(texts, i) && '\n' !in texts[i]
    {
      assert IsPlain(texts[i]);
    }
    hide IsPlain, UnpaddedAt, Strip, Numbered, NonBlank, ParseLines;
    NumberingRoundTrip(texts);
    StripTwice(Numbered(texts));
  }

  lemma ReplyAccepted(service: Service, n: nat, prompt: string, response: string, texts: seq<string>, call: nat)
    requires service.model(call, prompt) == Some(response)
    requires service.readBatch(response, n) == Some(texts) && NoneCjk(service, texts)
    ensures Ask(service, AcceptBatch(service, n), prompt, call) == Some(texts)
  {
  }

  lemma PlainHasNoCjk(model: Model, settings: Settings, text: string)
    requires IsPlain(text)
    ensures !StandardService(model, settings).hasCjk(text)
  {
    hide IsCjk;
  }

  lemma StandardParts(model: Model, settings: Settings, batch: seq<string>, response: string, n: nat)
    ensures var service := StandardService(model, settings);
      && service.model == model && service.prompt(batch) == Prompt(settings.template, settings.glossary, batch)
      && service.readBatch(response, n) == ReadReply(response, n)
  {
    hide Prompt, ReadReply;
  }

  lemma NumberedReplyAccepted(model: Model, settings: Settings, batch: seq<string>, texts: seq<string>, call: nat)
    requires |texts| == |batch| && forall i :: 0 <= i < |texts| ==> IsPlain(texts[i])
    requires model(call, Prompt(settings.template, settings.glossary, batch)) == Some(Numbered(texts))
    ensures var service := StandardService(model, settings);
      Ask(service, AcceptBatch(service, |batch|), service.prompt(batch), call) == Some(texts)
  {
    hide ReadReply, Prompt, Numbered, IsPlain, StandardService, Ask, AcceptBatch;
    var service := StandardService(model, settings);
    NumberedReplyRead(texts);
    StandardParts(model, settings, batch, Numbered(texts), |batch|);
    forall i | 0 <= i < |texts|
      ensures !service.hasCjk(texts[i])
    {
      PlainHasNoCjk(model, settings, texts[i]);
    }
    ReplyAccepted(service, |batch|, service.prompt(batch), Numbered(texts), texts, call);
  }

  lemma {:induction false} RepliesAnswer(model: Model, settings: Settings, translate: string -> string,
      lines: seq<string>, size: nat, start: nat, call: nat)
    requires size >= 1 && forall i :: 0 <= i < |lines| ==> IsPlain(translate(lines[i]))
    requires RepliesNumbered(model, settings, translate, lines, size, start, call)
    ensures Answers(StandardService(model, settings), translate, lines, size, start, call)
    decreases |lines| - start
  {
    hide IsPlain, StandardService, Ask, AcceptBatch, Prompt, Numbered;
    if start < |lines| {
      var batch := lines[start..End(lines, size, start)];
      NumberedReplyAccepted(model, settings, batch, Mapped(translate, batch), call);
      RepliesAnswer(model, settings, translate, lines, size, start + size, call + 1);
    }
  }

  // End to end: when the model numbers its translations as the prompt numbers the lines, those translations come
  // out, one for each line and in order, after one call for every batch.
  lemma {:induction false} NumberedRepliesComeOut(model: Model, settings: Settings, translate: string -> string,
      lines: seq<string>, size: nat, meter: Meter)
    requires settings.maxRetries >= 1 && size >= 1
    requires forall i :: 0 <= i < |lines| ==> IsPlain(translate(lines[i]))
    requires RepliesNumbered(model, settings, translate, lines, size, 0, meter.calls)
    ensures All(StandardService(model, settings), lines, size, meter)
      == Some(Translated(Mapped(translate, lines), Meter(meter.calls + Ceiling(|lines|, size), meter.slept)))
  {
    hide IsPlain, Answers, Batches, RepliesNumbered;
    var service := StandardService(model, settings);
    BatchCountIsCeiling(|lines|, size);
    if lines == [] {
      assert Mapped(translate, lines) == [];
    } else {
      RepliesAnswer(model, settings, translate, lines, size, 0, meter.calls);
      AnswersAreUsed(service, translate, lines, size, 0, meter);
      assert lines[0..] == lines;
    }
  }

  // ---- what it costs ---------------------------------------------------------------------------

  // The longest a request with all its retries can sleep.
  function SleepPerRequest(service: Service): nat {
    if service.maxRetries >= 1 then service.backoffBase * (Pow2(service.maxRetries - 1) - 1) else 0
  }

  // From `before` to `after` at most `requests` requests were made, each with all its retries.
  predicate Within(service: Service, before: Meter, after: Meter, requests: nat)
    requires service.maxRetries >= 1
  {
    && after.calls <= before.calls + service.maxRetries * requests
    && after.slept <= before.slept + SleepPerRequest(service) * requests
  }

  lemma WithinAdds(service: Service, a: Meter, b: Meter, c: Meter, x: nat, y: nat)
    requires service.maxRetries >= 1 && Within(service, a, b, x) && Within(service, b, c, y)
    ensures Within(service, a, c, x + y)
  {
    Distribute(service.maxRetries, x, y);
    Distribute(SleepPerRequest(service), x, y);
  }

  lemma {:induction false} PowMonotone(a: nat, b: nat)
    requires a <= b
    ensures Pow2(a) <= Pow2(b)
  {
    if a < b {
      PowMonotone(a, b - 1);
    }
  }

  lemma Telescope(base: nat, top: nat, p: nat)
    ensures base * p + base * (top - 2 * p) == base * (top - p)
  {
  }

  lemma {:induction false} RequestWithin<T>(service: Service, accept: string -> Option<T>, prompt: string, meter: Meter)
    requires service.maxRetries >= 1
    ensures Within(service, meter, Retry(service, accept, prompt, 1, meter).meter, 1)
  {
    var last := RetryExact(service, accept, prompt, 1, meter);
    PowMonotone(last - 1, service.maxRetries - 1);
    MulMonotone(Pow2(last - 1) - 1, Pow2(service.maxRetries - 1) - 1, service.backoffBase);
  }

  lemma {:induction false} SinglesWithin(service: Service, lines: seq<string>, meter: Meter)
    requires service.maxRetries >= 1
    ensures Within(service, meter, Singles(service, lines, meter).meter, |lines|)
  {
    if lines == [] {
    } else {
      var front, last := lines[..|lines| - 1], lines[|lines| - 1];
      var earlier := Singles(service, front, meter);
      SinglesWithin(service, front, meter);
      RequestWithin(service, AcceptSingle(service), service.prompt([last]), earlier.meter);
      WithinAdds(service, meter, earlier.meter, Single(service, last, earlier.meter).meter, |front|, 1);
    }
  }

  lemma {:induction false} BatchWithin(service: Service, lines: seq<string>, meter: Meter)
    requires service.maxRetries >= 1 && lines != []
    ensures Within(service, meter, Batch(service, lines, meter).meter, 1 + |lines|)
  {
    var tried := Retry(service, AcceptBatch(service, |lines|), service.prompt(lines), 1, meter);
    RequestWithin(service, AcceptBatch(service, |lines|), service.prompt(lines), meter);
    SinglesWithin(service, lines, tried.meter);
    WithinAdds(service, meter, tried.meter, Singles(service, lines, tried.meter).meter, 1, |lines|);
    WithinMore(service, meter, tried.meter, 1, |lines|);
  }

  lemma WithinMore(service: Service, a: Meter, b: Meter, x: nat, y: nat)
    requires service.maxRetries >= 1 && Within(service, a, b, x)
    ensures Within(service, a, b, x + y)
  {
    Distribute(service.maxRetries, x, y);
    Distribute(SleepPerRequest(service), x, y);
  }

  lemma WithinNone(service: Service, a: Meter, x: nat)
    requires service.maxRetries >= 1
    ensures Within(service, a, a, x)
  {
    MulMonotone(0, service.maxRetries, x);
    MulMonotone(0, SleepPerRequest(service), x);
  }

  function BatchCount(n: int, size: nat): nat
    requires size >= 1
    decreases n
  {
    if n <= 0 then 0 else 1 + BatchCount(n - size, size)
  }

  // How many batches of that size n lines make: n / size, rounded up.
  function Ceiling(n: nat, size: nat): nat
    requires size >= 1
  {
    (n + size - 1) / size
  }

  lemma {:induction false} BatchCountIsCeiling(n: nat, size: nat)
    requires size >= 1
    ensures BatchCount(n, size) == Ceiling(n, size)
  {
    if n > size {
      BatchCountIsCeiling(n - size, size);
      DivideOneMore(n - 1, size);
      assert n - size + size - 1 == n - 1 && n + size - 1 == n - 1 + size;
    } else if n > 0 {
      DivideBetween(n + size - 1, size);
    }
  }

  lemma DivideBetween(a: nat, d: nat)
    requires 1 <= d <= a < 2 * d
    ensures a / d == 1
  {
    LessByFactor(a / d, 1, d);
    LessByFactor(1, a / d, d);
  }

  // How many requests are left from line `start` on: one a batch, and one a line.
  function RequestsFrom(lines: seq<string>, size: nat, start: nat): nat
    requires size >= 1 && start <= |lines|
  {
    BatchCount(|lines| - start, size) + |lines| - start
  }

  lemma {:induction false} BatchesWithin(service: Service, lines: seq<string>, size: nat, start: nat, meter: Meter)
    requires service.maxRetries >= 1 && size >= 1 && start <= |lines|
    ensures Within(service, meter, Batches(service, lines, size, start, meter).meter, RequestsFrom(lines, size, start))
    decreases |lines| - start
  {
    hide Batch;
    if start < |lines| {
      var end := End(lines, size, start);
      var first := Batch(service, lines[start..end], meter);
      BatchWithin(service, lines[start..end], meter);
      if start + size <= |lines| {
        BatchesWithin(service, lines, size, start + size, first.meter);
        WithinAdds(service, meter, first.meter, Batches(service, lines, size, start + size, first.meter).meter,
          1 + (end - start), RequestsFrom(lines, size, start + size));
      }
    }
  }

  // The cost of a whole translation: at most maxRetries calls, and the sleeps of one request, for every
  // batch and for every line.
  lemma {:induction false} TranslationCost(service: Service, lines: seq<string>, size: nat, meter: Meter)
    requires service.maxRetries >= 1 && size >= 1
    ensures Within(service, meter, All(service, lines, size, meter).value.meter,
      Ceiling(|lines|, size) + |lines|)
  {
    hide Batches, Within;
    BatchCountIsCeiling(|lines|, size);
    if lines != [] {
      BatchesWithin(service, lines, size, 0, meter);
    } else {
      WithinNone(service, meter, Ceiling(|lines|, size));
    }
  }

  // ---- the bound is reached --------------------------------------------------------------------

  // Every call fails.
  ghost predicate Refuses(service: Service) {
    forall call: nat, prompt: string :: service.model(call, prompt).None?
  }

  // The meter after that many requests with all their retries.
  function Spent(service: Service, before: Meter, requests: nat): Meter
    requires service.maxRetries >= 1
  {
    Meter(before.calls + service.maxRetries * requests, before.slept + SleepPerRequest(service) * requests)
  }

  lemma SpentAdds(service: Service, before: Meter, x: nat, y: nat)
    requires service.maxRetries >= 1
    ensures Spent(service, Spent(service, before, x), y) == Spent(service, before, x + y)
  {
    Distribute(service.maxRetries, x, y);
    Distribute(SleepPerRequest(service), x, y);
  }

  lemma RequestRefused<T>(service: Service, accept: string -> Option<T>, prompt: string, meter: Meter)
    requires service.maxRetries >= 1 && Refuses(service)
    ensures Retry(service, accept, prompt, 1, meter) == Attempted(None, Spent(service, meter, 1))
  {
    hide Retry;
    var last := RetryExact(service, accept, prompt, 1, meter);
    assert service.model(meter.calls + last - 1, prompt).None?;
  }

  lemma SinglesStep(service: Service, lines: seq<string>, meter: Meter)
    requires lines != []
    ensures var earlier := Singles(service, lines[..|lines| - 1], meter);
      var last := Single(service, lines[|lines| - 1], earlier.meter);
      Singles(service, lines, meter) == Translated(earlier.lines + last.lines, last.meter)
  {
    hide Single;
  }

  lemma NothingSpent(service: Service, meter: Meter)
    requires service.maxRetries >= 1
    ensures Singles(service, [], meter) == Translated([], Spent(service, meter, 0))
  {
  }

  lemma SingleRefused(service: Service, line: string, meter: Meter)
    requires service.maxRetries >= 1 && Refuses(service)
    ensures Single(service, line, meter) == Translated([line], Spent(service, meter, 1))
  {
    hide Retry, Refuses, AcceptSingle, Spent;
    RequestRefused(service, AcceptSingle(service), service.prompt([line]), meter);
  }

  lemma {:induction false} SinglesRefused(service: Service, lines: seq<string>, meter: Meter)
    requires service.maxRetries >= 1 && Refuses(service)
    ensures Singles(service, lines, meter) == Translated(lines, Spent(service, meter, |lines|))
  {
    hide Single, Singles, Refuses, Spent;
    if lines == [] {
      NothingSpent(service, meter);
    } else {
      var front, last := lines[..|lines| - 1], lines[|lines| - 1];
      SinglesStep(service, lines, meter);
      SinglesRefused(service, front, meter);
      SingleRefused(service, last, Spent(service, meter, |front|));
      SpentAdds(service, meter, |front|, 1);
      assert lines == front + [last];
    }
  }

  lemma BatchRefused(service: Service, lines: seq<string>, meter: Meter)
    requires service.maxRetries >= 1 && Refuses(service) && lines != []
    ensures Batch(service, lines, meter) == Translated(lines, Spent(service, meter, 1 + |lines|))
  {
    hide Retry, Refuses, AcceptBatch, Singles;
    RequestRefused(service, AcceptBatch(service, |lines|), service.prompt(lines), meter);
    SinglesRefused(service, lines, Spent(service, meter, 1));
    SpentAdds(service, meter, 1, |lines|);
  }

  // A model that never answers costs exactly the bound, and every line comes back as it was.
  lemma {:induction false} RefusedCostsAll(service: Service, lines: seq<string>, size: nat, start: nat, meter: Meter)
    requires service.maxRetries >= 1 && Refuses(service) && size >= 1 && start <= |lines|
    ensures Batches(service, lines, size, start, meter)
      == Translated(lines[start..], Spent(service, meter, RequestsFrom(lines, size, start)))
    decreases |lines| - start
  {
    hide Batch, Refuses, Spent;
    if start < |lines| {
      var end := End(lines, size, start);
      var next := Spent(service, meter, 1 + (end - start));
      BatchRefused(service, lines[start..end], meter);
      Halves(lines, start, end);
      if start + size <= |lines| {
        RefusedCostsAll(service, lines, size, start + size, next);
        SpentAdds(service, meter, 1 + (end - start), RequestsFrom(lines, size, start + size));
      } else {
        assert lines[end..] == [] && Batches(service, lines, size, start + size, next) == Translated([], next);
        assert BatchCount(|lines| - start - size, size) == 0;
      }
    } else {
      SpentNothing(service, meter);
    }
  }

  lemma SpentNothing(service: Service, before: Meter)
    requires service.maxRetries >= 1
    ensures Spent(service, before, 0) == before
  {
  }
}

/** The client itself: it counts its calls to the model and the time it sleeps. */
module OllamaClient {
  import opened PyText
  import opened TranslationSpec

  class Client {
    const service: Service
    var calls: nat
    var slept: nat

    constructor (service: Service)
      ensures this.service == service && Now() == Meter(0, 0)
    {
      this.service := service;
      calls, slept := 0, 0;
    }

    ghost function Now(): Meter
      reads this
    {
      Meter(calls, slept)
    }

    method CallModel(prompt: string) returns (response: Option<string>)
      modifies `calls
      ensures response == service.model(old(calls), prompt)
      ensures calls == old(calls) + 1
    {
      response := service.model(calls, prompt);
      calls := calls + 1;
    }

    // Sleeps twice as long after every failed attempt, and not at all after the last.
    method WaitAfter(attempt: nat)
      requires attempt >= 1
      modifies `slept
      ensures slept == old(slept) + Backoff(service, attempt)
    {
      if attempt < service.maxRetries {
        slept := slept + service.backoffBase * Pow2(attempt - 1);
      }
    }

    // One attempt; the sleep that follows a failed one is the caller's.
    method Attempt<T>(accept: string -> Option<T>, prompt: string) returns (answer: Option<T>)
      modifies `calls
      ensures answer == Ask(service, accept, prompt, old(calls))
      ensures calls == old(calls) + 1
    {
      var response := CallModel(prompt);
      match response
      case None => answer := None;
      case Some(text) => answer := accept(text);
    }

    method TranslateBatch(lines: seq<string>) returns (results: seq<string>)
      modifies this
      ensures Translated(results, Now()) == Batch(service, lines, old(Now()))
    {
      if lines == [] {
        return [];
      }
      var prompt, accept := service.prompt(lines), AcceptBatch(service, |lines|);
      var attempt := 1;
      while attempt <= service.maxRetries
        invariant attempt >= 1
        invariant Retry(service, accept, prompt, attempt, Now()) == Retry(service, accept, prompt, 1, old(Now()))
        decreases service.maxRetries + 1 - attempt
      {
        var parsed := Attempt(accept, prompt);
        if parsed.Some? {
          return parsed.value;
        }
        WaitAfter(attempt);
        attempt := attempt + 1;
      }
      results := TranslateSingles(lines);
    }

    method TranslateSingles(lines: seq<string>) returns (results: seq<string>)
      modifies this
      ensures Translated(results, Now()) == Singles(service, lines, old(Now()))
    {
      results := [];
      for i := 0 to |lines|
        invariant Translated(results, Now()) == Singles(service, lines[..i], old(Now()))
      {
        var last := TranslateSingle(lines[i]);
        assert lines[..i + 1][..|lines[..i + 1]| - 1] == lines[..i];
        results := results + last;
      }
      assert lines[..|lines|] == lines;
    }

    method TranslateSingle(line: string) returns (results: seq<string>)
      modifies this
      ensures Translated(results, Now()) == Single(service, line, old(Now()))
    {
      hide AcceptSingle, Ask, Backoff;
      var prompt, accept := service.prompt([line]), AcceptSingle(service);
      var failed := false;
      var attempt := 1;
      while attempt <= service.maxRetries
        invariant attempt >= 1
        invariant Retry(service, accept, prompt, attempt, Now()) == Retry(service, accept, prompt, 1, old(Now()))
        invariant if failed then 1 < attempt <= service.maxRetries + 1 else attempt == 1
        decreases service.maxRetries + 1 - attempt
      {
        var translated := Attempt(accept, prompt);
        if translated.Some? {
          return [translated.value];
        }
        failed := true;
        WaitAfter(attempt);
        attempt := attempt + 1;
      }
      results := if failed then [line] else [];
    }

    method TranslateAll(lines: seq<string>, size: int) returns (results: Option<seq<string>>)
      modifies this
      ensures match All(service, lines, size, old(Now()))
        case None => results == None && Now() == old(Now())
        case Some(all) => results == Some(all.lines) && Now() == all.meter
    {
      if lines == [] {
        return Some([]);
      }
      if size == 0 {
        return None;
      }
      if size < 0 {
        return Some([]);
      }
      results := TranslateBatches(lines, size);
    }

    method TranslateBatches(lines: seq<string>, size: nat) returns (results: Option<seq<string>>)
      requires size >= 1
      modifies this
      ensures var all := Batches(service, lines, size, 0, old(Now()));
        results == Some(all.lines) && Now() == all.meter
    {
      hide Batch;
      var translated := [];
      var start := 0;
      while start < |lines|
        invariant var rest := Batches(service, lines, size, start, Now());
          Translated(translated + rest.lines, rest.meter) == Batches(service, lines, size, 0, old(Now()))
        decreases |lines| - start
      {
        ghost var done := translated;
        var batch := TranslateBatch(lines[start..End(lines, size, start)]);
        translated := translated + batch;
        ghost var rest := Batches(service, lines, size, start + size, Now());
        assert done + (batch + rest.lines) == translated + rest.lines;
        start := start + size;
      }
      assert translated + [] == translated;
      results := Some(translated);
    }
  }
}

/** What the health checks report and what the automatic fixes do, as functions of the event list,
    and the theorems about running the fixes one after the other. */
module HealthSpec {
  import opened PyText
  import opened IndexDeletion
  import opened Subtitles

  datatype Severity = Error | Warning | Info

  datatype Check =
    | DuplicateLines
    | TimingOverlaps
    | MissingStyles
    | EmptyEvents
    | ExcessiveDuration
    | NegativeTiming
    | ZeroDuration
    | LineTooLong
    | MissingNewlines

  datatype Issue = Issue(check: Check, severity: Severity, line: nat)

  // What a check looks at besides the events: the defined styles (none: the file is not ASS) and
  // what it asks about the text of an event.
  datatype Context = Context(styles: set<string>, texts: TextFacts)

  // ---- the checks ------------------------------------------------------------------------------

  predicate SameLine(a: Cue, b: Cue) {
    a.start == b.start && a.end == b.end && a.text == b.text && a.style == b.style
  }

  predicate IsDuplicate(cues: seq<Cue>, i: nat)
    requires i < |cues|
  {
    exists j :: 0 <= j < i && !cues[j].isComment && SameLine(cues[j], cues[i])
  }

  // i comes before j in its (style, layer) group, ordered by start time, then by position.
  predicate Before(cues: seq<Cue>, i: nat, j: nat)
    requires i < |cues| && j < |cues|
  {
    && !cues[i].isComment && !cues[j].isComment
    && cues[i].style == cues[j].style && cues[i].layer == cues[j].layer
    && (cues[i].start < cues[j].start || (cues[i].start == cues[j].start && i < j))
  }

  // i still runs when a later event of its group starts.
  predicate Overruns(cues: seq<Cue>, i: nat)
    requires i < |cues|
  {
    exists j :: 0 <= j < |cues| && Before(cues, i, j) && cues[j].start < cues[i].end
  }

  // The checks that look at one event at a time.
  predicate BadCue(check: Check, context: Context, cue: Cue) {
    match check
    case MissingStyles => context.styles != {} && cue.style !in context.styles
    case EmptyEvents => context.texts.empty(cue.text)
    case ExcessiveDuration => cue.end - cue.start > 10000
    case NegativeTiming => cue.end < cue.start
    case ZeroDuration => cue.start == cue.end
    case LineTooLong => context.texts.tooLong(cue.text)
    case MissingNewlines => context.styles != {} && context.texts.unbroken(cue.text)
    case _ => false
  }

  predicate Bad(check: Check, context: Context, cues: seq<Cue>, i: nat)
    requires i < |cues|
  {
    !cues[i].isComment
    && match check
       case DuplicateLines => IsDuplicate(cues, i)
       case TimingOverlaps => Overruns(cues, i)
       case _ => BadCue(check, context, cues[i])
  }

  // What is asked about a text, in terms of its plain text as the subtitle library derives it.
  lemma FactsMean(plain: string -> string, text: string)
    ensures FactsOf(plain).empty(text) <==> Strip(plain(text)) == ""
    ensures FactsOf(plain).tooLong(text) <==> exists line :: line in Split(plain(text), '\n') && |line| > 80
    ensures FactsOf(plain).unbroken(text) <==> !Contains(text, "\\N") && |plain(text)| > 80
  {
    hide Strip, Split, Contains;
  }

  // What the checks of single events object to; none looks at comments, and two of them only at files with styles.
  lemma WhatIsFlagged(context: Context, cues: seq<Cue>, i: nat)
    requires i < |cues| && !cues[i].isComment
    ensures var cue := cues[i];
      && (Bad(MissingStyles, context, cues, i) <==> context.styles != {} && cue.style !in context.styles)
      && (Bad(EmptyEvents, context, cues, i) <==> context.texts.empty(cue.text))
      && (Bad(ExcessiveDuration, context, cues, i) <==> cue.end - cue.start > 10_000)
      && (Bad(NegativeTiming, context, cues, i) <==> cue.end < cue.start)
      && (Bad(ZeroDuration, context, cues, i) <==> cue.end == cue.start)
      && (Bad(LineTooLong, context, cues, i) <==> context.texts.tooLong(cue.text))
      && (Bad(MissingNewlines, context, cues, i) <==> context.styles != {} && context.texts.unbroken(cue.text))
  {
  }

  // What the two checks that compare events object to.
  lemma WhatIsCompared(context: Context, cues: seq<Cue>, i: nat)
    requires i < |cues|
    ensures Bad(DuplicateLines, context, cues, i)
      <==> !cues[i].isComment && exists j :: 0 <= j < i && Repeats(cues, j, i)
    ensures Bad(TimingOverlaps, context, cues, i) <==> exists j :: 0 <= j < |cues| && RunsInto(cues, i, j)
  {
    forall j | 0 <= j < i
      ensures Repeats(cues, j, i) <==> !cues[j].isComment && SameLine(cues[j], cues[i])
    {
    }
    forall j | 0 <= j < |cues|
      ensures RunsInto(cues, i, j) <==> Before(cues, i, j) && cues[j].start < cues[i].end
    {
    }
  }

  // The same times, text and style; the layer may differ.
  predicate Repeats(cues: seq<Cue>, j: nat, i: nat)
    requires j < |cues| && i < |cues|
  {
    !cues[j].isComment && cues[j].(layer := 0, isComment := false) == cues[i].(layer := 0, isComment := false)
  }

  // The same style and layer, starting no earlier, at another place, before the end of the first.
  predicate RunsInto(cues: seq<Cue>, i: nat, j: nat)
    requires i < |cues| && j < |cues|
  {
    var a, b := cues[i], cues[j];
    && !a.isComment && !b.isComment && a.style == b.style && a.layer == b.layer
    && a.start <= b.start < a.end && (a.start == b.start ==> i < j)
  }

  // The positions below n that the check objects to.
  function Flagged(check: Check, context: Context, cues: seq<Cue>, n: nat): (ids: seq<nat>)
    requires n <= |cues|
    ensures forall k :: 0 <= k < |ids| ==> ids[k] < n
  {
    if n == 0 then []
    else Flagged(check, context, cues, n - 1) + if Bad(check, context, cues, n - 1) then [n - 1] else []
  }

  lemma {:induction false} FlaggedExact(check: Check, context: Context, cues: seq<Cue>, n: nat)
    requires n <= |cues|
    ensures Ascending(Flagged(check, context, cues, n), n)
    ensures forall i :: 0 <= i < n ==> (i in Flagged(check, context, cues, n) <==> Bad(check, context, cues, i))
  {
    if n == 0 {
    } else {
      FlaggedExact(check, context, cues, n - 1);
    }
  }

  predicate Silent(check: Check, context: Context, cues: seq<Cue>) {
    Flagged(check, context, cues, |cues|) == []
  }

  lemma SilentMeansNoneBad(check: Check, context: Context, cues: seq<Cue>)
    ensures Silent(check, context, cues) <==> forall i :: 0 <= i < |cues| ==> !Bad(check, context, cues, i)
  {
    var ids := Flagged(check, context, cues, |cues|);
    FlaggedExact(check, context, cues, |cues|);
    if ids != [] {
      assert ids[0] in ids;
    }
  }

  // The event that follows i in its group, among the first n events.
  function Next(cues: seq<Cue>, i: nat, n: nat): (next: Option<nat>)
    requires i < |cues| && n <= |cues|
    ensures next.None? ==> forall j :: 0 <= j < n ==> !Before(cues, i, j)
    ensures next.Some? ==> next.value < n && Before(cues, i, next.value)
    ensures next.Some? ==>
      forall j :: 0 <= j < n && Before(cues, i, j) ==> j == next.value || Before(cues, next.value, j)
  {
    if n == 0 then None
    else
      var next := Next(cues, i, n - 1);
      if Before(cues, i, n - 1) && (next.None? || Before(cues, n - 1, next.value)) then Some(n - 1) else next
  }

  // ---- the fixes -------------------------------------------------------------------------------

  function Restyled(context: Context, cues: seq<Cue>): (r: seq<Cue>)
    ensures |r| == |cues|
  {
    seq(|cues|, i requires 0 <= i < |cues| =>
      if Bad(MissingStyles, context, cues, i) then cues[i].(style := "Default") else cues[i])
  }

  function Swapped(cue: Cue): Cue {
    cue.(start := cue.end, end := cue.start)
  }

  function Untangled(context: Context, cues: seq<Cue>): (r: seq<Cue>)
    ensures |r| == |cues|
  {
    seq(|cues|, i requires 0 <= i < |cues| =>
      if Bad(NegativeTiming, context, cues, i) then Swapped(cues[i]) else cues[i])
  }

  // The end of i, cut off where the next event of its group starts.
  function TrimmedEnd(cues: seq<Cue>, i: nat): int
    requires i < |cues|
  {
    match Next(cues, i, |cues|)
    case None => cues[i].end
    case Some(j) => if cues[j].start < cues[i].end then cues[j].start else cues[i].end
  }

  function Trimmed(cues: seq<Cue>): (r: seq<Cue>)
    ensures |r| == |cues|
  {
    seq(|cues|, i requires 0 <= i < |cues| => cues[i].(end := TrimmedEnd(cues, i)))
  }

  predicate IsRemoval(fix: Check) {
    fix.DuplicateLines? || fix.EmptyEvents? || fix.ZeroDuration?
  }

  function Fixed(check: Check, context: Context, cues: seq<Cue>): seq<Cue> {
    match check
    case MissingStyles => Restyled(context, cues)
    case NegativeTiming => Untangled(context, cues)
    case TimingOverlaps => Trimmed(cues)
    case DuplicateLines | EmptyEvents | ZeroDuration =>
      Without(cues, Elements(Flagged(check, context, cues, |cues|)))
    case _ => cues
  }

  lemma RemovalIs(fix: Check, context: Context, cues: seq<Cue>)
    requires IsRemoval(fix)
    ensures Fixed(fix, context, cues) == Without(cues, Elements(Flagged(fix, context, cues, |cues|)))
  {
  }

  // Apply the named fixes in order, as the loop over the requested fixes does.
  function FixedAll(names: seq<Check>, context: Context, cues: seq<Cue>): seq<Cue> {
    if names == [] then cues else FixedAll(names[1..], context, Fixed(names[0], context, cues))
  }

  // ---- one fix at a time -----------------------------------------------------------------------

  // Undefined styles are gone exactly when Default is defined, there are no styles, or there was nothing to fix.
  lemma {:induction false} RestyledSilent(context: Context, cues: seq<Cue>)
    ensures Silent(MissingStyles, context, Restyled(context, cues))
      <==> context.styles == {} || "Default" in context.styles || Silent(MissingStyles, context, cues)
  {
    SilentMeansNoneBad(MissingStyles, context, cues);
    SilentMeansNoneBad(MissingStyles, context, Restyled(context, cues));
    forall i | 0 <= i < |cues|
      ensures Bad(MissingStyles, context, Restyled(context, cues), i)
        <==> Bad(MissingStyles, context, cues, i) && "Default" !in context.styles
    {
    }
  }

  lemma UntangledSilent(context: Context, cues: seq<Cue>)
    ensures Silent(NegativeTiming, context, Untangled(context, cues))
  {
    SilentMeansNoneBad(NegativeTiming, context, Untangled(context, cues));
  }

  // Trimming against the next event alone removes every overlap inside a group.
  lemma {:induction false} TrimmedSilent(context: Context, cues: seq<Cue>)
    ensures Silent(TimingOverlaps, context, Trimmed(cues))
  {
    var trimmed := Trimmed(cues);
    forall i, j | 0 <= i < |cues| && 0 <= j < |cues| && Before(trimmed, i, j)
      ensures trimmed[i].end <= trimmed[j].start
    {
      assert Before(cues, i, j);
    }
    SilentMeansNoneBad(TimingOverlaps, context, trimmed);
  }

  // Trimming never turns a well-ordered event around.
  lemma {:induction false} TrimmedKeepsOrder(context: Context, cues: seq<Cue>)
    requires Silent(NegativeTiming, context, cues)
    ensures Silent(NegativeTiming, context, Trimmed(cues))
  {
    SilentMeansNoneBad(NegativeTiming, context, cues);
    SilentMeansNoneBad(NegativeTiming, context, Trimmed(cues));
    forall i | 0 <= i < |cues| && !cues[i].isComment
      ensures cues[i].start <= TrimmedEnd(cues, i)
    {
      assert !Bad(NegativeTiming, context, cues, i);
    }
  }

  // Changing times leaves the style check as it was.
  lemma {:induction false} TimesKeepStyles(context: Context, cues: seq<Cue>, changed: seq<Cue>)
    requires |changed| == |cues| && Silent(MissingStyles, context, cues)
    requires forall i :: 0 <= i < |cues| ==>
      changed[i].style == cues[i].style && changed[i].isComment == cues[i].isComment
    ensures Silent(MissingStyles, context, changed)
  {
    SilentMeansNoneBad(MissingStyles, context, cues);
    SilentMeansNoneBad(MissingStyles, context, changed);
    forall i | 0 <= i < |cues|
      ensures !Bad(MissingStyles, context, changed, i)
    {
      assert !Bad(MissingStyles, context, cues, i);
    }
  }

  // Deleting events never makes a silent check speak.
  lemma {:induction false} WithoutKeepsSilence(check: Check, context: Context, cues: seq<Cue>, removed: set<nat>)
    requires Silent(check, context, cues)
    ensures Silent(check, context, Without(cues, removed))
  {
    var ids, rest := Kept(0, |cues|, removed), Without(cues, removed);
    SilentMeansNoneBad(check, context, cues);
    SilentMeansNoneBad(check, context, rest);
    forall i | 0 <= i < |rest|
      ensures !Bad(check, context, rest, i)
    {
      assert !Bad(check, context, cues, ids[i]);
      if check.DuplicateLines? {
        assert forall j :: 0 <= j < i ==> ids[j] < ids[i] && rest[j] == cues[ids[j]];
      } else if check.TimingOverlaps? {
        forall j | 0 <= j < |rest| && Before(rest, i, j)
          ensures rest[j].start >= rest[i].end
        {
          assert Before(cues, ids[i], ids[j]);
        }
      }
    }
  }

  // Deleting what a check objects to silences it.
  lemma {:induction false} WithoutFlagged(check: Check, context: Context, cues: seq<Cue>)
    requires IsRemoval(check)
    ensures Silent(check, context, Fixed(check, context, cues))
  {
    var removed := Elements(Flagged(check, context, cues, |cues|));
    var ids, rest := Kept(0, |cues|, removed), Without(cues, removed);
    SilentMeansNoneBad(check, context, rest);
    FlaggedExact(check, context, cues, |cues|);
    forall i | 0 <= i < |rest|
      ensures !Bad(check, context, rest, i)
    {
      assert !Bad(check, context, cues, ids[i]);
      if check.DuplicateLines? {
        assert forall j :: 0 <= j < i ==> ids[j] < ids[i] && rest[j] == cues[ids[j]];
      }
    }
  }

  // ---- one order that works --------------------------------------------------------------------

  // The source prescribes no order; this one is chosen here.
  const FIX_ORDER: seq<Check> :=
    [MissingStyles, NegativeTiming, TimingOverlaps, ZeroDuration, EmptyEvents, DuplicateLines]

  // In this order no later fix undoes an earlier one: rewriting styles merges groups before overlaps are
  // looked at, swapping comes before sorting, and the empty events that trimming makes are removed last.
  lemma {:induction false} FixOrderSilences(context: Context, cues: seq<Cue>)
    ensures var fixed := FixedAll(FIX_ORDER, context, cues);
      && Silent(NegativeTiming, context, fixed)
      && Silent(TimingOverlaps, context, fixed)
      && Silent(ZeroDuration, context, fixed)
      && Silent(EmptyEvents, context, fixed)
      && Silent(DuplicateLines, context, fixed)
      && (context.styles == {} || "Default" in context.styles ==> Silent(MissingStyles, context, fixed))
  {
    UnrollFixOrder(context, cues);
    RewritesSilence(context, cues);
    var c := Trimmed(Untangled(context, Restyled(context, cues)));
    RemovalsKeepSilence(NegativeTiming, context, c);
    RemovalsKeepSilence(TimingOverlaps, context, c);
    if context.styles == {} || "Default" in context.styles {
      RemovalsKeepSilence(MissingStyles, context, c);
    }
    RemovalsSilence(context, c);
  }

  // The three rewriting fixes.
  lemma {:induction false} RewritesSilence(context: Context, cues: seq<Cue>)
    ensures var c := Trimmed(Untangled(context, Restyled(context, cues)));
      && Silent(NegativeTiming, context, c)
      && Silent(TimingOverlaps, context, c)
      && (context.styles == {} || "Default" in context.styles ==> Silent(MissingStyles, context, c))
  {
    var a := Restyled(context, cues);
    var b := Untangled(context, a);
    UntangledSilent(context, a);
    TrimmedKeepsOrder(context, b);
    TrimmedSilent(context, b);
    if context.styles == {} || "Default" in context.styles {
      RestyledSilent(context, cues);
      TimesKeepStyles(context, a, b);
      TimesKeepStyles(context, b, Trimmed(b));
    }
  }

  // The three removals that end this order.
  function FixedTail(context: Context, c: seq<Cue>): (seq<Cue>, seq<Cue>, seq<Cue>) {
    var d := Fixed(ZeroDuration, context, c);
    var e := Fixed(EmptyEvents, context, d);
    (d, e, Fixed(DuplicateLines, context, e))
  }

  lemma {:induction false} UnrollFixOrder(context: Context, cues: seq<Cue>)
    ensures FixedAll(FIX_ORDER, context, cues)
      == FixedTail(context, Trimmed(Untangled(context, Restyled(context, cues)))).2
  {
    hide Fixed, FixedAll, Restyled, Untangled, Trimmed;
    UnrollSix(FIX_ORDER, context, cues);
    RewritesAre(context, cues);
    RewritesAre(context, Restyled(context, cues));
    RewritesAre(context, Untangled(context, Restyled(context, cues)));
  }

  lemma RewritesAre(context: Context, cues: seq<Cue>)
    ensures Fixed(MissingStyles, context, cues) == Restyled(context, cues)
    ensures Fixed(NegativeTiming, context, cues) == Untangled(context, cues)
    ensures Fixed(TimingOverlaps, context, cues) == Trimmed(cues)
  {
  }

  lemma {:induction false} RemovalKeepsSilence(check: Check, fix: Check, context: Context, cues: seq<Cue>)
    requires Silent(check, context, cues)
    requires IsRemoval(fix)
    ensures Silent(check, context, Fixed(fix, context, cues))
  {
    RemovalIs(fix, context, cues);
    WithoutKeepsSilence(check, context, cues, Elements(Flagged(fix, context, cues, |cues|)));
  }

  lemma {:induction false} RemovalsKeepSilence(check: Check, context: Context, c: seq<Cue>)
    requires Silent(check, context, c)
    ensures Silent(check, context, FixedTail(context, c).2)
  {
    RemovalKeepsSilence(check, ZeroDuration, context, c);
    RemovalKeepsSilence(check, EmptyEvents, context, FixedTail(context, c).0);
    RemovalKeepsSilence(check, DuplicateLines, context, FixedTail(context, c).1);
  }

  lemma {:induction false} RemovalsSilence(context: Context, c: seq<Cue>)
    ensures var f := FixedTail(context, c).2;
      && Silent(ZeroDuration, context, f)
      && Silent(EmptyEvents, context, f)
      && Silent(DuplicateLines, context, f)
  {
    var (d, e, f) := FixedTail(context, c);
    WithoutFlagged(ZeroDuration, context, c);
    RemovalKeepsSilence(ZeroDuration, EmptyEvents, context, d);
    RemovalKeepsSilence(ZeroDuration, DuplicateLines, context, e);
    WithoutFlagged(EmptyEvents, context, d);
    RemovalKeepsSilence(EmptyEvents, DuplicateLines, context, e);
    WithoutFlagged(DuplicateLines, context, e);
  }

  // ---- the score -------------------------------------------------------------------------------

  function Points(severity: Severity): nat {
    match severity
    case Error => 10
    case Warning => 3
    case Info => 1
  }

  function Penalty(issues: seq<Issue>): nat {
    if issues == [] then 0 else Penalty(issues[..|issues| - 1]) + Points(issues[|issues| - 1].severity)
  }

  function Max(a: int, b: int): int { if a >= b then a else b }

  function Score(issues: seq<Issue>): int {
    Max(0, 100 - Penalty(issues))
  }

  function SeverityOf(check: Check): Severity {
    match check
    case MissingStyles | NegativeTiming => Error
    case DuplicateLines | EmptyEvents | ZeroDuration | TimingOverlaps => Warning
    case ExcessiveDuration | LineTooLong | MissingNewlines => Info
  }

  // An overlap is charged to the event that starts too early, and is an error from half a second on.
  function IssueAt(check: Check, cues: seq<Cue>, i: nat): Issue
    requires i < |cues|
  {
    if check.TimingOverlaps? then
      match Next(cues, i, |cues|)
      case None => Issue(check, Warning, i + 1)
      case Some(j) => Issue(check, if cues[i].end - cues[j].start >= 500 then Error else Warning, j + 1)
    else Issue(check, SeverityOf(check), i + 1)
  }

  function IssuesAt(check: Check, cues: seq<Cue>, ids: seq<nat>): (issues: seq<Issue>)
    requires forall k :: 0 <= k < |ids| ==> ids[k] < |cues|
    ensures |issues| == |ids|
  {
    seq(|ids|, k requires 0 <= k < |ids| => IssueAt(check, cues, ids[k]))
  }

  function IssuesOf(check: Check, context: Context, cues: seq<Cue>): seq<Issue> {
    IssuesAt(check, cues, Flagged(check, context, cues, |cues|))
  }

  function PenaltyOf(check: Check, context: Context, cues: seq<Cue>): nat {
    Penalty(IssuesOf(check, context, cues))
  }

  const ALL_CHECKS: seq<Check> :=
    [DuplicateLines, TimingOverlaps, MissingStyles, EmptyEvents, ExcessiveDuration, NegativeTiming, ZeroDuration,
     LineTooLong, MissingNewlines]

  function Sum(f: Check -> nat, checks: seq<Check>): nat {
    if checks == [] then 0 else f(checks[0]) + Sum(f, checks[1..])
  }

  // The cost of each check.
  function Costs(context: Context, cues: seq<Cue>): Check -> nat {
    check => PenaltyOf(check, context, cues)
  }

  function TotalPenalty(context: Context, cues: seq<Cue>): nat {
    Sum(Costs(context, cues), ALL_CHECKS)
  }

  // The score of a file whose encoding check costs `encoding` points.
  function HealthScore(encoding: nat, context: Context, cues: seq<Cue>): int {
    Max(0, 100 - encoding - TotalPenalty(context, cues))
  }

  // What an issue says: errors are undefined styles and inverted events, infos are about length and layout; the line
  // counts from one.
  lemma IssueReads(check: Check, cues: seq<Cue>, i: nat)
    requires i < |cues| && check != TimingOverlaps
    ensures var issue := IssueAt(check, cues, i);
      && issue.check == check && issue.line == i + 1
      && (issue.severity == Error <==> check in {MissingStyles, NegativeTiming})
      && (issue.severity == Info <==> check in {ExcessiveDuration, LineTooLong, MissingNewlines})
  {
  }

  // An overlap is reported at the next event of the group, as an error from half a second on.
  lemma OverlapIssueReads(context: Context, cues: seq<Cue>, i: nat) returns (j: nat)
    requires i < |cues| && Bad(TimingOverlaps, context, cues, i)
    ensures j < |cues| && RunsInto(cues, i, j)
    ensures forall k :: 0 <= k < |cues| && RunsInto(cues, i, k) ==>
      cues[j].start < cues[k].start || (cues[j].start == cues[k].start && j <= k)
    ensures IssueAt(TimingOverlaps, cues, i)
      == Issue(TimingOverlaps, if cues[i].end - cues[j].start >= 500 then Error else Warning, j + 1)
  {
    j := Next(cues, i, |cues|).value;
    forall k | 0 <= k < |cues| && RunsInto(cues, i, k)
      ensures Before(cues, i, k)
    {
    }
  }

  lemma NoPenaltyIsSilent(check: Check, context: Context, cues: seq<Cue>)
    ensures PenaltyOf(check, context, cues) == 0 <==> Silent(check, context, cues)
  {
    var issues := IssuesOf(check, context, cues);
    if issues != [] {
      assert Points(issues[|issues| - 1].severity) > 0;
    }
  }

  // The score starts at 100, loses the points of every issue, and ends at 0; it is full exactly when no check has
  // anything to say.
  lemma ScoreMeans(encoding: nat, context: Context, cues: seq<Cue>)
    ensures var lost := encoding + PenaltyOf(DuplicateLines, context, cues) + PenaltyOf(TimingOverlaps, context, cues)
        + PenaltyOf(MissingStyles, context, cues) + PenaltyOf(EmptyEvents, context, cues)
        + PenaltyOf(ExcessiveDuration, context, cues) + PenaltyOf(NegativeTiming, context, cues)
        + PenaltyOf(ZeroDuration, context, cues) + PenaltyOf(LineTooLong, context, cues)
        + PenaltyOf(MissingNewlines, context, cues);
      HealthScore(encoding, context, cues) == if lost <= 100 then 100 - lost else 0
    ensures HealthScore(encoding, context, cues) == 100 <==>
      encoding == 0 && forall check :: Silent(check, context, cues)
  {
    hide PenaltyOf, Silent, Sum;
    UnrollSum(Costs(context, cues));
    forall check
      ensures PenaltyOf(check, context, cues) == 0 <==> Silent(check, context, cues)
    {
      NoPenaltyIsSilent(check, context, cues);
    }
    if HealthScore(encoding, context, cues) == 100 {
      forall check
        ensures Silent(check, context, cues)
      {
        match check {
          case DuplicateLines | TimingOverlaps | MissingStyles | EmptyEvents | ExcessiveDuration =>
          case NegativeTiming | ZeroDuration | LineTooLong | MissingNewlines =>
        }
      }
    }
  }

  // The score of a list of issues: ten points for an error, three for a warning, one for an info.
  lemma {:induction false} ScoreOfIssues(issues: seq<Issue>, issue: Issue)
    ensures Score([]) == 100
    ensures Score(issues + [issue])
      == Max(0, Score(issues) - match issue.severity case Error => 10 case Warning => 3 case Info => 1)
  {
    assert (issues + [issue])[..|issues|] == issues;
  }

  // ---- the score never drops -------------------------------------------------------------------

  function Count(check: Check, context: Context, cues: seq<Cue>): nat {
    |Flagged(check, context, cues, |cues|)|
  }

  predicate PerEvent(check: Check) {
    !check.DuplicateLines? && !check.TimingOverlaps?
  }

  lemma {:induction false} PenaltyCounts(check: Check, cues: seq<Cue>, ids: seq<nat>)
    requires check != TimingOverlaps && forall k :: 0 <= k < |ids| ==> ids[k] < |cues|
    ensures Penalty(IssuesAt(check, cues, ids)) == Points(SeverityOf(check)) * |ids|
  {
    if ids == [] {
    } else {
      var front := ids[..|ids| - 1];
      PenaltyCounts(check, cues, front);
      assert IssuesAt(check, cues, ids)[..|front|] == IssuesAt(check, cues, front);
    }
  }

  lemma {:induction false} CountCost(check: Check, context: Context, cues: seq<Cue>)
    requires check != TimingOverlaps
    ensures PenaltyOf(check, context, cues) == Points(SeverityOf(check)) * Count(check, context, cues)
  {
    PenaltyCounts(check, cues, Flagged(check, context, cues, |cues|));
  }

  lemma {:induction false} UnrollSum(f: Check -> nat)
    ensures Sum(f, ALL_CHECKS)
      == f(DuplicateLines) + f(TimingOverlaps) + f(MissingStyles) + f(EmptyEvents) + f(ExcessiveDuration)
       + f(NegativeTiming) + f(ZeroDuration) + f(LineTooLong) + f(MissingNewlines)
  {
    SumSplits(f, [DuplicateLines, TimingOverlaps, MissingStyles], ALL_CHECKS[3..]);
    SumSplits(f, [EmptyEvents, ExcessiveDuration, NegativeTiming], [ZeroDuration, LineTooLong, MissingNewlines]);
    SumOfThree(f, DuplicateLines, TimingOverlaps, MissingStyles);
    SumOfThree(f, EmptyEvents, ExcessiveDuration, NegativeTiming);
    SumOfThree(f, ZeroDuration, LineTooLong, MissingNewlines);
    assert ALL_CHECKS[3..] ==
      [EmptyEvents, ExcessiveDuration, NegativeTiming] + [ZeroDuration, LineTooLong, MissingNewlines];
    assert ALL_CHECKS == [DuplicateLines, TimingOverlaps, MissingStyles] + ALL_CHECKS[3..];
  }

  lemma SumOfThree(f: Check -> nat, a: Check, b: Check, c: Check)
    ensures Sum(f, [a, b, c]) == f(a) + f(b) + f(c)
  {
    assert [a, b, c][1..] == [b, c] && [b, c][1..] == [c];
    assert Sum(f, [c]) == f(c) + Sum(f, []);
  }

  lemma {:induction false} SumSplits(f: Check -> nat, xs: seq<Check>, ys: seq<Check>)
    ensures Sum(f, xs + ys) == Sum(f, xs) + Sum(f, ys)
  {
    if xs == [] {
      assert xs + ys == ys;
    } else {
      SumSplits(f, xs[1..], ys);
      assert (xs + ys)[1..] == xs[1..] + ys;
    }
  }

  // How the number of flagged events translates into points.
  predicate Weighed(f: Check -> nat, n: Check -> nat) {
    && f(DuplicateLines) == 3 * n(DuplicateLines)
    && f(MissingStyles) == 10 * n(MissingStyles)
    && f(EmptyEvents) == 3 * n(EmptyEvents)
    && f(ExcessiveDuration) == n(ExcessiveDuration)
    && f(NegativeTiming) == 10 * n(NegativeTiming)
    && f(ZeroDuration) == 3 * n(ZeroDuration)
    && f(LineTooLong) == n(LineTooLong)
    && f(MissingNewlines) == n(MissingNewlines)
  }

  function Counts(context: Context, cues: seq<Cue>): Check -> nat {
    check => Count(check, context, cues)
  }

  lemma WeighedByPoints(f: Check -> nat, n: Check -> nat)
    requires forall check :: check != TimingOverlaps ==> f(check) == Points(SeverityOf(check)) * n(check)
    ensures Weighed(f, n)
  {
  }

  lemma {:induction false} CountsWeigh(context: Context, cues: seq<Cue>)
    ensures Weighed(Costs(context, cues), Counts(context, cues))
  {
    forall check: Check | check != TimingOverlaps
      ensures Costs(context, cues)(check) == Points(SeverityOf(check)) * Counts(context, cues)(check)
    {
      CountCost(check, context, cues);
    }
    WeighedByPoints(Costs(context, cues), Counts(context, cues));
  }

  // Cheaper check by check is cheaper in total, when an event that gets too long stops being inverted.
  lemma {:induction false} CheaperSum(f: Check -> nat, n: Check -> nat, g: Check -> nat, m: Check -> nat)
    requires Weighed(f, n) && Weighed(g, m)
    requires g(TimingOverlaps) == m(DuplicateLines) == m(EmptyEvents) == m(NegativeTiming) == m(ZeroDuration) == 0
    requires m(MissingStyles) <= n(MissingStyles)
    requires m(LineTooLong) <= n(LineTooLong)
    requires m(MissingNewlines) <= n(MissingNewlines)
    requires m(ExcessiveDuration) <= n(ExcessiveDuration) + n(NegativeTiming)
    ensures Sum(g, ALL_CHECKS) <= Sum(f, ALL_CHECKS)
  {
    UnrollSum(f);
    UnrollSum(g);
  }

  // If every event that is bad now was bad before, or was bad in another way, counts obey the same bound.
  lemma {:induction false} CountBound(check: Check, other: Check, context: Context, xs: seq<Cue>, ys: seq<Cue>, n: nat)
    requires n <= |xs| == |ys|
    requires forall i :: 0 <= i < n && Bad(check, context, ys, i) ==>
      Bad(check, context, xs, i) || Bad(other, context, xs, i)
    ensures |Flagged(check, context, ys, n)| <= |Flagged(check, context, xs, n)| + |Flagged(other, context, xs, n)|
  {
    if n == 0 {
    } else {
      CountBound(check, other, context, xs, ys, n - 1);
    }
  }

  lemma {:induction false} CountMonotone(check: Check, context: Context, xs: seq<Cue>, ys: seq<Cue>, n: nat)
    requires n <= |xs| == |ys|
    requires forall i :: 0 <= i < n && Bad(check, context, ys, i) ==> Bad(check, context, xs, i)
    ensures |Flagged(check, context, ys, n)| <= |Flagged(check, context, xs, n)|
  {
    if n == 0 {
    } else {
      CountMonotone(check, context, xs, ys, n - 1);
    }
  }

  lemma {:induction false} KeptStep(cues: seq<Cue>, removed: set<nat>, n: nat)
    requires n < |cues|
    ensures var m, rest := |Kept(0, n, removed)|, Without(cues, removed);
      if n in removed then |Kept(0, n + 1, removed)| == m
      else |Kept(0, n + 1, removed)| == m + 1 && m < |rest| && rest[m] == cues[n]
  {
    KeptSplits(0, n, n + 1, removed);
    assert Kept(n + 1, n + 1, removed) == [];
    if n !in removed {
      KeptFinds(0, n, |cues|, removed);
    }
  }

  // What a check charges for one event.
  function ChargeAt(check: Check, context: Context, cues: seq<Cue>, i: nat): nat
    requires i < |cues|
  {
    if Bad(check, context, cues, i) then Points(IssueAt(check, cues, i).severity) else 0
  }

  function Charges(check: Check, context: Context, cues: seq<Cue>, n: nat): nat
    requires n <= |cues|
  {
    if n == 0 then 0 else Charges(check, context, cues, n - 1) + ChargeAt(check, context, cues, n - 1)
  }

  lemma OneMoreIssue(check: Check, cues: seq<Cue>, ids: seq<nat>, i: nat)
    requires i < |cues| && forall k :: 0 <= k < |ids| ==> ids[k] < |cues|
    ensures Penalty(IssuesAt(check, cues, ids + [i]))
      == Penalty(IssuesAt(check, cues, ids)) + Points(IssueAt(check, cues, i).severity)
  {
    hide IssueAt;
    assert IssuesAt(check, cues, ids + [i])[..|ids|] == IssuesAt(check, cues, ids);
  }

  lemma {:induction false} ChargesAreIssues(check: Check, context: Context, cues: seq<Cue>, n: nat)
    requires n <= |cues|
    ensures Penalty(IssuesAt(check, cues, Flagged(check, context, cues, n))) == Charges(check, context, cues, n)
  {
    if n == 0 {
    } else {
      hide IssueAt, IssuesAt, Penalty, Bad;
      ChargesAreIssues(check, context, cues, n - 1);
      var before := Flagged(check, context, cues, n - 1);
      OneMoreIssue(check, cues, before, n - 1);
      assert before + [] == before;
    }
  }

  lemma PenaltyIsCharges(check: Check, context: Context, cues: seq<Cue>)
    ensures PenaltyOf(check, context, cues) == Charges(check, context, cues, |cues|)
  {
    ChargesAreIssues(check, context, cues, |cues|);
  }

  // Where an event stands after a removal, and that it keeps its order relative to the others.
  ghost predicate StandsAt(cues: seq<Cue>, rest: seq<Cue>, ids: seq<nat>, m: nat, i: nat) {
    && |ids| == |rest| && m < |ids| && ids[m] == i && i < |cues|
    && (forall k :: 0 <= k < |ids| ==> ids[k] < |cues| && rest[k] == cues[ids[k]])
    && (forall j, k :: 0 <= j < k < |ids| ==> ids[j] < ids[k])
  }

  lemma KeptStands(cues: seq<Cue>, removed: set<nat>, i: nat)
    requires i < |cues| && i !in removed
    ensures StandsAt(cues, Without(cues, removed), Kept(0, |cues|, removed), |Kept(0, i, removed)|, i)
  {
    KeptFinds(0, i, |cues|, removed);
  }

  lemma StandsBefore(cues: seq<Cue>, rest: seq<Cue>, ids: seq<nat>, m: nat, i: nat, k: nat)
    requires StandsAt(cues, rest, ids, m, i) && k < |ids|
    ensures ids[k] < |cues| && Before(rest, m, k) == Before(cues, i, ids[k])
  {
    assert m < k ==> ids[m] < ids[k];
    assert k < m ==> ids[k] < ids[m];
  }

  lemma {:induction false} WasBad(check: Check, context: Context, cues: seq<Cue>, rest: seq<Cue>, ids: seq<nat>,
      m: nat, i: nat)
    requires StandsAt(cues, rest, ids, m, i) && Bad(check, context, rest, m)
    ensures Bad(check, context, cues, i)
  {
    if check.TimingOverlaps? {
      var k :| 0 <= k < |rest| && Before(rest, m, k) && rest[k].start < rest[m].end;
      StandsBefore(cues, rest, ids, m, i, k);
    } else if check.DuplicateLines? {
      var k :| 0 <= k < m && !rest[k].isComment && SameLine(rest[k], rest[m]);
      assert ids[k] < ids[m];
    }
  }

  // The next event of the group can only come later when events are removed, so an overlap shrinks.
  lemma {:induction false} OverlapShrinks(cues: seq<Cue>, rest: seq<Cue>, ids: seq<nat>, m: nat, i: nat)
    requires StandsAt(cues, rest, ids, m, i) && Next(rest, m, |rest|).Some?
    ensures Next(cues, i, |cues|).Some?
    ensures cues[Next(cues, i, |cues|).value].start <= rest[Next(rest, m, |rest|).value].start
  {
    hide Next;
    var k := Next(rest, m, |rest|).value;
    StandsBefore(cues, rest, ids, m, i, k);
    assert Before(cues, i, ids[k]);
  }

  lemma {:induction false} ChargeShrinks(check: Check, context: Context, cues: seq<Cue>, rest: seq<Cue>,
      ids: seq<nat>, m: nat, i: nat)
    requires StandsAt(cues, rest, ids, m, i)
    ensures ChargeAt(check, context, rest, m) <= ChargeAt(check, context, cues, i)
  {
    hide Bad, Next;
    if Bad(check, context, rest, m) {
      WasBad(check, context, cues, rest, ids, m, i);
      if check.TimingOverlaps? && Next(rest, m, |rest|).Some? {
        OverlapShrinks(cues, rest, ids, m, i);
      }
    }
  }

  lemma {:induction false} WithoutCharges(check: Check, context: Context, cues: seq<Cue>, removed: set<nat>, n: nat)
    requires n <= |cues|
    ensures |Kept(0, n, removed)| <= |Without(cues, removed)|
    ensures Charges(check, context, Without(cues, removed), |Kept(0, n, removed)|) <= Charges(check, context, cues, n)
  {
    hide Kept, Without, Charges;
    if n == 0 {
      NoCharges(check, context, cues, removed);
    } else {
      WithoutCharges(check, context, cues, removed, n - 1);
      ChargeStep(check, context, cues, removed, n - 1);
    }
  }

  lemma NoCharges(check: Check, context: Context, cues: seq<Cue>, removed: set<nat>)
    ensures |Kept(0, 0, removed)| == 0 && Charges(check, context, Without(cues, removed), 0) == 0
  {
  }

  lemma ChargeStep(check: Check, context: Context, cues: seq<Cue>, removed: set<nat>, n: nat)
    requires n < |cues| && |Kept(0, n, removed)| <= |Without(cues, removed)|
    requires Charges(check, context, Without(cues, removed), |Kept(0, n, removed)|) <= Charges(check, context, cues, n)
    ensures |Kept(0, n + 1, removed)| <= |Without(cues, removed)|
    ensures Charges(check, context, Without(cues, removed), |Kept(0, n + 1, removed)|)
      <= Charges(check, context, cues, n + 1)
  {
    hide Kept, Without, ChargeAt;
    KeptStep(cues, removed, n);
    if n !in removed {
      KeptStands(cues, removed, n);
      ChargeShrinks(check, context, cues, Without(cues, removed), Kept(0, |cues|, removed), |Kept(0, n, removed)|, n);
    }
  }

  // Deleting events makes no check more expensive.
  lemma WithoutNeverCosts(check: Check, context: Context, cues: seq<Cue>, removed: set<nat>)
    ensures PenaltyOf(check, context, Without(cues, removed)) <= PenaltyOf(check, context, cues)
  {
    WithoutCharges(check, context, cues, removed, |cues|);
    PenaltyIsCharges(check, context, cues);
    PenaltyIsCharges(check, context, Without(cues, removed));
  }

  // So a fix that only deletes never lowers the score.
  lemma {:induction false} RemovalKeepsScore(fix: Check, encoding: nat, context: Context, cues: seq<Cue>)
    requires IsRemoval(fix)
    ensures HealthScore(encoding, context, Fixed(fix, context, cues)) >= HealthScore(encoding, context, cues)
  {
    hide Fixed, PenaltyOf, Sum;
    var fixed := Fixed(fix, context, cues);
    RemovalIs(fix, context, cues);
    forall check
      ensures PenaltyOf(check, context, fixed) <= PenaltyOf(check, context, cues)
    {
      WithoutNeverCosts(check, context, cues, Elements(Flagged(fix, context, cues, |cues|)));
    }
    UnrollSum(Costs(context, cues));
    UnrollSum(Costs(context, fixed));
  }

  lemma {:induction false} RemovalCount(check: Check, fix: Check, context: Context, cues: seq<Cue>)
    requires check != TimingOverlaps && IsRemoval(fix)
    ensures Count(check, context, Fixed(fix, context, cues)) <= Count(check, context, cues)
  {
    hide Fixed, PenaltyOf, Count;
    RemovalIs(fix, context, cues);
    WithoutNeverCosts(check, context, cues, Elements(Flagged(fix, context, cues, |cues|)));
    CountCost(check, context, cues);
    CountCost(check, context, Fixed(fix, context, cues));
  }

  lemma {:induction false} RemovalsCount(check: Check, context: Context, c: seq<Cue>)
    requires check != TimingOverlaps
    ensures Count(check, context, FixedTail(context, c).2) <= Count(check, context, c)
  {
    RemovalCount(check, ZeroDuration, context, c);
    RemovalCount(check, EmptyEvents, context, FixedTail(context, c).0);
    RemovalCount(check, DuplicateLines, context, FixedTail(context, c).1);
  }

  // Swapping an inverted event can make it too long, at one point instead of ten; nothing else gets worse.
  lemma {:induction false} RewritesCount(context: Context, cues: seq<Cue>)
    ensures var c := Trimmed(Untangled(context, Restyled(context, cues)));
      && Count(MissingStyles, context, c) <= Count(MissingStyles, context, cues)
      && Count(LineTooLong, context, c) <= Count(LineTooLong, context, cues)
      && Count(MissingNewlines, context, c) <= Count(MissingNewlines, context, cues)
      && Count(ExcessiveDuration, context, c)
         <= Count(ExcessiveDuration, context, cues) + Count(NegativeTiming, context, cues)
  {
    var c := Trimmed(Untangled(context, Restyled(context, cues)));
    forall i | 0 <= i < |cues| {
      RewritesPointwise(context, cues, i);
    }
    CountMonotone(MissingStyles, context, cues, c, |cues|);
    CountMonotone(LineTooLong, context, cues, c, |cues|);
    CountMonotone(MissingNewlines, context, cues, c, |cues|);
    CountBound(ExcessiveDuration, NegativeTiming, context, cues, c, |cues|);
  }

  // What the three rewriting fixes can do to one event.
  lemma {:induction false} RewriteAt(context: Context, cues: seq<Cue>, i: nat)
    requires i < |cues|
    ensures var c := Trimmed(Untangled(context, Restyled(context, cues)));
      && c[i].text == cues[i].text && c[i].isComment == cues[i].isComment
      && c[i].style == (if Bad(MissingStyles, context, cues, i) then "Default" else cues[i].style)
      && c[i].end - c[i].start <= Max(cues[i].end - cues[i].start,
           if Bad(NegativeTiming, context, cues, i) then cues[i].start - cues[i].end else cues[i].end - cues[i].start)
  {
    var a := Restyled(context, cues);
    var b := Untangled(context, a);
    assert Trimmed(b)[i] == b[i].(end := TrimmedEnd(b, i)) && TrimmedEnd(b, i) <= b[i].end;
    assert Bad(NegativeTiming, context, a, i) == Bad(NegativeTiming, context, cues, i);
  }

  lemma {:induction false} RewritesPointwise(context: Context, cues: seq<Cue>, i: nat)
    requires i < |cues|
    ensures var c := Trimmed(Untangled(context, Restyled(context, cues)));
      && (Bad(MissingStyles, context, c, i) ==> Bad(MissingStyles, context, cues, i))
      && (Bad(LineTooLong, context, c, i) ==> Bad(LineTooLong, context, cues, i))
      && (Bad(MissingNewlines, context, c, i) ==> Bad(MissingNewlines, context, cues, i))
      && (Bad(ExcessiveDuration, context, c, i)
          ==> Bad(ExcessiveDuration, context, cues, i) || Bad(NegativeTiming, context, cues, i))
  {
    RewriteAt(context, cues, i);
  }

  lemma SilentCosts(check: Check, context: Context, cues: seq<Cue>)
    requires Silent(check, context, cues)
    ensures Count(check, context, cues) == 0 && PenaltyOf(check, context, cues) == 0
  {
  }

  lemma {:induction false} FixedCosts(context: Context, cues: seq<Cue>)
    ensures var fixed := FixedAll(FIX_ORDER, context, cues);
      && PenaltyOf(TimingOverlaps, context, fixed) == 0
      && Count(DuplicateLines, context, fixed) == 0
      && Count(EmptyEvents, context, fixed) == 0
      && Count(NegativeTiming, context, fixed) == 0
      && Count(ZeroDuration, context, fixed) == 0
  {
    var fixed := FixedAll(FIX_ORDER, context, cues);
    FixOrderSilences(context, cues);
    SilentCosts(TimingOverlaps, context, fixed);
    SilentCosts(DuplicateLines, context, fixed);
    SilentCosts(EmptyEvents, context, fixed);
    SilentCosts(NegativeTiming, context, fixed);
    SilentCosts(ZeroDuration, context, fixed);
  }

  lemma {:induction false} FixedCounts(context: Context, cues: seq<Cue>)
    ensures var fixed := FixedAll(FIX_ORDER, context, cues);
      && Count(MissingStyles, context, fixed) <= Count(MissingStyles, context, cues)
      && Count(LineTooLong, context, fixed) <= Count(LineTooLong, context, cues)
      && Count(MissingNewlines, context, fixed) <= Count(MissingNewlines, context, cues)
      && Count(ExcessiveDuration, context, fixed)
         <= Count(ExcessiveDuration, context, cues) + Count(NegativeTiming, context, cues)
  {
    var c := Trimmed(Untangled(context, Restyled(context, cues)));
    UnrollFixOrder(context, cues);
    RewritesCount(context, cues);
    RemovalsCount(MissingStyles, context, c);
    RemovalsCount(LineTooLong, context, c);
    RemovalsCount(MissingNewlines, context, c);
    RemovalsCount(ExcessiveDuration, context, c);
  }

  // Fixing everything in this order never lowers the score, whatever styles are defined.
  lemma {:induction false} FixOrderKeepsScore(encoding: nat, context: Context, cues: seq<Cue>)
    ensures HealthScore(encoding, context, FixedAll(FIX_ORDER, context, cues)) >= HealthScore(encoding, context, cues)
  {
    var fixed := FixedAll(FIX_ORDER, context, cues);
    FixedCosts(context, cues);
    FixedCounts(context, cues);
    CountsWeigh(context, cues);
    CountsWeigh(context, fixed);
    CheaperSum(Costs(context, cues), Counts(context, cues), Costs(context, fixed), Counts(context, fixed));
  }

  // ---- what the fixes leave alone --------------------------------------------------------------

  // The comments among the first n events.
  function CommentsOf(cues: seq<Cue>, n: nat): seq<Cue>
    requires n <= |cues|
  {
    if n == 0 then []
    else if cues[n - 1].isComment then CommentsOf(cues, n - 1) + [cues[n - 1]]
    else CommentsOf(cues, n - 1)
  }

  // A comment is in there as often as it occurs.
  lemma {:induction false} CommentsAre(cues: seq<Cue>, n: nat, comment: Cue)
    requires n <= |cues| && comment.isComment
    ensures multiset(CommentsOf(cues, n))[comment] == multiset(cues[..n])[comment]
    ensures forall c :: c in CommentsOf(cues, n) ==> c.isComment
  {
    if n == 0 {
    } else {
      CommentsAre(cues, n - 1, comment);
      assert cues[..n] == cues[..n - 1] + [cues[n - 1]];
    }
  }

  lemma {:induction false} RewriteKeepsComments(cues: seq<Cue>, changed: seq<Cue>, n: nat)
    requires n <= |cues| == |changed|
    requires forall i :: 0 <= i < |cues| ==> changed[i].isComment == cues[i].isComment
    requires forall i :: 0 <= i < |cues| && cues[i].isComment ==> changed[i] == cues[i]
    ensures CommentsOf(changed, n) == CommentsOf(cues, n)
  {
    if n == 0 {
    } else {
      RewriteKeepsComments(cues, changed, n - 1);
    }
  }

  lemma {:induction false} WithoutKeepsComments(cues: seq<Cue>, removed: set<nat>, n: nat)
    requires n <= |cues| && forall i :: 0 <= i < |cues| && i in removed ==> !cues[i].isComment
    ensures |Kept(0, n, removed)| <= |Without(cues, removed)|
    ensures CommentsOf(Without(cues, removed), |Kept(0, n, removed)|) == CommentsOf(cues, n)
  {
    if n > 0 {
      WithoutKeepsComments(cues, removed, n - 1);
      KeptStep(cues, removed, n - 1);
    }
  }

  lemma {:induction false} FixKeepsComments(fix: Check, context: Context, cues: seq<Cue>)
    ensures CommentsOf(Fixed(fix, context, cues), |Fixed(fix, context, cues)|) == CommentsOf(cues, |cues|)
  {
    if IsRemoval(fix) {
      FlaggedExact(fix, context, cues, |cues|);
      RemovalIs(fix, context, cues);
      hide Fixed, CommentsOf, Flagged, Kept;
      WithoutKeepsComments(cues, Elements(Flagged(fix, context, cues, |cues|)), |cues|);
    } else {
      hide CommentsOf;
      RewriteKeepsComments(cues, Fixed(fix, context, cues), |cues|);
    }
  }

  // Whatever fixes are applied, in whatever order: every comment survives, unchanged and in order.
  lemma {:induction false} CommentsSurvive(names: seq<Check>, context: Context, cues: seq<Cue>)
    ensures var fixed := FixedAll(names, context, cues); CommentsOf(fixed, |fixed|) == CommentsOf(cues, |cues|)
    decreases |names|
  {
    hide Fixed, CommentsOf;
    if names == [] {
    } else {
      FixKeepsComments(names[0], context, cues);
      CommentsSurvive(names[1..], context, Fixed(names[0], context, cues));
    }
  }

  // Removing duplicates removes no line altogether: an equal event is left for each.
  lemma {:induction false} EveryLineKept(context: Context, cues: seq<Cue>, i: nat) returns (k: nat)
    requires i < |cues| && !cues[i].isComment
    ensures var rest := Fixed(DuplicateLines, context, cues);
      k < |rest| && !rest[k].isComment && SameLine(rest[k], cues[i])
  {
    if IsDuplicate(cues, i) {
      var j :| 0 <= j < i && !cues[j].isComment && SameLine(cues[j], cues[i]);
      k := EveryLineKept(context, cues, j);
    } else {
      var removed := Elements(Flagged(DuplicateLines, context, cues, |cues|));
      FlaggedExact(DuplicateLines, context, cues, |cues|);
      KeptFinds(0, i, |cues|, removed);
      k := |Kept(0, i, removed)|;
    }
  }

  // ---- order matters ---------------------------------------------------------------------------

  // A fix leaves the events alone when its check has nothing to say.
  lemma {:induction false} NothingFlagged(fix: Check, context: Context, cues: seq<Cue>)
    requires Silent(fix, context, cues)
    ensures Fixed(fix, context, cues) == cues
  {
    SilentMeansNoneBad(fix, context, cues);
    match fix {
      case TimingOverlaps =>
        forall i | 0 <= i < |cues|
          ensures TrimmedEnd(cues, i) == cues[i].end
        {
          assert !Bad(TimingOverlaps, context, cues, i);
        }
      case MissingStyles =>
      case NegativeTiming =>
      case _ =>
        KeptRun(0, |cues|, |cues|, {});
        assert Elements([]) == {};
    }
  }

  // The order in which the fixes are listed in the source is not good enough: overlaps are trimmed before
  // inverted events are swapped, so an overlap can survive.
  const LISTED_ORDER: seq<Check> :=
    [DuplicateLines, TimingOverlaps, MissingStyles, EmptyEvents, NegativeTiming, ZeroDuration]

  const INVERTED := Cue(10, 0, "a", "Default", 0, false)
  const SHORT := Cue(5, 8, "b", "Default", 0, false)
  const TANGLED: seq<Cue> := [INVERTED, SHORT]
  const SWAPPED: seq<Cue> := [Swapped(INVERTED), SHORT]

  lemma {:induction false} ListedOrderLeavesOverlap(context: Context)
    requires context.styles == {} && !context.texts.empty("a") && !context.texts.empty("b")
    ensures !Silent(TimingOverlaps, context, FixedAll(LISTED_ORDER, context, TANGLED))
  {
    ListedOrderOnlySwaps(context);
    UnrollSix(LISTED_ORDER, context, TANGLED);
    SwappedOverlaps(context);
  }

  lemma {:induction false} SwappedOverlaps(context: Context)
    ensures !Silent(TimingOverlaps, context, SWAPPED)
  {
    assert Before(SWAPPED, 0, 1);
    assert Bad(TimingOverlaps, context, SWAPPED, 0);
    SilentMeansNoneBad(TimingOverlaps, context, SWAPPED);
  }

  lemma {:induction false} ListedOrderOnlySwaps(context: Context)
    requires context.styles == {} && !context.texts.empty("a") && !context.texts.empty("b")
    ensures Fixed(DuplicateLines, context, TANGLED) == TANGLED
    ensures Fixed(TimingOverlaps, context, TANGLED) == TANGLED
    ensures Fixed(MissingStyles, context, TANGLED) == TANGLED
    ensures Fixed(EmptyEvents, context, TANGLED) == TANGLED
    ensures Fixed(NegativeTiming, context, TANGLED) == SWAPPED
    ensures Fixed(ZeroDuration, context, SWAPPED) == SWAPPED
  {
    TangledOnlyInverted(context);
    NotFlagged(DuplicateLines, context, TANGLED);
    NotFlagged(TimingOverlaps, context, TANGLED);
    NotFlagged(MissingStyles, context, TANGLED);
    NotFlagged(EmptyEvents, context, TANGLED);
    NotFlagged(ZeroDuration, context, SWAPPED);
  }

  lemma {:induction false} TangledOnlyInverted(context: Context)
    requires context.styles == {} && !context.texts.empty("a") && !context.texts.empty("b")
    ensures forall check | check in FIX_ORDER && check != NegativeTiming ::
      !Bad(check, context, TANGLED, 0) && !Bad(check, context, TANGLED, 1)
    ensures !Bad(ZeroDuration, context, SWAPPED, 0) && !Bad(ZeroDuration, context, SWAPPED, 1)
    ensures Fixed(NegativeTiming, context, TANGLED) == SWAPPED
  {
    assert Untangled(context, TANGLED) == SWAPPED;
  }

  lemma {:induction false} NotFlagged(fix: Check, context: Context, cues: seq<Cue>)
    requires |cues| == 2 && !Bad(fix, context, cues, 0) && !Bad(fix, context, cues, 1)
    ensures Fixed(fix, context, cues) == cues
  {
    SilentMeansNoneBad(fix, context, cues);
    NothingFlagged(fix, context, cues);
  }

  // Six fixes, the first one innermost.
  lemma {:induction false} UnrollSix(names: seq<Check>, context: Context, cues: seq<Cue>)
    requires |names| == 6
    ensures FixedAll(names, context, cues)
      == Fixed(names[5], context, Fixed(names[4], context, Fixed(names[3], context,
         Fixed(names[2], context, Fixed(names[1], context, Fixed(names[0], context, cues))))))
  {
    var a := FirstFix(names, context, cues);
    var b := FirstFix(names[1..], context, a);
    var c := FirstFix(names[1..][1..], context, b);
    var d := FirstFix(names[1..][1..][1..], context, c);
    var e := FirstFix(names[1..][1..][1..][1..], context, d);
    var f := FirstFix(names[1..][1..][1..][1..][1..], context, e);
    assert names[1..][1..][1..][1..][1..][1..] == [];
  }

  lemma FirstFix(names: seq<Check>, context: Context, cues: seq<Cue>) returns (fixed: seq<Cue>)
    requires names != []
    ensures fixed == Fixed(names[0], context, cues)
    ensures FixedAll(names, context, cues) == FixedAll(names[1..], context, fixed)
  {
    fixed := Fixed(names[0], context, cues);
  }
}

/** For which lists of requested fixes every check is silent afterwards, whatever the events. */
module FixOrders {
  import opened IndexDeletion
  import opened PyText
  import opened Subtitles
  import opened HealthSpec

  predicate AllSilent(context: Context, cues: seq<Cue>) {
    forall check :: check in FIX_ORDER ==> Silent(check, context, cues)
  }

  // Position k trims overlaps, with the styles and the inverted events already dealt with.
  predicate TrimsInTime(names: seq<Check>, k: nat) {
    && k < |names| && names[k] == TimingOverlaps
    && MissingStyles in names[..k] && NegativeTiming in names[..k]
  }

  // What a list of fixes has to look like: styles and inverted events before overlaps, and after the overlaps
  // the zero durations and the duplicates that trimming makes; empty events anywhere.
  predicate WorkingOrder(names: seq<Check>) {
    && EmptyEvents in names
    && exists k :: 0 <= k < |names| && TrimsInTime(names, k)
         && ZeroDuration in names[k..] && DuplicateLines in names[k..]
  }

  lemma {:induction false} FixedAllConcat(a: seq<Check>, b: seq<Check>, context: Context, cues: seq<Cue>)
    ensures FixedAll(a + b, context, cues) == FixedAll(b, context, FixedAll(a, context, cues))
    decreases |a|
  {
    hide Fixed;
    if a == [] {
      assert a + b == b;
    } else {
      assert (a + b)[1..] == a[1..] + b;
      FixedAllConcat(a[1..], b, context, Fixed(a[0], context, cues));
    }
  }

  lemma FixedAllSnoc(a: seq<Check>, fix: Check, context: Context, cues: seq<Cue>)
    ensures FixedAll(a + [fix], context, cues) == Fixed(fix, context, FixedAll(a, context, cues))
  {
    hide Fixed;
    var last := [fix];
    FixedAllConcat(a, last, context, cues);
    assert last[1..] == [];
  }

  // ---- these lists work --------------------------------------------------------------------------

  // No fix ever brings back an undefined style, an inverted event or an empty one.
  lemma {:induction false} StaysSilent(check: Check, fix: Check, context: Context, cues: seq<Cue>)
    requires check == MissingStyles || check == NegativeTiming || check == EmptyEvents
    requires Silent(check, context, cues) && "Default" in context.styles
    ensures Silent(check, context, Fixed(fix, context, cues))
  {
    if IsRemoval(fix) {
      RemovalKeepsSilence(check, fix, context, cues);
    } else if check == NegativeTiming && fix == TimingOverlaps {
      TrimmedKeepsOrder(context, cues);
    } else {
      var fixed := Fixed(fix, context, cues);
      SilentMeansNoneBad(check, context, cues);
      SilentMeansNoneBad(check, context, fixed);
      forall i | 0 <= i < |fixed|
        ensures !Bad(check, context, fixed, i)
      {
        assert !Bad(check, context, cues, i);
      }
    }
  }

  lemma {:induction false} OwnFixSilences(check: Check, context: Context, cues: seq<Cue>)
    requires check in FIX_ORDER && "Default" in context.styles
    ensures Silent(check, context, Fixed(check, context, cues))
  {
    match check {
      case MissingStyles => RestyledSilent(context, cues);
      case NegativeTiming => UntangledSilent(context, cues);
      case TimingOverlaps => TrimmedSilent(context, cues);
      case _ => WithoutFlagged(check, context, cues);
    }
  }

  lemma {:induction false} SilentFromThenOn(check: Check, names: seq<Check>, context: Context, cues: seq<Cue>)
    requires check == MissingStyles || check == NegativeTiming || check == EmptyEvents
    requires check in names || Silent(check, context, cues)
    requires "Default" in context.styles
    ensures Silent(check, context, FixedAll(names, context, cues))
    decreases |names|
  {
    hide Fixed, Silent;
    if names == [] {
    } else {
      if names[0] == check {
        OwnFixSilences(check, context, cues);
      } else if Silent(check, context, cues) {
        StaysSilent(check, names[0], context, cues);
      }
      SilentFromThenOn(check, names[1..], context, Fixed(names[0], context, cues));
    }
  }

  // Nothing is left for the rewriting fixes to do.
  predicate Settled(context: Context, cues: seq<Cue>) {
    && Silent(MissingStyles, context, cues) && Silent(NegativeTiming, context, cues)
    && Silent(TimingOverlaps, context, cues)
  }

  // From then on no fix makes any silent check speak.
  lemma {:induction false} SettledStays(check: Check, fix: Check, context: Context, cues: seq<Cue>)
    requires Settled(context, cues) && Silent(check, context, cues)
    ensures Settled(context, Fixed(fix, context, cues)) && Silent(check, context, Fixed(fix, context, cues))
  {
    hide Silent;
    match fix {
      case DuplicateLines | EmptyEvents | ZeroDuration =>
        RemovalKeepsSilence(check, fix, context, cues);
        RemovalKeepsSilence(MissingStyles, fix, context, cues);
        RemovalKeepsSilence(NegativeTiming, fix, context, cues);
        RemovalKeepsSilence(TimingOverlaps, fix, context, cues);
      case MissingStyles | NegativeTiming | TimingOverlaps =>
        NothingFlagged(fix, context, cues);
      case _ =>
    }
  }

  lemma {:induction false} SettledAndSilent(check: Check, names: seq<Check>, context: Context, cues: seq<Cue>)
    requires check in FIX_ORDER && Settled(context, cues) && "Default" in context.styles
    requires check in names || Silent(check, context, cues)
    ensures Silent(check, context, FixedAll(names, context, cues))
    decreases |names|
  {
    hide Fixed, Silent, Settled;
    if names == [] {
    } else {
      SettledStaysSettled(names[0], context, cues);
      if names[0] == check {
        OwnFixSilences(check, context, cues);
      } else if Silent(check, context, cues) {
        SettledStays(check, names[0], context, cues);
      }
      SettledAndSilent(check, names[1..], context, Fixed(names[0], context, cues));
    }
  }

  lemma SettledStaysSettled(fix: Check, context: Context, cues: seq<Cue>)
    requires Settled(context, cues)
    ensures Settled(context, Fixed(fix, context, cues))
  {
    SettledStays(MissingStyles, fix, context, cues);
  }

  // After trimming in time nothing is left for the rewriting fixes.
  lemma {:induction false} SettledByTrim(names: seq<Check>, k: nat, context: Context, cues: seq<Cue>)
    requires TrimsInTime(names, k) && "Default" in context.styles
    ensures Settled(context, FixedAll(names[..k + 1], context, cues))
  {
    hide Silent, Fixed;
    var before := FixedAll(names[..k], context, cues);
    assert names[..k + 1] == names[..k] + [TimingOverlaps];
    FixedAllSnoc(names[..k], TimingOverlaps, context, cues);
    SilentFromThenOn(MissingStyles, names[..k], context, cues);
    SilentFromThenOn(NegativeTiming, names[..k], context, cues);
    StaysSilent(MissingStyles, TimingOverlaps, context, before);
    StaysSilent(NegativeTiming, TimingOverlaps, context, before);
    OwnFixSilences(TimingOverlaps, context, before);
  }

  // Such a list silences every check, for all styles with Default among them and all events.
  lemma {:induction false} WorkingOrderSilences(names: seq<Check>, context: Context, cues: seq<Cue>)
    requires WorkingOrder(names) && "Default" in context.styles
    ensures AllSilent(context, FixedAll(names, context, cues))
  {
    hide Silent, Fixed, FixedAll;
    var k :| 0 <= k < |names| && TrimsInTime(names, k)
      && ZeroDuration in names[k..] && DuplicateLines in names[k..];
    var settled, rest := FixedAll(names[..k + 1], context, cues), names[k + 1..];
    assert names == names[..k + 1] + rest && names[k..] == [TimingOverlaps] + rest;
    FixedAllConcat(names[..k + 1], rest, context, cues);
    SettledByTrim(names, k, context, cues);
    SettledAndSilent(MissingStyles, rest, context, settled);
    SettledAndSilent(NegativeTiming, rest, context, settled);
    SettledAndSilent(TimingOverlaps, rest, context, settled);
    SettledAndSilent(ZeroDuration, rest, context, settled);
    SettledAndSilent(DuplicateLines, rest, context, settled);
    SilentFromThenOn(EmptyEvents, names, context, cues);
  }

  // ---- the score of these lists ------------------------------------------------------------------

  // Events that are too long now, or would be if they were turned around.
  function LongOrInverted(context: Context, cues: seq<Cue>): nat {
    Count(ExcessiveDuration, context, cues) + Count(NegativeTiming, context, cues)
  }

  predicate NoWorse(context: Context, cues: seq<Cue>, fixed: seq<Cue>) {
    && Count(LineTooLong, context, fixed) <= Count(LineTooLong, context, cues)
    && Count(MissingNewlines, context, fixed) <= Count(MissingNewlines, context, cues)
    && LongOrInverted(context, fixed) <= LongOrInverted(context, cues)
  }

  lemma {:induction false} RewriteNoWorse(fix: Check, context: Context, cues: seq<Cue>)
    requires fix == MissingStyles || fix == TimingOverlaps
    ensures NoWorse(context, cues, Fixed(fix, context, cues))
  {
    var fixed := Fixed(fix, context, cues);
    CountMonotone(LineTooLong, context, cues, fixed, |cues|);
    CountMonotone(MissingNewlines, context, cues, fixed, |cues|);
    CountMonotone(ExcessiveDuration, context, cues, fixed, |cues|);
    CountMonotone(NegativeTiming, context, cues, fixed, |cues|);
  }

  lemma {:induction false} SwapNoWorse(context: Context, cues: seq<Cue>)
    ensures NoWorse(context, cues, Fixed(NegativeTiming, context, cues))
  {
    var fixed := Fixed(NegativeTiming, context, cues);
    CountMonotone(LineTooLong, context, cues, fixed, |cues|);
    CountMonotone(MissingNewlines, context, cues, fixed, |cues|);
    CountBound(ExcessiveDuration, NegativeTiming, context, cues, fixed, |cues|);
    UntangledSilent(context, cues);
  }

  // No single fix makes the remaining checks worse, counting an inverted event as one that may be too long.
  lemma {:induction false} FixNoWorse(fix: Check, context: Context, cues: seq<Cue>)
    ensures NoWorse(context, cues, Fixed(fix, context, cues))
  {
    hide Count;
    match fix {
      case MissingStyles | TimingOverlaps => RewriteNoWorse(fix, context, cues);
      case NegativeTiming => SwapNoWorse(context, cues);
      case DuplicateLines | EmptyEvents | ZeroDuration =>
        RemovalCount(LineTooLong, fix, context, cues);
        RemovalCount(MissingNewlines, fix, context, cues);
        RemovalCount(ExcessiveDuration, fix, context, cues);
        RemovalCount(NegativeTiming, fix, context, cues);
      case _ =>
    }
  }

  lemma {:induction false} FixesNoWorse(names: seq<Check>, context: Context, cues: seq<Cue>)
    ensures NoWorse(context, cues, FixedAll(names, context, cues))
    decreases |names|
  {
    hide Fixed, Count;
    if names == [] {
    } else {
      FixNoWorse(names[0], context, cues);
      FixesNoWorse(names[1..], context, Fixed(names[0], context, cues));
    }
  }

  // A list that silences the six checks never lowers the score either.
  lemma {:induction false} WorkingOrderKeepsScore(names: seq<Check>, encoding: nat, context: Context, cues: seq<Cue>)
    requires WorkingOrder(names) && "Default" in context.styles
    ensures HealthScore(encoding, context, FixedAll(names, context, cues)) >= HealthScore(encoding, context, cues)
  {
    hide FixedAll, WorkingOrder, Silent, Sum;
    var fixed := FixedAll(names, context, cues);
    WorkingOrderSilences(names, context, cues);
    SilentCosts(TimingOverlaps, context, fixed);
    SilentCosts(MissingStyles, context, fixed);
    SilentCosts(DuplicateLines, context, fixed);
    SilentCosts(EmptyEvents, context, fixed);
    SilentCosts(NegativeTiming, context, fixed);
    SilentCosts(ZeroDuration, context, fixed);
    FixesNoWorse(names, context, cues);
    CountsWeigh(context, cues);
    CountsWeigh(context, fixed);
    hide Count, PenaltyOf, Weighed;
    CheaperSum(Costs(context, cues), Counts(context, cues), Costs(context, fixed), Counts(context, fixed));
  }

  // ---- and only these -------------------------------------------------------------------------------

  // How far a list has got with an inverted event in an undefined style that overlaps another one once it is
  // turned around and restyled: `last` removes what trimming it leaves behind.
  datatype Phase = Untrimmed(restyled: bool, swapped: bool) | Trimmed | Removed

  function Step(last: Check, fix: Check, phase: Phase): Phase {
    match phase
    case Untrimmed(restyled, swapped) =>
      if fix == MissingStyles then Untrimmed(true, swapped)
      else if fix == NegativeTiming then Untrimmed(restyled, true)
      else if fix == TimingOverlaps && restyled && swapped then Phase.Trimmed
      else phase
    case Trimmed => if fix == last then Removed else phase
    case Removed => phase
  }

  function Reached(last: Check, names: seq<Check>): Phase {
    if names == [] then Untrimmed(false, false)
    else Step(last, names[|names| - 1], Reached(last, names[..|names| - 1]))
  }

  // What the phase says about the list.
  ghost predicate Explains(last: Check, names: seq<Check>, phase: Phase) {
    match phase
    case Untrimmed(restyled, swapped) =>
      (restyled ==> MissingStyles in names) && (swapped ==> NegativeTiming in names)
    case Trimmed => exists k :: 0 <= k < |names| && TrimsInTime(names, k)
    case Removed => exists k :: 0 <= k < |names| && TrimsInTime(names, k) && last in names[k..]
  }

  lemma TrimsInTimeLonger(names: seq<Check>, fix: Check, k: nat)
    requires TrimsInTime(names, k)
    ensures TrimsInTime(names + [fix], k) && (names + [fix])[k..] == names[k..] + [fix]
  {
    assert (names + [fix])[..k] == names[..k];
  }

  lemma ExplainsLater(last: Check, front: seq<Check>, fix: Check, phase: Phase)
    requires Explains(last, front, phase) && !phase.Untrimmed?
    ensures Explains(last, front + [fix], Step(last, fix, phase))
  {
    hide TrimsInTime;
    var k :| 0 <= k < |front| && TrimsInTime(front, k) && (phase.Removed? ==> last in front[k..]);
    TrimsInTimeLonger(front, fix, k);
  }

  lemma ExplainsNext(last: Check, front: seq<Check>, fix: Check, phase: Phase)
    requires Explains(last, front, phase)
    ensures Explains(last, front + [fix], Step(last, fix, phase))
  {
    if phase.Untrimmed? {
      if Step(last, fix, phase).Trimmed? {
        assert (front + [fix])[..|front|] == front;
        assert TrimsInTime(front + [fix], |front|);
      }
    } else {
      ExplainsLater(last, front, fix, phase);
    }
  }

  lemma {:induction false} ReachedExplains(last: Check, names: seq<Check>)
    ensures Explains(last, names, Reached(last, names))
  {
    hide Explains, Step;
    if names == [] {
      NothingExplained(last);
    } else {
      var n := |names| - 1;
      ReachedExplains(last, names[..n]);
      ExplainsNext(last, names[..n], names[n], Reached(last, names[..n]));
      assert names == names[..n] + [names[n]];
    }
  }

  lemma NothingExplained(last: Check)
    ensures Explains(last, [], Untrimmed(false, false))
  {
  }

  // The styles of the witnesses.
  function Witness(texts: TextFacts): Context {
    Context({"Default"}, texts)
  }

  // The texts "a" and "b" show something, and the empty text does not.
  predicate Shows(texts: TextFacts) {
    !texts.empty("a") && !texts.empty("b") && texts.empty("")
  }

  // The library that leaves text without markup alone does.
  lemma PlainTextShows(plain: string -> string)
    requires plain("") == "" && plain("a") == "a" && plain("b") == "b"
    ensures Shows(FactsOf(plain))
  {
    VisibleStart("a");
    VisibleStart("b");
  }

  function Turned(restyled: bool, swapped: bool): Cue {
    Cue(if swapped then 0 else 10, if swapped then 10 else 0, "a", if restyled then "Default" else "x", 0, false)
  }

  const ATSTART := Cue(0, 5, "b", "Default", 0, false)
  const INSIDE := Cue(5, 8, "b", "Default", 0, false)
  const ABOVE := Cue(0, 5, "a", "Default", 1, false)

  // Trimming leaves an event without duration.
  function Vanishing(phase: Phase): seq<Cue> {
    match phase
    case Untrimmed(restyled, swapped) => [Turned(restyled, swapped), ATSTART]
    case Trimmed => [Turned(true, true).(end := 0), ATSTART]
    case Removed => [ATSTART]
  }

  // Trimming makes an event equal to one in another layer.
  function Doubling(phase: Phase): seq<Cue> {
    match phase
    case Untrimmed(restyled, swapped) => [Turned(restyled, swapped), INSIDE, ABOVE]
    case Trimmed => [Turned(true, true).(end := 5), INSIDE, ABOVE]
    case Removed => [Turned(true, true).(end := 5), INSIDE]
  }

  // The only thing the fixes find in a witness, if anything.
  function Found(last: Check, phase: Phase, fix: Check, at: nat): set<nat> {
    match phase
    case Untrimmed(restyled, swapped) =>
      if (fix == MissingStyles && !restyled) || (fix == NegativeTiming && !swapped)
        || (fix == TimingOverlaps && restyled && swapped)
      then {0} else {}
    case Trimmed => if fix == last then {at} else {}
    case Removed => {}
  }

  ghost predicate FindsExactly(context: Context, cues: seq<Cue>, fix: Check, found: set<nat>) {
    forall i :: 0 <= i < |cues| ==> (Bad(fix, context, cues, i) <==> i in found)
  }

  lemma OverrunsExplicit(cues: seq<Cue>, i: nat)
    requires i < |cues| <= 3
    ensures Overruns(cues, i) <==>
      || (Before(cues, i, 0) && cues[0].start < cues[i].end)
      || (|cues| > 1 && Before(cues, i, 1) && cues[1].start < cues[i].end)
      || (|cues| > 2 && Before(cues, i, 2) && cues[2].start < cues[i].end)
  {
  }

  lemma VanishingFinds(texts: TextFacts, phase: Phase, fix: Check)
    requires Shows(texts) && fix in FIX_ORDER
    ensures FindsExactly(Witness(texts), Vanishing(phase), fix, Found(ZeroDuration, phase, fix, 0))
  {
    var cues := Vanishing(phase);
    forall i | 0 <= i < |cues|
      ensures Bad(fix, Witness(texts), cues, i) <==> i in Found(ZeroDuration, phase, fix, 0)
    {
      OverrunsExplicit(cues, i);
    }
  }

  lemma DoublingFinds(texts: TextFacts, phase: Phase, fix: Check)
    requires Shows(texts) && fix in FIX_ORDER
    ensures FindsExactly(Witness(texts), Doubling(phase), fix, Found(DuplicateLines, phase, fix, 2))
  {
    var cues := Doubling(phase);
    forall i | 0 <= i < |cues|
      ensures Bad(fix, Witness(texts), cues, i) <==> i in Found(DuplicateLines, phase, fix, 2)
    {
      OverrunsExplicit(cues, i);
    }
  }

  lemma FindsNothing(context: Context, cues: seq<Cue>, fix: Check)
    requires FindsExactly(context, cues, fix, {})
    ensures Fixed(fix, context, cues) == cues && Silent(fix, context, cues)
  {
    SilentMeansNoneBad(fix, context, cues);
    NothingFlagged(fix, context, cues);
  }

  lemma FindsSomething(context: Context, cues: seq<Cue>, fix: Check, i: nat)
    requires FindsExactly(context, cues, fix, {i}) && i < |cues|
    ensures !Silent(fix, context, cues)
  {
    SilentMeansNoneBad(fix, context, cues);
  }

  // Restyling or turning around the first event.
  lemma RewritesFirst(context: Context, cues: seq<Cue>, fix: Check)
    requires FindsExactly(context, cues, fix, {0}) && cues != []
    requires fix == MissingStyles || fix == NegativeTiming
    ensures Fixed(fix, context, cues)
      == [if fix == MissingStyles then cues[0].(style := "Default") else Swapped(cues[0])] + cues[1..]
  {
  }

  // Trimming the first event at the start of the second.
  lemma TrimsFirst(context: Context, cues: seq<Cue>)
    requires FindsExactly(context, cues, TimingOverlaps, {0}) && |cues| > 1
    requires Next(cues, 0, |cues|) == Option.Some(1) && cues[1].start < cues[0].end
    ensures HealthSpec.Trimmed(cues) == [cues[0].(end := cues[1].start)] + cues[1..]
  {
    hide Bad, TrimmedEnd;
    forall i | 0 < i < |cues|
      ensures TrimmedEnd(cues, i) == cues[i].end
    {
      assert !Bad(TimingOverlaps, context, cues, i);
      EndKept(context, cues, i);
    }
    EndTrimmed(cues, 0, 1);
  }

  lemma EndKept(context: Context, cues: seq<Cue>, i: nat)
    requires i < |cues| && !Bad(TimingOverlaps, context, cues, i)
    ensures TrimmedEnd(cues, i) == cues[i].end
  {
  }

  lemma EndTrimmed(cues: seq<Cue>, i: nat, j: nat)
    requires i < |cues| && j < |cues| && Next(cues, i, |cues|) == Option.Some(j) && cues[j].start < cues[i].end
    ensures TrimmedEnd(cues, i) == cues[j].start
  {
  }

  lemma RemovesOne(context: Context, cues: seq<Cue>, fix: Check, i: nat)
    requires FindsExactly(context, cues, fix, {i}) && i < |cues|
    requires fix == ZeroDuration || fix == DuplicateLines
    ensures Fixed(fix, context, cues) == DropAt(cues, i)
  {
    var ids := Flagged(fix, context, cues, |cues|);
    FlaggedExact(fix, context, cues, |cues|);
    assert Elements(ids) == {i};
    WithoutOne(cues, i);
  }

  lemma WithoutOne<T>(s: seq<T>, i: nat)
    requires i < |s|
    ensures Without(s, {i}) == DropAt(s, i)
  {
    KeptAround(i, |s|);
    assert Pick(s, Span(0, i)) == s[..i] && Pick(s, Span(i + 1, |s|)) == s[i + 1..];
  }

  lemma KeptAround(i: nat, n: nat)
    requires i < n
    ensures Kept(0, n, {i}) == Span(0, i) + Span(i + 1, n)
  {
    KeptRun(0, i, n, {i});
    KeptRun(i + 1, n, n, {i});
    assert Kept(n, n, {i}) == [];
  }

  lemma VanishingTrims(texts: TextFacts)
    requires Shows(texts)
    ensures Fixed(TimingOverlaps, Witness(texts), Vanishing(Untrimmed(true, true))) == Vanishing(Phase.Trimmed)
  {
    var context, cues := Witness(texts), Vanishing(Untrimmed(true, true));
    VanishingFinds(texts, Untrimmed(true, true), TimingOverlaps);
    hide Fixed, Witness, Bad;
    assert Before(cues, 0, 1) && !Before(cues, 0, 0);
    TrimsFirst(context, cues);
    FixedIsTrimmed(context, cues);
  }

  lemma VanishingRemoves(texts: TextFacts)
    requires Shows(texts)
    ensures Fixed(ZeroDuration, Witness(texts), Vanishing(Phase.Trimmed)) == Vanishing(Removed)
  {
    VanishingFinds(texts, Phase.Trimmed, ZeroDuration);
    hide Fixed, Witness, Bad;
    RemovesOne(Witness(texts), Vanishing(Phase.Trimmed), ZeroDuration, 0);
  }

  lemma VanishingRewrites(texts: TextFacts, restyled: bool, swapped: bool, fix: Check)
    requires Shows(texts) && (if fix == MissingStyles then !restyled else fix == NegativeTiming && !swapped)
    ensures var phase := Untrimmed(restyled, swapped);
      Fixed(fix, Witness(texts), Vanishing(phase)) == Vanishing(Step(ZeroDuration, fix, phase))
  {
    VanishingFinds(texts, Untrimmed(restyled, swapped), fix);
    hide Fixed, Witness, Bad;
    RewritesFirst(Witness(texts), Vanishing(Untrimmed(restyled, swapped)), fix);
  }

  lemma VanishingQuiet(texts: TextFacts, phase: Phase, fix: Check)
    requires Shows(texts) && fix in FIX_ORDER && Found(ZeroDuration, phase, fix, 0) == {}
    ensures Fixed(fix, Witness(texts), Vanishing(phase)) == Vanishing(phase)
  {
    VanishingFinds(texts, phase, fix);
    hide Fixed, Witness, Bad, Vanishing;
    FindsNothing(Witness(texts), Vanishing(phase), fix);
  }

  lemma {:induction false} VanishingStep(texts: TextFacts, phase: Phase, fix: Check)
    requires Shows(texts)
    ensures Fixed(fix, Witness(texts), Vanishing(phase)) == Vanishing(Step(ZeroDuration, fix, phase))
  {
    if fix in FIX_ORDER {
      hide Fixed, Witness, Vanishing, Shows;
      if Found(ZeroDuration, phase, fix, 0) == {} {
        VanishingQuiet(texts, phase, fix);
      } else if fix == TimingOverlaps {
        VanishingTrims(texts);
      } else if fix == ZeroDuration {
        VanishingRemoves(texts);
      } else {
        VanishingRewrites(texts, phase.restyled, phase.swapped, fix);
      }
    }
  }

  lemma FixedIsTrimmed(context: Context, cues: seq<Cue>)
    ensures Fixed(TimingOverlaps, context, cues) == HealthSpec.Trimmed(cues)
  {
  }

  lemma DoublingTrims(texts: TextFacts)
    requires Shows(texts)
    ensures Fixed(TimingOverlaps, Witness(texts), Doubling(Untrimmed(true, true))) == Doubling(Phase.Trimmed)
  {
    var context, cues := Witness(texts), Doubling(Untrimmed(true, true));
    DoublingFinds(texts, Untrimmed(true, true), TimingOverlaps);
    hide Fixed, Witness, Bad;
    assert Before(cues, 0, 1) && !Before(cues, 0, 0) && !Before(cues, 0, 2);
    TrimsFirst(context, cues);
    FixedIsTrimmed(context, cues);
  }

  lemma DoublingRemoves(texts: TextFacts)
    requires Shows(texts)
    ensures Fixed(DuplicateLines, Witness(texts), Doubling(Phase.Trimmed)) == Doubling(Removed)
  {
    DoublingFinds(texts, Phase.Trimmed, DuplicateLines);
    hide Fixed, Witness, Bad;
    RemovesOne(Witness(texts), Doubling(Phase.Trimmed), DuplicateLines, 2);
  }

  lemma DoublingRewrites(texts: TextFacts, restyled: bool, swapped: bool, fix: Check)
    requires Shows(texts) && (if fix == MissingStyles then !restyled else fix == NegativeTiming && !swapped)
    ensures var phase := Untrimmed(restyled, swapped);
      Fixed(fix, Witness(texts), Doubling(phase)) == Doubling(Step(DuplicateLines, fix, phase))
  {
    DoublingFinds(texts, Untrimmed(restyled, swapped), fix);
    hide Fixed, Witness, Bad;
    RewritesFirst(Witness(texts), Doubling(Untrimmed(restyled, swapped)), fix);
  }

  lemma DoublingQuiet(texts: TextFacts, phase: Phase, fix: Check)
    requires Shows(texts) && fix in FIX_ORDER && Found(DuplicateLines, phase, fix, 2) == {}
    ensures Fixed(fix, Witness(texts), Doubling(phase)) == Doubling(phase)
  {
    DoublingFinds(texts, phase, fix);
    hide Fixed, Witness, Bad, Doubling;
    FindsNothing(Witness(texts), Doubling(phase), fix);
  }

  lemma {:induction false} DoublingStep(texts: TextFacts, phase: Phase, fix: Check)
    requires Shows(texts)
    ensures Fixed(fix, Witness(texts), Doubling(phase)) == Doubling(Step(DuplicateLines, fix, phase))
  {
    if fix in FIX_ORDER {
      hide Fixed, Witness, Doubling, Shows;
      if Found(DuplicateLines, phase, fix, 2) == {} {
        DoublingQuiet(texts, phase, fix);
      } else if fix == TimingOverlaps {
        DoublingTrims(texts);
      } else if fix == DuplicateLines {
        DoublingRemoves(texts);
      } else {
        DoublingRewrites(texts, phase.restyled, phase.swapped, fix);
      }
    }
  }

  lemma {:induction false} VanishingRun(texts: TextFacts, names: seq<Check>)
    requires Shows(texts)
    ensures FixedAll(names, Witness(texts), Vanishing(Untrimmed(false, false)))
      == Vanishing(Reached(ZeroDuration, names))
  {
    hide Fixed, Vanishing, Witness, Step;
    if names == [] {
    } else {
      var n := |names| - 1;
      VanishingRun(texts, names[..n]);
      FixedAllSnoc(names[..n], names[n], Witness(texts), Vanishing(Untrimmed(false, false)));
      assert names == names[..n] + [names[n]];
      VanishingStep(texts, Reached(ZeroDuration, names[..n]), names[n]);
    }
  }

  lemma {:induction false} DoublingRun(texts: TextFacts, names: seq<Check>)
    requires Shows(texts)
    ensures FixedAll(names, Witness(texts), Doubling(Untrimmed(false, false)))
      == Doubling(Reached(DuplicateLines, names))
  {
    hide Fixed, Doubling, Witness, Step;
    if names == [] {
    } else {
      var n := |names| - 1;
      DoublingRun(texts, names[..n]);
      FixedAllSnoc(names[..n], names[n], Witness(texts), Doubling(Untrimmed(false, false)));
      assert names == names[..n] + [names[n]];
      DoublingStep(texts, Reached(DuplicateLines, names[..n]), names[n]);
    }
  }

  // In every phase but the last, some check has something to say.
  function Complaint(last: Check, phase: Phase): Check {
    match phase
    case Untrimmed(restyled, swapped) =>
      if !restyled then MissingStyles else if !swapped then NegativeTiming else TimingOverlaps
    case _ => last
  }

  lemma VanishingComplains(texts: TextFacts, phase: Phase)
    requires Shows(texts) && !phase.Removed?
    ensures !AllSilent(Witness(texts), Vanishing(phase))
  {
    var check := Complaint(ZeroDuration, phase);
    VanishingFinds(texts, phase, check);
    hide Bad, Silent, Witness;
    FindsSomething(Witness(texts), Vanishing(phase), check, 0);
  }

  lemma DoublingComplains(texts: TextFacts, phase: Phase)
    requires Shows(texts) && !phase.Removed?
    ensures !AllSilent(Witness(texts), Doubling(phase))
  {
    var check := Complaint(DuplicateLines, phase);
    DoublingFinds(texts, phase, check);
    hide Bad, Silent, Witness;
    FindsSomething(Witness(texts), Doubling(phase), check, if phase.Trimmed? then 2 else 0);
  }

  const BLANK := Cue(0, 5, "", "Default", 0, false)

  // Only the removal of empty events touches an empty event.
  lemma {:induction false} BlankStays(texts: TextFacts, names: seq<Check>)
    requires Shows(texts) && EmptyEvents !in names
    ensures FixedAll(names, Witness(texts), [BLANK]) == [BLANK] && !AllSilent(Witness(texts), [BLANK])
  {
    BlankFinds(texts, EmptyEvents);
    FindsSomething(Witness(texts), [BLANK], EmptyEvents, 0);
    if names == [] {
    } else {
      BlankStep(texts, names[0]);
      hide Fixed, Bad, Silent, Witness, AllSilent;
      BlankStays(texts, names[1..]);
    }
  }

  lemma BlankStep(texts: TextFacts, fix: Check)
    requires Shows(texts) && fix != EmptyEvents
    ensures Fixed(fix, Witness(texts), [BLANK]) == [BLANK]
  {
    hide Bad, Silent, Witness;
    if fix in FIX_ORDER {
      BlankFinds(texts, fix);
      FindsNothing(Witness(texts), [BLANK], fix);
    }
  }

  lemma BlankFinds(texts: TextFacts, fix: Check)
    requires Shows(texts)
    ensures FindsExactly(Witness(texts), [BLANK], fix, if fix == EmptyEvents then {0} else {}) || fix !in FIX_ORDER
  {
    OverrunsExplicit([BLANK], 0);
  }

  // A list of fixes makes all six checks silent, for all events and all styles with Default among them, if and
  // only if it trims in time and cleans up afterwards.
  lemma {:induction false} OrdersThatWork(texts: TextFacts, names: seq<Check>)
    requires Shows(texts)
    ensures (forall styles: set<string>, cues: seq<Cue> :: "Default" in styles ==>
        AllSilent(Context(styles, texts), FixedAll(names, Context(styles, texts), cues)))
      <==> WorkingOrder(names)
  {
    hide AllSilent, FixedAll;
    if WorkingOrder(names) {
      forall styles: set<string>, cues: seq<Cue> | "Default" in styles
        ensures AllSilent(Context(styles, texts), FixedAll(names, Context(styles, texts), cues))
      {
        WorkingOrderSilences(names, Context(styles, texts), cues);
      }
    } else {
      var cues := WitnessAgainst(texts, names);
    }
  }

  // Against every other list there is one of three inputs.
  lemma {:induction false} WitnessAgainst(texts: TextFacts, names: seq<Check>) returns (cues: seq<Cue>)
    requires Shows(texts) && !WorkingOrder(names)
    ensures cues in [[BLANK], Vanishing(Untrimmed(false, false)), Doubling(Untrimmed(false, false))]
    ensures !AllSilent(Witness(texts), FixedAll(names, Witness(texts), cues))
  {
    hide AllSilent, FixedAll, Witness, Doubling, Vanishing;
    VanishingRun(texts, names);
    DoublingRun(texts, names);
    if EmptyEvents !in names {
      cues := [BLANK];
      BlankStays(texts, names);
    } else if !Reached(ZeroDuration, names).Removed? {
      cues := Vanishing(Untrimmed(false, false));
      VanishingComplains(texts, Reached(ZeroDuration, names));
    } else {
      cues := Doubling(Untrimmed(false, false));
      BothRemoved(names);
      DoublingComplains(texts, Reached(DuplicateLines, names));
    }
  }

  lemma BothRemoved(names: seq<Check>)
    requires EmptyEvents in names
    ensures Reached(ZeroDuration, names).Removed? && Reached(DuplicateLines, names).Removed? ==> WorkingOrder(names)
  {
    hide Reached;
    ReachedExplains(ZeroDuration, names);
    ReachedExplains(DuplicateLines, names);
    if Reached(ZeroDuration, names).Removed? && Reached(DuplicateLines, names).Removed? {
      var k :| 0 <= k < |names| && TrimsInTime(names, k) && ZeroDuration in names[k..];
      var l :| 0 <= l < |names| && TrimsInTime(names, l) && DuplicateLines in names[l..];
      var first := if k < l then k else l;
      LaterIn(ZeroDuration, names, first, k);
      LaterIn(DuplicateLines, names, first, l);
    }
  }

  lemma LaterIn(check: Check, names: seq<Check>, i: nat, j: nat)
    requires i <= j <= |names| && check in names[j..]
    ensures check in names[i..]
  {
    assert names[i..] == names[i..j] + names[j..];
  }

  // When each fix is requested once, that is a matter of five comparisons.
  lemma OnceEach(names: seq<Check>, styles: nat, turned: nat, trimmed: nat, zero: nat, doubles: nat, blank: nat)
    requires |names| == 6 && forall i, j :: 0 <= i < j < 6 ==> names[i] != names[j]
    requires styles < 6 && names[styles] == MissingStyles
    requires turned < 6 && names[turned] == NegativeTiming
    requires trimmed < 6 && names[trimmed] == TimingOverlaps
    requires zero < 6 && names[zero] == ZeroDuration
    requires doubles < 6 && names[doubles] == DuplicateLines
    requires blank < 6 && names[blank] == EmptyEvents
    ensures WorkingOrder(names) <==>
      styles < trimmed && turned < trimmed && trimmed < zero && trimmed < doubles
  {
    assert MissingStyles in names[..trimmed] <==> styles < trimmed by {
      assert styles < trimmed ==> names[..trimmed][styles] == MissingStyles;
    }
    assert NegativeTiming in names[..trimmed] <==> turned < trimmed by {
      assert turned < trimmed ==> names[..trimmed][turned] == NegativeTiming;
    }
    assert ZeroDuration in names[trimmed..] <==> trimmed < zero by {
      assert trimmed < zero ==> names[trimmed..][zero - trimmed] == ZeroDuration;
    }
    assert DuplicateLines in names[trimmed..] <==> trimmed < doubles by {
      assert trimmed < doubles ==> names[trimmed..][doubles - trimmed] == DuplicateLines;
    }
    assert TrimsInTime(names, trimmed) <==> styles < trimmed && turned < trimmed;
  }

  // The order in which the fixes are listed does not work; the one that takes the rewriting fixes first does.
  lemma OrdersCompared()
    ensures WorkingOrder(FIX_ORDER) && !WorkingOrder(LISTED_ORDER)
  {
    OnceEach(FIX_ORDER, 0, 1, 2, 3, 5, 4);
    OnceEach(LISTED_ORDER, 2, 4, 1, 5, 0, 3);
  }
}

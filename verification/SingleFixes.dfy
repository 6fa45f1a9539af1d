/** Which fixes are safe for the score when they are requested alone. */
module SingleFixes {
  import opened PyText
  import opened Subtitles
  import opened HealthSpec
  import opened FixOrders

  predicate IsRewrite(fix: Check) {
    fix.MissingStyles? || fix.NegativeTiming? || fix.TimingOverlaps?
  }

  // ---- charges of three events ------------------------------------------------------------------

  lemma ThreeCharges(check: Check, context: Context, cues: seq<Cue>)
    requires |cues| == 3
    ensures PenaltyOf(check, context, cues)
      == ChargeAt(check, context, cues, 0) + ChargeAt(check, context, cues, 1) + ChargeAt(check, context, cues, 2)
  {
    hide ChargeAt;
    PenaltyIsCharges(check, context, cues);
    assert Charges(check, context, cues, 3) == Charges(check, context, cues, 2) + ChargeAt(check, context, cues, 2);
    assert Charges(check, context, cues, 2) == Charges(check, context, cues, 1) + ChargeAt(check, context, cues, 1);
    assert Charges(check, context, cues, 1) == Charges(check, context, cues, 0) + ChargeAt(check, context, cues, 0);
  }

  // The checks of the layout of a text, which no fix is about.
  predicate IsLayout(check: Check) {
    check.LineTooLong? || check.MissingNewlines?
  }

  lemma LayoutAt(check: Check, context: Context, cues: seq<Cue>, fixed: seq<Cue>, i: nat)
    requires IsLayout(check) && i < |cues| && i < |fixed|
    requires fixed[i].text == cues[i].text && fixed[i].isComment == cues[i].isComment
    ensures ChargeAt(check, context, fixed, i) == ChargeAt(check, context, cues, i) <= 1
  {
  }

  lemma LayoutKept(check: Check, context: Context, cues: seq<Cue>, fixed: seq<Cue>)
    requires IsLayout(check) && |cues| == |fixed| == 3
    requires forall i :: 0 <= i < 3 ==> fixed[i].text == cues[i].text && fixed[i].isComment == cues[i].isComment
    ensures PenaltyOf(check, context, fixed) == PenaltyOf(check, context, cues) <= 3
  {
    hide ChargeAt, PenaltyOf;
    ThreeCharges(check, context, cues);
    ThreeCharges(check, context, fixed);
    LayoutAt(check, context, cues, fixed, 0);
    LayoutAt(check, context, cues, fixed, 1);
    LayoutAt(check, context, cues, fixed, 2);
  }

  // What the other seven checks charge.
  function Charged(context: Context, cues: seq<Cue>): nat {
    PenaltyOf(DuplicateLines, context, cues) + PenaltyOf(TimingOverlaps, context, cues)
    + PenaltyOf(MissingStyles, context, cues) + PenaltyOf(EmptyEvents, context, cues)
    + PenaltyOf(ExcessiveDuration, context, cues) + PenaltyOf(NegativeTiming, context, cues)
    + PenaltyOf(ZeroDuration, context, cues)
  }

  lemma DearerIsWorse(context: Context, cues: seq<Cue>, fixed: seq<Cue>)
    requires |cues| == |fixed| == 3
    requires forall i :: 0 <= i < 3 ==> fixed[i].text == cues[i].text && fixed[i].isComment == cues[i].isComment
    requires Charged(context, cues) < Charged(context, fixed) && Charged(context, cues) < 90
    ensures HealthScore(0, context, fixed) < HealthScore(0, context, cues)
  {
    hide PenaltyOf, Sum;
    LayoutKept(LineTooLong, context, cues, fixed);
    LayoutKept(MissingNewlines, context, cues, fixed);
    UnrollSum(Costs(context, cues));
    UnrollSum(Costs(context, fixed));
  }

  // ---- the witnesses ----------------------------------------------------------------------------

  // The middle event reaches from the first one into the last one, by a second each.
  function Middle(style: string, turned: bool): Cue {
    Cue(if turned then 4000 else 1000, if turned then 1000 else 4000, "b", style, 0, false)
  }

  function Crossing(style: string, turned: bool): seq<Cue> {
    [Cue(0, 2000, "a", "Default", 0, false), Middle(style, turned), Cue(2000, 3000, "a", "Default", 0, false)]
  }

  // Three events that start together; trimming leaves two empty ones, which are then equal.
  const STACKED: seq<Cue> :=
    [Cue(5, 8, "a", "Default", 0, false), Cue(5, 9, "a", "Default", 0, false), Cue(5, 10, "b", "Default", 0, false)]

  const FLATTENED: seq<Cue> :=
    [Cue(5, 5, "a", "Default", 0, false), Cue(5, 5, "a", "Default", 0, false), Cue(5, 10, "b", "Default", 0, false)]

  // In another style, or inverted, the middle event crosses no other one.
  lemma CrossingFinds(texts: TextFacts, style: string, turned: bool, check: Check, i: nat)
    requires Shows(texts) && style in ["Default", "x"] && (style == "x" <==> !turned) && i < 3 && !IsLayout(check)
    ensures Bad(check, Witness(texts), Crossing(style, turned), i)
      <==> i == 1 && check == if turned then NegativeTiming else MissingStyles
  {
    OverrunsExplicit(Crossing(style, turned), i);
  }

  lemma CrossedFinds(texts: TextFacts, check: Check, i: nat)
    requires Shows(texts) && i < 3 && !IsLayout(check)
    ensures Bad(check, Witness(texts), Crossing("Default", false), i) <==> check == TimingOverlaps && i < 2
  {
    OverrunsExplicit(Crossing("Default", false), i);
  }

  lemma StackedFinds(texts: TextFacts, check: Check, i: nat)
    requires Shows(texts) && i < 3 && !IsLayout(check)
    ensures Bad(check, Witness(texts), STACKED, i) <==> check == TimingOverlaps && i < 2
    ensures Bad(check, Witness(texts), FLATTENED, i)
      <==> (check == ZeroDuration && i < 2) || (check == DuplicateLines && i == 1)
  {
    OverrunsExplicit(STACKED, i);
    OverrunsExplicit(FLATTENED, i);
  }

  lemma PlainCharge(check: Check, context: Context, cues: seq<Cue>, i: nat)
    requires i < |cues| && check != TimingOverlaps
    ensures ChargeAt(check, context, cues, i)
      == if Bad(check, context, cues, i) then Points(SeverityOf(check)) else 0
  {
    hide Bad;
  }

  // A crossing of a second is an error, one of a few milliseconds a warning.
  lemma OverlapCharge(texts: TextFacts, i: nat)
    requires Shows(texts) && i < 3
    ensures ChargeAt(TimingOverlaps, Witness(texts), Crossing("Default", false), i) == if i < 2 then 10 else 0
    ensures ChargeAt(TimingOverlaps, Witness(texts), STACKED, i) == if i < 2 then 3 else 0
  {
    hide Bad, Witness;
    CrossedFinds(texts, TimingOverlaps, i);
    StackedFinds(texts, TimingOverlaps, i);
    if i < 2 {
      assert Before(Crossing("Default", false), i, i + 1) && Before(STACKED, i, i + 1);
      assert Next(Crossing("Default", false), i, 3) == Option.Some(i + 1);
    }
  }

  lemma CrossingCosts(texts: TextFacts, style: string, turned: bool, check: Check)
    requires Shows(texts) && style in ["Default", "x"] && (style == "x" <==> !turned) && !IsLayout(check)
    ensures PenaltyOf(check, Witness(texts), Crossing(style, turned))
      == if check == (if turned then NegativeTiming else MissingStyles) then 10 else 0
  {
    hide Bad, Witness, Crossing, PenaltyOf, Shows;
    var context, cues := Witness(texts), Crossing(style, turned);
    assert |cues| == 3 by { ThreeEvents(style, turned); }
    ThreeCharges(check, context, cues);
    forall i: nat | i < 3
      ensures ChargeAt(check, context, cues, i)
        == if i == 1 && check == (if turned then NegativeTiming else MissingStyles) then 10 else 0
    {
      CrossingFinds(texts, style, turned, check, i);
    }
  }

  lemma ThreeEvents(style: string, turned: bool)
    ensures |Crossing(style, turned)| == 3
  {
  }

  lemma CrossedCosts(texts: TextFacts, check: Check)
    requires Shows(texts) && !IsLayout(check)
    ensures PenaltyOf(check, Witness(texts), Crossing("Default", false)) == if check == TimingOverlaps then 20 else 0
  {
    hide Bad, Witness, Crossing, PenaltyOf, Shows, ChargeAt;
    var context, cues := Witness(texts), Crossing("Default", false);
    assert |cues| == 3 by { ThreeEvents("Default", false); }
    ThreeCharges(check, context, cues);
    forall i: nat | i < 3
      ensures ChargeAt(check, context, cues, i) == if i < 2 && check == TimingOverlaps then 10 else 0
    {
      if check == TimingOverlaps {
        OverlapCharge(texts, i);
      } else {
        CrossedFinds(texts, check, i);
        PlainCharge(check, context, cues, i);
      }
    }
  }

  lemma StackedCosts(texts: TextFacts, check: Check)
    requires Shows(texts) && !IsLayout(check)
    ensures PenaltyOf(check, Witness(texts), STACKED) == if check == TimingOverlaps then 6 else 0
    ensures PenaltyOf(check, Witness(texts), FLATTENED)
      == if check == ZeroDuration then 6 else if check == DuplicateLines then 3 else 0
  {
    hide Bad, Witness, PenaltyOf, Shows, ChargeAt;
    var context := Witness(texts);
    ThreeCharges(check, context, STACKED);
    ThreeCharges(check, context, FLATTENED);
    forall i: nat | i < 3
      ensures ChargeAt(check, context, STACKED, i) == if i < 2 && check == TimingOverlaps then 3 else 0
      ensures ChargeAt(check, context, FLATTENED, i)
        == if (i < 2 && check == ZeroDuration) || (i == 1 && check == DuplicateLines) then 3 else 0
    {
      StackedFinds(texts, check, i);
      if check == TimingOverlaps {
        OverlapCharge(texts, i);
        NoCharge(check, context, FLATTENED, i);
      } else {
        PlainCharge(check, context, STACKED, i);
        PlainCharge(check, context, FLATTENED, i);
      }
    }
  }

  lemma NoCharge(check: Check, context: Context, cues: seq<Cue>, i: nat)
    requires i < |cues| && !Bad(check, context, cues, i)
    ensures ChargeAt(check, context, cues, i) == 0
  {
  }

  // ---- what the three rewriting fixes make of them --------------------------------------------------

  lemma StackedFlattens(texts: TextFacts)
    requires Shows(texts)
    ensures Fixed(TimingOverlaps, Witness(texts), STACKED) == FLATTENED
  {
    assert Before(STACKED, 0, 1) && Before(STACKED, 1, 2) && !Before(STACKED, 2, 0) && !Before(STACKED, 2, 1);
    assert TrimmedEnd(STACKED, 0) == 5 && TrimmedEnd(STACKED, 1) == 5 && TrimmedEnd(STACKED, 2) == 10;
    FixedIsTrimmed(Witness(texts), STACKED);
  }

  lemma MiddleRewritten(texts: TextFacts)
    requires Shows(texts)
    ensures Fixed(MissingStyles, Witness(texts), Crossing("x", false)) == Crossing("Default", false)
    ensures Fixed(NegativeTiming, Witness(texts), Crossing("Default", true)) == Crossing("Default", false)
  {
  }

  // The events that lose points when only this fix is requested.
  function Losing(fix: Check): seq<Cue> {
    match fix
    case MissingStyles => Crossing("x", false)
    case NegativeTiming => Crossing("Default", true)
    case _ => STACKED
  }

  lemma {:induction false} RewriteAloneLoses(texts: TextFacts, fix: Check)
    requires Shows(texts) && IsRewrite(fix)
    ensures HealthScore(0, Witness(texts), Fixed(fix, Witness(texts), Losing(fix)))
      < HealthScore(0, Witness(texts), Losing(fix))
  {
    hide PenaltyOf, Fixed, Witness, Shows, HealthScore;
    var context := Witness(texts);
    MiddleRewritten(texts);
    StackedFlattens(texts);
    forall check | !IsLayout(check)
      ensures PenaltyOf(check, context, Losing(fix)) == match fix
        case TimingOverlaps => if check == TimingOverlaps then 6 else 0
        case _ => if check == fix then 10 else 0
    {
      if fix == TimingOverlaps {
        StackedCosts(texts, check);
      } else {
        CrossingCosts(texts, if fix == MissingStyles then "x" else "Default", fix == NegativeTiming, check);
      }
    }
    forall check | !IsLayout(check)
      ensures PenaltyOf(check, context, Fixed(fix, context, Losing(fix))) == match fix
        case TimingOverlaps => if check == ZeroDuration then 6 else if check == DuplicateLines then 3 else 0
        case _ => if check == TimingOverlaps then 20 else 0
    {
      if fix == TimingOverlaps {
        StackedCosts(texts, check);
      } else {
        CrossedCosts(texts, check);
      }
    }
    DearerIsWorse(context, Losing(fix), Fixed(fix, context, Losing(fix)));
  }

  // A single fix keeps the score of every file if and only if it is not one of the three that rewrite events.
  lemma {:induction false} SingleFixesThatWork(texts: TextFacts, fix: Check)
    requires Shows(texts)
    ensures (forall encoding: nat, styles: set<string>, cues: seq<Cue> :: "Default" in styles ==>
        HealthScore(encoding, Context(styles, texts), Fixed(fix, Context(styles, texts), cues))
          >= HealthScore(encoding, Context(styles, texts), cues))
      <==> !IsRewrite(fix)
  {
    if IsRewrite(fix) {
      hide HealthScore, Fixed;
      RewriteAloneLoses(texts, fix);
      assert "Default" in Witness(texts).styles;
    } else if IsRemoval(fix) {
      hide HealthScore, Fixed;
      forall encoding: nat, styles: set<string>, cues: seq<Cue> | "Default" in styles
        ensures HealthScore(encoding, Context(styles, texts), Fixed(fix, Context(styles, texts), cues))
          >= HealthScore(encoding, Context(styles, texts), cues)
      {
        RemovalKeepsScore(fix, encoding, Context(styles, texts), cues);
      }
    }
  }
}

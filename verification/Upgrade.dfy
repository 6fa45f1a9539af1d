/** When a subtitle replaces another, and how long that can go on. */
module UpgradeSpec {
  import opened Arithmetic
  import opened PyText

  datatype Subtitle = Subtitle(format: string, score: int)

  datatype Policy = Policy(preferAss: bool, minDelta: int)

  // What a replacement has to gain; a recent subtitle has to be beaten by twice as much.
  function EffectiveDelta(policy: Policy, recent: bool): int {
    if recent then policy.minDelta * 2 else policy.minDelta
  }

  predicate ShouldUpgrade(policy: Policy, current: Subtitle, offer: Subtitle, recent: bool) {
    if current.format == "ass" && offer.format == "srt" then false
    else if current.format == "srt" && offer.format == "ass" && policy.preferAss then true
    else offer.score - current.score >= EffectiveDelta(policy, recent)
  }

  // What is known about the age of the current file: no path, not readable, or so many days.
  datatype FileAge = NoPath | NotReadable | Days(days: real)

  // Downloaded within the last so many days.
  predicate IsRecent(age: FileAge, windowDays: int) {
    age.Days? && windowDays > 0 && age.days < windowDays as real
  }

  // Two rules look at formats only.
  predicate ByFormat(policy: Policy, current: Subtitle, offer: Subtitle) {
    || (current.format == "ass" && offer.format == "srt")
    || (current.format == "srt" && offer.format == "ass" && policy.preferAss)
  }

  // Outside them a subtitle that is not recent has to be beaten by the minimum, and a recent one by twice as much;
  // their decisions do not depend on score or age.
  lemma RecentNeedsTwice(policy: Policy, current: Subtitle, offer: Subtitle, age: FileAge, windowDays: int)
    ensures var accepted := ShouldUpgrade(policy, current, offer, IsRecent(age, windowDays));
      var gain := offer.score - current.score;
      if ByFormat(policy, current, offer) then accepted <==> offer.format == "ass"
      else if age.Days? && 0 < windowDays && age.days < windowDays as real
      then accepted <==> gain >= 2 * policy.minDelta
      else accepted <==> gain >= policy.minDelta
  {
  }

  // So age decides exactly about the gains between the minimum and its double; with a negative minimum it is the
  // recent subtitles that are given up more easily.
  lemma AgeDecidesExactly(policy: Policy, current: Subtitle, offer: Subtitle)
    ensures var gain, least := offer.score - current.score, policy.minDelta;
      var recent, settled := ShouldUpgrade(policy, current, offer, true), ShouldUpgrade(policy, current, offer, false);
      && (settled && !recent <==> !ByFormat(policy, current, offer) && least <= gain < 2 * least)
      && (recent && !settled <==> !ByFormat(policy, current, offer) && 2 * least <= gain < least)
  {
  }

  // The replacement was accepted, be the current subtitle recent or not.
  predicate Accepted(policy: Policy, current: Subtitle, offer: Subtitle) {
    ShouldUpgrade(policy, current, offer, true) || ShouldUpgrade(policy, current, offer, false)
  }

  predicate Replaced(policy: Policy, subtitles: seq<Subtitle>, i: nat)
    requires 0 < i < |subtitles|
  {
    Accepted(policy, subtitles[i - 1], subtitles[i])
  }

  // Each subtitle was replaced by the next.
  predicate Chain(policy: Policy, subtitles: seq<Subtitle>) {
    forall i :: 0 < i < |subtitles| ==> Replaced(policy, subtitles, i)
  }

  lemma SubChain(policy: Policy, subtitles: seq<Subtitle>, from: nat, to: nat)
    requires from <= to <= |subtitles| && Chain(policy, subtitles)
    ensures Chain(policy, subtitles[from..to])
  {
    hide Accepted;
    forall i | 0 < i < to - from
      ensures Replaced(policy, subtitles[from..to], i)
    {
      assert Replaced(policy, subtitles, from + i);
    }
  }

  lemma ChainsJoin(policy: Policy, a: seq<Subtitle>, b: seq<Subtitle>)
    requires a != [] && b != [] && Chain(policy, a) && Chain(policy, b)
    requires Accepted(policy, a[|a| - 1], b[0])
    ensures Chain(policy, a + b)
  {
    hide Accepted;
    forall i | 0 < i < |a + b|
      ensures Replaced(policy, a + b, i)
    {
      if i < |a| {
        assert Replaced(policy, a, i);
      } else if i > |a| {
        assert Replaced(policy, b, i - |a|);
      }
    }
  }

  predicate Scored(subtitles: seq<Subtitle>, top: nat) {
    forall s :: s in subtitles ==> 0 <= s.score <= top
  }

  predicate SrtOrAss(subtitles: seq<Subtitle>) {
    forall s :: s in subtitles ==> s.format == "srt" || s.format == "ass"
  }

  // ---- only SRT and ASS ------------------------------------------------------------------------

  // How many upgrades a subtitle can still go through: format first, then the score that is left to gain.
  function Measure(s: Subtitle, top: nat, delta: nat): int
    requires delta > 0 && s.score <= top
  {
    (top - s.score) / delta + if s.format == "srt" then top / delta + 1 else 0
  }

  lemma QuotientDrops(a: nat, b: nat, d: nat)
    requires d > 0 && a + d <= b
    ensures a / d < b / d
  {
    assert (a / d + 1) * d == a / d * d + d;
    LessByFactor(a / d + 1, b / d, d);
  }

  lemma StepDecreases(policy: Policy, top: nat, a: Subtitle, b: Subtitle)
    requires policy.minDelta > 0 && Scored([a, b], top) && SrtOrAss([a, b])
    requires Accepted(policy, a, b)
    ensures a.format == "ass" ==> b.format == "ass"
    ensures 0 <= Measure(b, top, policy.minDelta) < Measure(a, top, policy.minDelta)
  {
    assert a in [a, b] && b in [a, b];
    var d := policy.minDelta;
    DivMonotone(0, top - b.score, d);
    if a.format == b.format {
      QuotientDrops(top - b.score, top - a.score, d);
    } else {
      DivMonotone(top - b.score, top, d);
      DivMonotone(0, top - a.score, d);
    }
  }

  lemma {:induction false} ChainMeasure(policy: Policy, top: nat, subtitles: seq<Subtitle>)
    requires policy.minDelta > 0 && subtitles != []
    requires Chain(policy, subtitles) && Scored(subtitles, top) && SrtOrAss(subtitles)
    ensures 0 <= Measure(subtitles[|subtitles| - 1], top, policy.minDelta)
      <= Measure(subtitles[0], top, policy.minDelta) - (|subtitles| - 1)
    ensures subtitles[0].format == "ass" ==> subtitles[|subtitles| - 1].format == "ass"
  {
    hide Accepted, Measure;
    var n := |subtitles| - 1;
    if n == 0 {
      MeasureBounds(subtitles[0], top, policy.minDelta);
    } else {
      var front := subtitles[..n];
      SubChain(policy, subtitles, 0, n);
      assert subtitles[0..n] == front;
      ChainMeasure(policy, top, front);
      assert Replaced(policy, subtitles, n);
      StepDecreases(policy, top, front[n - 1], subtitles[n]);
    }
  }

  lemma MeasureBounds(s: Subtitle, top: nat, delta: nat)
    requires delta > 0 && 0 <= s.score <= top
    ensures 0 <= Measure(s, top, delta) <= 2 * (top / delta) + 1
  {
    DivMonotone(0, top - s.score, delta);
    DivMonotone(top - s.score, top, delta);
  }

  // Between SRT and ASS no chain of upgrades comes back to SRT, or has more than 2 * (top / delta) + 1 steps.
  lemma {:induction false} UpgradesEnd(policy: Policy, top: nat, subtitles: seq<Subtitle>)
    requires policy.minDelta > 0 && subtitles != []
    requires Chain(policy, subtitles) && Scored(subtitles, top) && SrtOrAss(subtitles)
    ensures |subtitles| - 1 <= 2 * (top / policy.minDelta) + 1
    ensures forall i, j :: 0 <= i < j < |subtitles| && subtitles[i].format == "ass" ==> subtitles[j].format == "ass"
  {
    hide Measure, Chain;
    ChainMeasure(policy, top, subtitles);
    MeasureBounds(subtitles[0], top, policy.minDelta);
    forall i, j | 0 <= i < j < |subtitles| && subtitles[i].format == "ass"
      ensures subtitles[j].format == "ass"
    {
      SubChain(policy, subtitles, i, j + 1);
      ChainMeasure(policy, top, subtitles[i..j + 1]);
    }
  }

  // Steps of exactly the minimum, from 0 up, in one format.
  function Ladder(format: string, delta: nat, n: nat): (steps: seq<Subtitle>)
    ensures |steps| == n + 1 && steps[n] == Subtitle(format, n * delta)
  {
    if n == 0 then [Subtitle(format, 0)] else Ladder(format, delta, n - 1) + [Subtitle(format, n * delta)]
  }

  lemma {:induction false} LadderClimbs(policy: Policy, format: string, top: nat, n: nat)
    requires policy.minDelta > 0 && n * policy.minDelta <= top
    ensures var steps := Ladder(format, policy.minDelta, n);
      && steps[0] == Subtitle(format, 0) && (forall s :: s in steps ==> s.format == format)
      && Chain(policy, steps) && Scored(steps, top)
  {
    hide Chain, Accepted;
    if n == 0 {
      SingleChain(policy, Subtitle(format, 0));
    } else {
      var d := policy.minDelta;
      MulMonotone(n - 1, n, d);
      LadderClimbs(policy, format, top, n - 1);
      RungAccepted(policy, format, n);
      SingleChain(policy, Subtitle(format, n * d));
      ChainsJoin(policy, Ladder(format, d, n - 1), [Subtitle(format, n * d)]);
    }
  }

  lemma SingleChain(policy: Policy, s: Subtitle)
    ensures Chain(policy, [s])
  {
  }

  lemma RungAccepted(policy: Policy, format: string, n: nat)
    requires n > 0
    ensures Accepted(policy, Subtitle(format, (n - 1) * policy.minDelta), Subtitle(format, n * policy.minDelta))
  {
    assert n * policy.minDelta == (n - 1) * policy.minDelta + policy.minDelta;
    assert ShouldUpgrade(policy, Subtitle(format, (n - 1) * policy.minDelta),
      Subtitle(format, n * policy.minDelta), false);
  }

  // The bound is reached: up the ladder as SRT, over to ASS at score 0, up the ladder again.
  lemma {:induction false} BoundReached(policy: Policy, top: nat) returns (subtitles: seq<Subtitle>)
    requires policy.minDelta > 0 && policy.preferAss
    ensures subtitles != [] && Chain(policy, subtitles) && Scored(subtitles, top) && SrtOrAss(subtitles)
    ensures |subtitles| - 1 == 2 * (top / policy.minDelta) + 1
  {
    hide Chain;
    var d := policy.minDelta;
    var n := top / d;
    var srt, ass := Ladder("srt", d, n), Ladder("ass", d, n);
    LadderClimbs(policy, "srt", top, n);
    LadderClimbs(policy, "ass", top, n);
    ChainsJoin(policy, srt, ass);
    subtitles := srt + ass;
  }

  // ---- any formats -----------------------------------------------------------------------------

  predicate OfFormats(subtitles: seq<Subtitle>, formats: set<string>) {
    forall s :: s in subtitles ==> s.format in formats
  }

  // The step that needs no gain in score.
  predicate IsPreferred(policy: Policy, a: Subtitle, b: Subtitle) {
    policy.preferAss && a.format == "srt" && b.format == "ass"
  }

  predicate NonePreferred(policy: Policy, subtitles: seq<Subtitle>) {
    forall i :: 0 < i < |subtitles| ==> !IsPreferred(policy, subtitles[i - 1], subtitles[i])
  }

  // Every other step gains at least the minimum.
  lemma {:induction false} Climbs(policy: Policy, subtitles: seq<Subtitle>)
    requires policy.minDelta > 0 && subtitles != [] && Chain(policy, subtitles) && NonePreferred(policy, subtitles)
    ensures subtitles[|subtitles| - 1].score - subtitles[0].score >= (|subtitles| - 1) * policy.minDelta
  {
    var n := |subtitles| - 1;
    if n == 0 {
    } else {
      SubChain(policy, subtitles, 0, n);
      assert subtitles[0..n] == subtitles[..n];
      Climbs(policy, subtitles[..n]);
      assert Replaced(policy, subtitles, n);
      assert n * policy.minDelta == (n - 1) * policy.minDelta + policy.minDelta;
    }
  }

  lemma {:induction false} ClimbEnds(policy: Policy, top: nat, subtitles: seq<Subtitle>)
    requires policy.minDelta > 0 && subtitles != [] && Chain(policy, subtitles) && NonePreferred(policy, subtitles)
    requires Scored(subtitles, top)
    ensures |subtitles| - 1 <= top / policy.minDelta
  {
    hide Chain, NonePreferred;
    Climbs(policy, subtitles);
    assert subtitles[0] in subtitles && subtitles[|subtitles| - 1] in subtitles;
    LessByFactor(|subtitles| - 1, top / policy.minDelta, policy.minDelta);
  }

  // Without the preference for ASS every upgrade gains score, whatever the formats.
  lemma {:induction false} NoPreferenceEnds(policy: Policy, top: nat, subtitles: seq<Subtitle>)
    requires policy.minDelta > 0 && !policy.preferAss && subtitles != []
    requires Chain(policy, subtitles) && Scored(subtitles, top)
    ensures |subtitles| - 1 <= top / policy.minDelta
  {
    ClimbEnds(policy, top, subtitles);
  }

  // What four replacements in a row would need: twice the minimum, or a step from ASS to SRT.
  lemma FiveAreTooMany(policy: Policy, top: nat, a: Subtitle, b: Subtitle, c: Subtitle, d: Subtitle, e: Subtitle)
    requires policy.minDelta > 0 && top < 2 * policy.minDelta && Scored([a, b, c, d, e], top)
    ensures !(Accepted(policy, a, b) && Accepted(policy, b, c) && Accepted(policy, c, d) && Accepted(policy, d, e))
  {
    assert a in [a, b, c, d, e] && b in [a, b, c, d, e] && c in [a, b, c, d, e];
    assert d in [a, b, c, d, e] && e in [a, b, c, d, e];
    hide Accepted;
    StepGains(policy, a, b);
    StepGains(policy, b, c);
    StepGains(policy, c, d);
    StepGains(policy, d, e);
  }

  lemma StepGains(policy: Policy, a: Subtitle, b: Subtitle)
    requires policy.minDelta > 0
    ensures Accepted(policy, a, b) ==>
      && !(a.format == "ass" && b.format == "srt")
      && (b.score - a.score >= policy.minDelta || IsPreferred(policy, a, b))
  {
  }

  // When no score is twice the minimum, no chain over any formats has more than four subtitles.
  lemma {:induction false} LowScoresEnd(policy: Policy, top: nat, subtitles: seq<Subtitle>)
    requires policy.minDelta > 0 && top < 2 * policy.minDelta
    requires Chain(policy, subtitles) && Scored(subtitles, top)
    ensures |subtitles| <= 4
  {
    if |subtitles| > 4 {
      assert Replaced(policy, subtitles, 1) && Replaced(policy, subtitles, 2);
      assert Replaced(policy, subtitles, 3) && Replaced(policy, subtitles, 4);
      FiveAreTooMany(policy, top, subtitles[0], subtitles[1], subtitles[2], subtitles[3], subtitles[4]);
    }
  }

  function Times(cycle: seq<Subtitle>, rounds: nat): (r: seq<Subtitle>)
    ensures |r| == rounds * |cycle|
  {
    if rounds == 0 then [] else Times(cycle, rounds - 1) + cycle
  }

  // From twice the minimum on, a third format is enough to go round for ever: away from ASS, on to SRT, and
  // back to ASS.
  lemma {:induction false} ThirdFormatCycles(policy: Policy, top: nat, third: string, rounds: nat)
    requires policy.minDelta > 0 && policy.preferAss && top >= 2 * policy.minDelta
    requires third != "ass" && third != "srt"
    ensures var d := policy.minDelta;
      var subtitles := Times([Subtitle("ass", 0), Subtitle(third, d), Subtitle("srt", 2 * d)], rounds);
      && Chain(policy, subtitles) && Scored(subtitles, top) && |subtitles| == 3 * rounds
      && OfFormats(subtitles, {"ass", "srt", third})
  {
    var d := policy.minDelta;
    var cycle := [Subtitle("ass", 0), Subtitle(third, d), Subtitle("srt", 2 * d)];
    assert Replaced(policy, cycle, 1) && Replaced(policy, cycle, 2);
    RoundsChain(policy, top, {"ass", "srt", third}, cycle, rounds);
  }

  lemma {:induction false} RoundsChain(policy: Policy, top: nat, formats: set<string>, cycle: seq<Subtitle>,
      rounds: nat)
    requires cycle != [] && Chain(policy, cycle) && Scored(cycle, top) && OfFormats(cycle, formats)
    requires Accepted(policy, cycle[|cycle| - 1], cycle[0])
    ensures var all := Times(cycle, rounds);
      && Chain(policy, all) && Scored(all, top) && OfFormats(all, formats)
      && (rounds > 0 ==> all != [] && all[|all| - 1] == cycle[|cycle| - 1])
  {
    hide Accepted;
    if rounds == 1 {
      assert Times(cycle, 1) == [] + cycle == cycle;
    } else if rounds > 1 {
      RoundsChain(policy, top, formats, cycle, rounds - 1);
      ChainsJoin(policy, Times(cycle, rounds - 1), cycle);
    }
  }

  // ---- exactly when upgrading comes to an end ---------------------------------------------------------

  // No chain over these formats has more than n subtitles.
  ghost predicate Bounded(policy: Policy, top: nat, formats: set<string>, n: nat) {
    forall subtitles: seq<Subtitle> ::
      Chain(policy, subtitles) && Scored(subtitles, top) && OfFormats(subtitles, formats) ==> |subtitles| <= n
  }

  // ASS is preferred to SRT, some other format leads from the one to the other, and scores leave room for it.
  predicate CanCycle(policy: Policy, top: nat, formats: set<string>) {
    && policy.preferAss && top >= 2 * policy.minDelta
    && "ass" in formats && "srt" in formats && exists f :: f in formats && f != "ass" && f != "srt"
  }

  lemma WithoutBothEnds(policy: Policy, top: nat, formats: set<string>, subtitles: seq<Subtitle>)
    requires policy.minDelta > 0 && ("ass" !in formats || "srt" !in formats)
    requires Chain(policy, subtitles) && Scored(subtitles, top) && OfFormats(subtitles, formats)
    ensures |subtitles| <= top / policy.minDelta + 1
  {
    hide Chain;
    DivMonotone(0, top, policy.minDelta);
    if subtitles != [] {
      ClimbEnds(policy, top, subtitles);
    }
  }

  // A bound for every chain when there is no way to cycle.
  lemma {:induction false} EndsWithoutCycle(policy: Policy, top: nat, formats: set<string>, subtitles: seq<Subtitle>)
    requires policy.minDelta > 0 && !CanCycle(policy, top, formats)
    requires Chain(policy, subtitles) && Scored(subtitles, top) && OfFormats(subtitles, formats)
    ensures |subtitles| <= 2 * (top / policy.minDelta) + 4
  {
    hide Chain, Scored;
    DivMonotone(0, top, policy.minDelta);
    if subtitles != [] {
      if !policy.preferAss {
        NoPreferenceEnds(policy, top, subtitles);
      } else if top < 2 * policy.minDelta {
        LowScoresEnd(policy, top, subtitles);
      } else if "ass" !in formats || "srt" !in formats {
        WithoutBothEnds(policy, top, formats, subtitles);
      } else {
        assert SrtOrAss(subtitles);
        UpgradesEnd(policy, top, subtitles);
      }
    }
  }

  lemma {:induction false} ConstantChain(policy: Policy, s: Subtitle, n: nat)
    requires policy.minDelta <= 0
    ensures Chain(policy, Times([s], n))
    ensures forall x :: x in Times([s], n) ==> x == s
  {
    hide Chain, Accepted;
    if n == 0 {
      SubChainOfNone(policy);
    } else {
      ConstantChain(policy, s, n - 1);
      SingleChain(policy, s);
      if n == 1 {
        assert Times([s], 1) == [] + [s] == [s];
      } else {
        SameAccepted(policy, s);
        var front := Times([s], n - 1);
        assert front[|front| - 1] in front;
        ChainsJoin(policy, front, [s]);
      }
    }
  }

  lemma SubChainOfNone(policy: Policy)
    ensures Chain(policy, [])
  {
  }

  lemma SameAccepted(policy: Policy, s: Subtitle)
    requires policy.minDelta <= 0
    ensures Accepted(policy, s, s)
  {
  }

  // Chains over a set of formats are bounded if and only if the minimum is positive and there is no cycle.
  lemma {:induction false} UpgradesEndExactly(policy: Policy, top: nat, formats: set<string>)
    requires formats != {}
    ensures (exists n: nat :: Bounded(policy, top, formats, n))
      <==> policy.minDelta > 0 && !CanCycle(policy, top, formats)
  {
    if policy.minDelta <= 0 {
      forall n: nat
        ensures !Bounded(policy, top, formats, n)
      {
        var f :| f in formats;
        ConstantChain(policy, Subtitle(f, 0), n + 1);
        assert |Times([Subtitle(f, 0)], n + 1)| == n + 1;
      }
    } else if CanCycle(policy, top, formats) {
      forall n: nat
        ensures !Bounded(policy, top, formats, n)
      {
        CycleUnbounded(policy, top, formats, n);
      }
    } else {
      forall subtitles: seq<Subtitle> |
        Chain(policy, subtitles) && Scored(subtitles, top) && OfFormats(subtitles, formats)
        ensures |subtitles| <= 2 * (top / policy.minDelta) + 4
      {
        EndsWithoutCycle(policy, top, formats, subtitles);
      }
      DivMonotone(0, top, policy.minDelta);
      assert Bounded(policy, top, formats, 2 * (top / policy.minDelta) + 4);
    }
  }

  lemma CycleUnbounded(policy: Policy, top: nat, formats: set<string>, n: nat)
    requires policy.minDelta > 0 && CanCycle(policy, top, formats)
    ensures !Bounded(policy, top, formats, n)
  {
    hide Chain, Scored;
    var third :| third in formats && third != "ass" && third != "srt";
    var d := policy.minDelta;
    ThirdFormatCycles(policy, top, third, n + 1);
    var subtitles := Times([Subtitle("ass", 0), Subtitle(third, d), Subtitle("srt", 2 * d)], n + 1);
    assert OfFormats(subtitles, formats) && |subtitles| > n;
  }

  // ---- scoring a file --------------------------------------------------------------------------

  function BaseScore(format: string): nat {
    match format
    case "ass" => 300
    case "ssa" => 280
    case "srt" => 150
    case _ => 100
  }

  datatype Threshold = Threshold(size: nat, bonus: nat)

  const THRESHOLDS := [Threshold(50_000, 20), Threshold(100_000, 30), Threshold(200_000, 40)]

  // The bonus of the last of the first n thresholds that is reached.
  function Bonus(size: nat, n: nat): nat
    requires n <= |THRESHOLDS|
  {
    if n == 0 then 0 else if size >= THRESHOLDS[n - 1].size then THRESHOLDS[n - 1].bonus else Bonus(size, n - 1)
  }

  function FileScore(format: string, size: Option<nat>): nat {
    BaseScore(format) + if size.Some? then Bonus(size.value, |THRESHOLDS|) else 0
  }

  lemma BonusOfThree(size: nat)
    ensures Bonus(size, |THRESHOLDS|)
      == if size >= 200_000 then 40 else if size >= 100_000 then 30 else if size >= 50_000 then 20 else 0
  {
    assert THRESHOLDS[2].size == 200_000 && THRESHOLDS[1].size == 100_000 && THRESHOLDS[0].size == 50_000;
    assert Bonus(size, 1) == if size >= 50_000 then 20 else Bonus(size, 0);
    assert Bonus(size, 2) == if size >= 100_000 then 30 else Bonus(size, 1);
  }

  // The sizes at which a score jumps; without a readable size a file scores like an empty one.
  lemma BonusSteps(format: string, size: nat)
    ensures FileScore(format, None) == FileScore(format, Some(0))
    ensures FileScore(format, Some(size)) - FileScore(format, Some(0))
      == if size >= 200_000 then 40 else if size >= 100_000 then 30 else if size >= 50_000 then 20 else 0
  {
    BonusOfThree(size);
    BonusOfThree(0);
  }

  // Every ASS or SSA file outscores every SRT file, and every SRT file those of any other format; between ASS and SSA
  // the size decides exactly when the bonus makes up for twenty points.
  lemma FormatsCompared(a: Option<nat>, b: Option<nat>, other: string)
    ensures FileScore("srt", a) < FileScore("ssa", b) && FileScore("srt", a) < FileScore("ass", b)
    ensures other !in ["ass", "ssa", "srt"] ==> FileScore(other, a) < FileScore("srt", b)
    ensures var x, y := FileScore("ssa", a) - FileScore("ssa", None), FileScore("ass", b) - FileScore("ass", None);
      FileScore("ssa", a) >= FileScore("ass", b) <==> x >= y + 20
  {
    BonusBounded(a);
    BonusBounded(b);
  }

  lemma BonusBounded(size: Option<nat>)
    ensures forall format :: BaseScore(format) <= FileScore(format, size) <= BaseScore(format) + 40
  {
    if size.Some? {
      BonusSteps("", size.value);
    }
  }

  // What scoring a file found on disk can score at all.
  lemma ScoresInRange(format: string, size: Option<nat>)
    ensures 100 <= FileScore(format, size) <= 340
    ensures FileScore(format, size) == 340 <==> format == "ass" && size.Some? && size.value >= 200_000
  {
    BonusBounded(size);
    if size.Some? {
      BonusSteps(format, size.value);
    }
  }
}

/** The scoring loop over the size thresholds. */
module UpgradeScorer {
  import opened PyText
  import opened UpgradeSpec

  // A missing file scores 0 in no format; without a readable size there is no bonus. Later thresholds
  // overwrite earlier ones.
  method ScoreExisting(present: bool, extension: string, size: Option<nat>) returns (s: Subtitle)
    ensures !present ==> s == Subtitle("", 0)
    ensures present ==> s.format == extension && s.score == FileScore(extension, size)
  {
    if !present {
      return Subtitle("", 0);
    }
    var score := BaseScore(extension);
    if size.None? {
      return Subtitle(extension, score);
    }
    for i := 0 to |THRESHOLDS|
      invariant score == BaseScore(extension) + Bonus(size.value, i)
    {
      if size.value >= THRESHOLDS[i].size {
        score := BaseScore(extension) + THRESHOLDS[i].bonus;
      }
    }
    s := Subtitle(extension, score);
  }
}

/** Requests for fixes by name: which fix a name stands for, which lists of names work, and what is reported. */
module FixRequests {
  import opened PyText
  import opened Subtitles
  import opened HealthSpec
  import opened FixOrders
  import opened HealthChecker

  // The name a check gives its issues.
  function CheckName(check: Check): string {
    match check
    case DuplicateLines => "duplicate_lines"
    case TimingOverlaps => "timing_overlaps"
    case MissingStyles => "missing_styles"
    case EmptyEvents => "empty_events"
    case ExcessiveDuration => "excessive_duration"
    case NegativeTiming => "negative_timing"
    case ZeroDuration => "zero_duration"
    case LineTooLong => "line_too_long"
    case MissingNewlines => "missing_newlines"
  }

  // What the run of a request yields, from the events alone.
  function Requested(names: seq<string>, context: Context, cues: seq<Cue>): Outcome {
    ApplyAll(names, context, Outcome(cues, [], map[]))
  }

  lemma NameKnown(check: Check)
    requires check in FIX_ORDER
    ensures FixNamed(CheckName(check)) == Some(check)
  {
  }

  lemma FixHasName(name: string)
    requires FixNamed(name).Some?
    ensures FixNamed(name).value in FIX_ORDER && CheckName(FixNamed(name).value) == name
  {
    var all := FIX_ORDER;
    assert all == [all[0], all[1], all[2], all[3], all[4], all[5]];
  }

  lemma NamesFix(name: string)
    ensures match FixNamed(name)
      case None => forall check :: check in FIX_ORDER ==> CheckName(check) != name
      case Some(fix) => fix in FIX_ORDER && CheckName(fix) == name
  {
    hide FixNamed, CheckName;
    if FixNamed(name).Some? {
      FixHasName(name);
    } else {
      forall check | check in FIX_ORDER
        ensures CheckName(check) != name
      {
        NameKnown(check);
      }
    }
  }

  lemma OneName(name: string, context: Context, cues: seq<Cue>)
    ensures Requested([name], context, cues) == ApplyOne(name, context, Outcome(cues, [], map[]))
  {
    hide ApplyOne;
    var names, next := [name], ApplyOne(name, context, Outcome(cues, [], map[]));
    assert names[1..] == [] && ApplyAll([], context, next) == next;
  }

  lemma NamedRun(check: Check, context: Context, cues: seq<Cue>)
    requires check in FIX_ORDER
    ensures Requested([CheckName(check)], context, cues).cues == Fixed(check, context, cues)
  {
    hide Fixed, Count, Requested, FixNamed, CheckName;
    NameKnown(check);
    OneName(CheckName(check), context, cues);
  }

  lemma UnnamedRun(name: string, context: Context, cues: seq<Cue>)
    requires forall check :: check in FIX_ORDER ==> name != CheckName(check)
    ensures Requested([name], context, cues) == Outcome(cues, [], map[])
  {
    hide Fixed, Count, Requested, FixNamed, CheckName;
    NamesFix(name);
    OneName(name, context, cues);
  }

  // Each of the six names stands for the fix of the check of that name, and any other name for nothing.
  lemma NameRunsItsFix(context: Context, cues: seq<Cue>)
    ensures Requested(["duplicate_lines"], context, cues).cues == Fixed(DuplicateLines, context, cues)
    ensures Requested(["timing_overlaps"], context, cues).cues == Fixed(TimingOverlaps, context, cues)
    ensures Requested(["missing_styles"], context, cues).cues == Fixed(MissingStyles, context, cues)
    ensures Requested(["empty_events"], context, cues).cues == Fixed(EmptyEvents, context, cues)
    ensures Requested(["negative_timing"], context, cues).cues == Fixed(NegativeTiming, context, cues)
    ensures Requested(["zero_duration"], context, cues).cues == Fixed(ZeroDuration, context, cues)
    ensures forall name: string :: (forall check :: check in FIX_ORDER ==> name != CheckName(check)) ==>
      Requested([name], context, cues) == Outcome(cues, [], map[])
  {
    hide Fixed, Requested;
    NamedRun(DuplicateLines, context, cues);
    NamedRun(TimingOverlaps, context, cues);
    NamedRun(MissingStyles, context, cues);
    NamedRun(EmptyEvents, context, cues);
    NamedRun(NegativeTiming, context, cues);
    NamedRun(ZeroDuration, context, cues);
    hide CheckName;
    forall name: string | forall check :: check in FIX_ORDER ==> name != CheckName(check)
      ensures Requested([name], context, cues) == Outcome(cues, [], map[])
    {
      UnnamedRun(name, context, cues);
    }
  }

  // ---- which lists of names work -------------------------------------------------------------------

  // The names in the request: styles and inverted events before overlaps, zero durations and duplicates after
  // them, empty events anywhere.
  predicate WorkingRequest(names: seq<string>) {
    && "empty_events" in names
    && exists k :: 0 <= k < |names| && names[k] == "timing_overlaps"
         && "missing_styles" in names[..k] && "negative_timing" in names[..k]
         && "zero_duration" in names[k..] && "duplicate_lines" in names[k..]
  }

  lemma {:induction false} KnownConcat(a: seq<string>, b: seq<string>)
    ensures KnownFixes(a + b) == KnownFixes(a) + KnownFixes(b)
  {
    hide FixNamed;
    if a == [] {
      assert a + b == b;
    } else {
      assert (a + b)[1..] == a[1..] + b;
      KnownConcat(a[1..], b);
    }
  }

  lemma {:induction false} KnownMembers(names: seq<string>, check: Check)
    requires check in FIX_ORDER
    ensures check in KnownFixes(names) <==> CheckName(check) in names
  {
    if names == [] {
    } else {
      KnownMembers(names[1..], check);
      NamesFix(names[0]);
      hide FixNamed;
      SameName(check, FixNamed(names[0]));
      assert names == [names[0]] + names[1..];
    }
  }

  // Checks have different names.
  lemma SameName(check: Check, other: Option<Check>)
    ensures other.Some? ==> (CheckName(check) == CheckName(other.value) <==> check == other.value)
  {
    var all := ["duplicate_lines", "timing_overlaps", "missing_styles", "empty_events", "excessive_duration",
      "negative_timing", "zero_duration", "line_too_long", "missing_newlines"];
  }

  // Where the names are cut, the fixes are cut.
  lemma KnownAt(names: seq<string>, k: nat)
    requires k < |names| && FixNamed(names[k]).Some?
    ensures var fixes, at := KnownFixes(names), |KnownFixes(names[..k])|;
      && at < |fixes| && fixes[at] == FixNamed(names[k]).value
      && fixes[..at] == KnownFixes(names[..k]) && fixes[at..] == KnownFixes(names[k..])
  {
    KnownConcat(names[..k], names[k..]);
    assert names == names[..k] + names[k..];
  }

  // Every fix of a request comes from one of its names.
  lemma {:induction false} KnownFrom(names: seq<string>, at: nat) returns (k: nat)
    requires at < |KnownFixes(names)|
    ensures k < |names| && FixNamed(names[k]).Some? && |KnownFixes(names[..k])| == at
  {
    hide FixNamed;
    k := 0;
    var first := FixNamed(names[0]).Some?;
    if !first || at > 0 {
      var rest := KnownFrom(names[1..], if first then at - 1 else at);
      k := rest + 1;
      assert names[..k][1..] == names[1..][..rest];
    }
  }

  lemma {:induction false} WorkingNames(names: seq<string>)
    ensures WorkingOrder(KnownFixes(names)) <==> WorkingRequest(names)
  {
    hide FixNamed, KnownFixes;
    var fixes := KnownFixes(names);
    KnownMembers(names, EmptyEvents);
    if WorkingRequest(names) {
      var k :| 0 <= k < |names| && names[k] == "timing_overlaps"
        && "missing_styles" in names[..k] && "negative_timing" in names[..k]
        && "zero_duration" in names[k..] && "duplicate_lines" in names[k..];
      OverlapsNamed(names[k]);
      TrimAt(names, k);
      assert TrimsInTime(fixes, |KnownFixes(names[..k])|);
    }
    if WorkingOrder(fixes) {
      var at :| 0 <= at < |fixes| && TrimsInTime(fixes, at)
        && ZeroDuration in fixes[at..] && DuplicateLines in fixes[at..];
      var k := KnownFrom(names, at);
      TrimAt(names, k);
      OverlapsNamed(names[k]);
      assert names[k] == "timing_overlaps";
    }
  }

  lemma OverlapsNamed(name: string)
    ensures FixNamed(name) == Some(TimingOverlaps) <==> name == "timing_overlaps"
  {
    NamesFix(name);
  }

  lemma TrimAt(names: seq<string>, k: nat)
    requires k < |names| && FixNamed(names[k]).Some?
    ensures var fixes, at := KnownFixes(names), |KnownFixes(names[..k])|;
      && at < |fixes| && fixes[at] == FixNamed(names[k]).value
      && (MissingStyles in fixes[..at] <==> "missing_styles" in names[..k])
      && (NegativeTiming in fixes[..at] <==> "negative_timing" in names[..k])
      && (ZeroDuration in fixes[at..] <==> "zero_duration" in names[k..])
      && (DuplicateLines in fixes[at..] <==> "duplicate_lines" in names[k..])
  {
    hide FixNamed, KnownFixes;
    KnownAt(names, k);
    KnownMembers(names[..k], MissingStyles);
    KnownMembers(names[..k], NegativeTiming);
    KnownMembers(names[k..], ZeroDuration);
    KnownMembers(names[k..], DuplicateLines);
  }

  lemma RequestedCues(names: seq<string>, context: Context, cues: seq<Cue>)
    ensures Requested(names, context, cues).cues == FixedAll(KnownFixes(names), context, cues)
  {
    ApplyAllFixes(names, context, Outcome(cues, [], map[]));
  }

  // A request leaves all six checks silent, for all events and all styles with Default among them, if and only if
  // its names are in such an order.
  lemma RequestsThatWork(texts: TextFacts, names: seq<string>)
    requires Shows(texts)
    ensures (forall styles: set<string>, cues: seq<Cue> :: "Default" in styles ==>
        AllSilent(Context(styles, texts), Requested(names, Context(styles, texts), cues).cues))
      <==> WorkingRequest(names)
  {
    hide AllSilent, Requested, FixedAll, KnownFixes, WorkingOrder, WorkingRequest, Shows;
    WorkingNames(names);
    if WorkingRequest(names) {
      forall styles: set<string>, cues: seq<Cue> | "Default" in styles
        ensures AllSilent(Context(styles, texts), Requested(names, Context(styles, texts), cues).cues)
      {
        RequestedCues(names, Context(styles, texts), cues);
        WorkingOrderSilences(KnownFixes(names), Context(styles, texts), cues);
      }
    } else {
      var cues := WitnessAgainst(texts, KnownFixes(names));
      RequestedCues(names, Witness(texts), cues);
      assert "Default" in Witness(texts).styles;
    }
  }

  const ALL_NAMES: seq<string> :=
    ["missing_styles", "negative_timing", "timing_overlaps", "zero_duration", "empty_events", "duplicate_lines"]

  // Requesting all six names in this order leaves none of the six checks with an issue, and never lowers the score.
  lemma AllNamesSilence(encoding: nat, context: Context, cues: seq<Cue>)
    ensures var fixed := Requested(ALL_NAMES, context, cues).cues;
      && Silent(NegativeTiming, context, fixed)
      && Silent(TimingOverlaps, context, fixed)
      && Silent(ZeroDuration, context, fixed)
      && Silent(EmptyEvents, context, fixed)
      && Silent(DuplicateLines, context, fixed)
      && (context.styles == {} || "Default" in context.styles ==> Silent(MissingStyles, context, fixed))
      && HealthScore(encoding, context, fixed) >= HealthScore(encoding, context, cues)
  {
    hide Silent, HealthScore, FixedAll, Requested;
    AllNamesKnown();
    RequestedCues(ALL_NAMES, context, cues);
    FixOrderSilences(context, cues);
    FixOrderKeepsScore(encoding, context, cues);
  }

  lemma AllNamesKnown()
    ensures KnownFixes(ALL_NAMES) == FIX_ORDER
  {
    KnownConcat(["missing_styles", "negative_timing", "timing_overlaps"],
      ["zero_duration", "empty_events", "duplicate_lines"]);
    assert ALL_NAMES == ["missing_styles", "negative_timing", "timing_overlaps"]
      + ["zero_duration", "empty_events", "duplicate_lines"];
    ThreeKnown("missing_styles", "negative_timing", "timing_overlaps");
    ThreeKnown("zero_duration", "empty_events", "duplicate_lines");
  }

  lemma ThreeKnown(a: string, b: string, c: string)
    requires FixNamed(a).Some? && FixNamed(b).Some? && FixNamed(c).Some?
    ensures KnownFixes([a, b, c]) == [FixNamed(a).value, FixNamed(b).value, FixNamed(c).value]
  {
    hide FixNamed;
    assert [a, b, c][1..] == [b, c] && [b, c][1..] == [c] && [c][1..] == [];
    assert KnownFixes([c]) == [FixNamed(c).value] + KnownFixes([]);
    assert KnownFixes([b, c]) == [FixNamed(b).value] + KnownFixes([c]);
  }

  // ---- what is reported ----------------------------------------------------------------------------

  // The events when the i-th request is looked at.
  function EventsAt(names: seq<string>, context: Context, cues: seq<Cue>, i: nat): seq<Cue>
    requires i <= |names|
  {
    Requested(names[..i], context, cues).cues
  }

  // The fix of that request finds events to touch.
  ghost predicate Touches(names: seq<string>, context: Context, cues: seq<Cue>, i: nat)
    requires i < |names|
  {
    exists check :: check in FIX_ORDER && CheckName(check) == names[i]
      && !Silent(check, context, EventsAt(names, context, cues, i))
  }

  // The request that is reported for a name, and its check.
  ghost predicate Reports(names: seq<string>, context: Context, cues: seq<Cue>, n: nat, i: nat, check: Check)
    requires n <= |names|
  {
    && i < n && Touches(names, context, cues, i)
    && (forall j :: i < j < n && names[j] == names[i] ==> !Touches(names, context, cues, j))
    && check in FIX_ORDER && CheckName(check) == names[i]
  }

  // The number that is reported for a name: of the events that its last run to find any has found.
  ghost predicate IsReported(names: seq<string>, context: Context, cues: seq<Cue>, n: nat, name: string, count: nat)
    requires n <= |names|
  {
    exists i: nat, check :: Reports(names, context, cues, n, i, check) && names[i] == name
      && count == Count(check, context, EventsAt(names, context, cues, i))
  }

  // The touching requests among the first n, in order.
  ghost function TouchingNames(names: seq<string>, context: Context, cues: seq<Cue>, n: nat): seq<string>
    requires n <= |names|
  {
    if n == 0 then []
    else
      var earlier := TouchingNames(names, context, cues, n - 1);
      if Touches(names, context, cues, n - 1) then earlier + [names[n - 1]] else earlier
  }

  lemma {:induction false} ApplyAppend(names: seq<string>, name: string, context: Context, state: Outcome)
    ensures ApplyAll(names + [name], context, state) == ApplyOne(name, context, ApplyAll(names, context, state))
    decreases |names|
  {
    hide ApplyOne;
    if names == [] {
      assert names + [name] == [name] && [name][1..] == [];
    } else {
      assert (names + [name])[1..] == names[1..] + [name];
      ApplyAppend(names[1..], name, context, ApplyOne(names[0], context, state));
    }
  }

  lemma RequestedNext(names: seq<string>, context: Context, cues: seq<Cue>, n: nat)
    requires n < |names|
    ensures Requested(names[..n + 1], context, cues)
      == ApplyOne(names[n], context, Requested(names[..n], context, cues))
  {
    assert names[..n + 1] == names[..n] + [names[n]];
    ApplyAppend(names[..n], names[n], context, Outcome(cues, [], map[]));
  }

  lemma OneReports(names: seq<string>, context: Context, cues: seq<Cue>, n: nat)
    requires n < |names|
    ensures var before, after := Requested(names[..n], context, cues), Requested(names[..n + 1], context, cues);
      if Touches(names, context, cues, n)
      then
        exists check :: check in FIX_ORDER && CheckName(check) == names[n]
          && after.applied == before.applied + [names[n]]
          && after.counts == before.counts[names[n] := Count(check, context, before.cues)]
      else after.applied == before.applied && after.counts == before.counts
  {
    hide Requested, FixNamed, Fixed, Flagged;
    RequestedNext(names, context, cues, n);
    NamesFix(names[n]);
    forall check | check in FIX_ORDER && CheckName(check) == names[n]
      ensures FixNamed(names[n]) == Some(check)
    {
      NameKnown(check);
    }
  }

  lemma NothingRequested(names: seq<string>, context: Context, cues: seq<Cue>)
    ensures Requested(names[..0], context, cues) == Outcome(cues, [], map[])
  {
    assert names[..0] == [];
  }

  lemma ReportedNext(names: seq<string>, context: Context, cues: seq<Cue>, n: nat, name: string)
    requires n < |names|
    requires var before := Requested(names[..n], context, cues);
      name in before.counts ==> IsReported(names, context, cues, n, name, before.counts[name])
    requires name in Requested(names[..n + 1], context, cues).counts
    ensures IsReported(names, context, cues, n + 1, name, Requested(names[..n + 1], context, cues).counts[name])
  {
    hide Requested, FixNamed, CheckName, Count, Touches;
    OneReports(names, context, cues, n);
    var before, after := Requested(names[..n], context, cues), Requested(names[..n + 1], context, cues);
    if Touches(names, context, cues, n) && names[n] == name {
      var check :| check in FIX_ORDER && CheckName(check) == name
        && after.counts == before.counts[name := Count(check, context, before.cues)];
      assert Reports(names, context, cues, n + 1, n, check);
    } else {
      var i: nat, check :| Reports(names, context, cues, n, i, check) && names[i] == name
        && before.counts[name] == Count(check, context, EventsAt(names, context, cues, i));
      assert Reports(names, context, cues, n + 1, i, check);
    }
  }

  // A name is listed once for each of its requests that found events to touch, in order; it is counted exactly when
  // it is listed, with the number of events found by the last such request.
  lemma {:induction false} ReportExactly(names: seq<string>, context: Context, cues: seq<Cue>, n: nat)
    requires n <= |names|
    ensures var done := Requested(names[..n], context, cues);
      && done.applied == TouchingNames(names, context, cues, n)
      && (forall name :: name in done.counts <==> name in done.applied)
      && (forall name :: name in done.counts ==> IsReported(names, context, cues, n, name, done.counts[name]))
  {
    hide Requested, Touches, FixNamed, CheckName, Count, IsReported;
    if n == 0 {
      NothingRequested(names, context, cues);
    } else {
      ReportExactly(names, context, cues, n - 1);
      OneReports(names, context, cues, n - 1);
      forall name | name in Requested(names[..n], context, cues).counts
        ensures IsReported(names, context, cues, n, name, Requested(names[..n], context, cues).counts[name])
      {
        ReportedNext(names, context, cues, n - 1, name);
      }
    }
  }
}

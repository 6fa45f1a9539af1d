/** The health checker itself: loops over the event list that report issues and mend events in place. */
module HealthChecker {
  import opened PyText
  import opened IndexDeletion
  import opened Subtitles
  import opened HealthSpec
  import opened EventGroups

  function ContextOf(file: SubFile): Context {
    Context(file.styles, file.texts)
  }

  // ---- lists of flagged positions --------------------------------------------------------------

  predicate Distinct(ids: seq<nat>) {
    forall a, b :: 0 <= a < b < |ids| ==> ids[a] != ids[b]
  }

  // `flagged` lists, in some order, the positions in `done` that the check objects to.
  ghost predicate Charged(check: Check, context: Context, cues: seq<Cue>, done: set<nat>, flagged: seq<nat>) {
    && Distinct(flagged)
    && forall i: nat :: i in flagged <==> i in done && i < |cues| && Bad(check, context, cues, i)
  }

  lemma {:induction false} ChargeNext(check: Check, context: Context, cues: seq<Cue>, done: set<nat>, flagged: seq<nat>,
      i: nat)
    requires Charged(check, context, cues, done, flagged) && i < |cues| && i !in done
    ensures Charged(check, context, cues, done + {i},
      if Bad(check, context, cues, i) then flagged + [i] else flagged)
  {
  }

  lemma {:induction false} DistinctCount(ids: seq<nat>, x: nat)
    requires Distinct(ids)
    ensures multiset(ids)[x] == if x in ids then 1 else 0
  {
    if ids == [] {
    } else {
      DistinctCount(ids[1..], x);
      assert ids == [ids[0]] + ids[1..];
    }
  }

  lemma {:induction false} SameElements(a: seq<nat>, b: seq<nat>)
    requires Distinct(a) && Distinct(b) && forall x: nat :: x in a <==> x in b
    ensures multiset(a) == multiset(b) && |a| == |b|
  {
    forall x: nat
      ensures multiset(a)[x] == multiset(b)[x]
    {
      DistinctCount(a, x);
      DistinctCount(b, x);
    }
    assert multiset(a) == multiset(b);
    assert |a| == |multiset(a)| == |multiset(b)| == |b|;
  }

  // Once everything is done, the list is a permutation of the flagged positions.
  lemma {:induction false} ChargedAll(check: Check, context: Context, cues: seq<Cue>, done: set<nat>, flagged: seq<nat>)
    requires Charged(check, context, cues, done, flagged)
    requires forall i :: 0 <= i < |cues| && !cues[i].isComment ==> i in done
    ensures multiset(flagged) == multiset(Flagged(check, context, cues, |cues|))
    ensures |flagged| == Count(check, context, cues)
  {
    FlaggedExact(check, context, cues, |cues|);
    SameElements(flagged, Flagged(check, context, cues, |cues|));
  }

  // ---- penalties do not depend on the order of the issues --------------------------------------

  lemma {:induction false} PenaltyAppend(a: seq<Issue>, b: seq<Issue>)
    ensures Penalty(a + b) == Penalty(a) + Penalty(b)
  {
    if b == [] {
      assert a + b == a;
    } else {
      PenaltyAppend(a, b[..|b| - 1]);
      assert (a + b)[..|a + b| - 1] == a + b[..|b| - 1];
    }
  }

  lemma {:induction false} PenaltyTakesOut(issues: seq<Issue>, k: nat)
    requires k < |issues|
    ensures Penalty(issues) == Penalty(issues[..k] + issues[k + 1..]) + Points(issues[k].severity)
  {
    PenaltyAppend(issues[..k], issues[k..k + 1]);
    PenaltyAppend(issues[..k + 1], issues[k + 1..]);
    PenaltyAppend(issues[..k], issues[k + 1..]);
    assert issues[..k] + issues[k..k + 1] == issues[..k + 1];
    assert issues[..k + 1] + issues[k + 1..] == issues;
    assert Penalty(issues[k..k + 1]) == Penalty([]) + Points(issues[k].severity) by {
      assert issues[k..k + 1][..0] == [];
    }
  }

  // The last element of a can be taken out of b as well.
  lemma {:induction false} TakeOutLast(a: seq<nat>, b: seq<nat>) returns (k: nat)
    requires a != [] && multiset(a) == multiset(b)
    ensures k < |b| && b[k] == a[|a| - 1]
    ensures multiset(a[..|a| - 1]) == multiset(b[..k] + b[k + 1..])
  {
    var last := a[|a| - 1];
    assert a == a[..|a| - 1] + [last];
    assert last in multiset(b);
    k :| k < |b| && b[k] == last;
    assert b == b[..k] + [b[k]] + b[k + 1..];
    assert multiset(b[..k] + b[k + 1..]) == multiset(b) - multiset{last};
    assert multiset(a[..|a| - 1]) == multiset(a) - multiset{last};
  }

  lemma {:induction false} PenaltyLast(check: Check, cues: seq<Cue>, a: seq<nat>)
    requires Inside(a, |cues|) && a != []
    ensures Penalty(IssuesAt(check, cues, a))
      == Penalty(IssuesAt(check, cues, a[..|a| - 1])) + Points(IssueAt(check, cues, a[|a| - 1]).severity)
  {
    assert IssuesAt(check, cues, a)[..|a| - 1] == IssuesAt(check, cues, a[..|a| - 1]);
  }

  lemma {:induction false} PenaltyWithout(check: Check, cues: seq<Cue>, b: seq<nat>, k: nat)
    requires Inside(b, |cues|) && k < |b|
    ensures Penalty(IssuesAt(check, cues, b))
      == Penalty(IssuesAt(check, cues, b[..k] + b[k + 1..])) + Points(IssueAt(check, cues, b[k]).severity)
  {
    var issues := IssuesAt(check, cues, b);
    PenaltyTakesOut(issues, k);
    assert issues[..k] + issues[k + 1..] == IssuesAt(check, cues, b[..k] + b[k + 1..]);
  }

  lemma {:induction false} PenaltyPermutes(check: Check, cues: seq<Cue>, a: seq<nat>, b: seq<nat>)
    requires Inside(a, |cues|) && Inside(b, |cues|) && multiset(a) == multiset(b)
    ensures Penalty(IssuesAt(check, cues, a)) == Penalty(IssuesAt(check, cues, b))
    decreases |a|
  {
    if a == [] {
      assert |multiset(b)| == 0;
    } else {
      var k := TakeOutLast(a, b);
      PenaltyPermutes(check, cues, a[..|a| - 1], b[..k] + b[k + 1..]);
      PenaltyLast(check, cues, a);
      PenaltyWithout(check, cues, b, k);
    }
  }

  // ---- the checks ------------------------------------------------------------------------------

  lemma {:induction false} IssuesStep(check: Check, context: Context, cues: seq<Cue>, n: nat)
    requires n < |cues| && PerEvent(check)
    ensures IssuesAt(check, cues, Flagged(check, context, cues, n + 1))
      == IssuesAt(check, cues, Flagged(check, context, cues, n)) + Finding(check, context, cues[n], n)
  {
  }

  function Finding(check: Check, context: Context, cue: Cue, i: nat): seq<Issue> {
    if !cue.isComment && BadCue(check, context, cue) then [Issue(check, SeverityOf(check), i + 1)] else []
  }

  // The loop shared by the checks that look at one event at a time.
  method CheckEvents(file: SubFile, check: Check) returns (issues: seq<Issue>)
    requires file.Valid() && PerEvent(check)
    ensures issues == IssuesOf(check, ContextOf(file), file.Cues())
  {
    issues := [];
    var context := ContextOf(file);
    ghost var cues := file.Cues();
    for i := 0 to |file.events|
      invariant issues == IssuesAt(check, cues, Flagged(check, context, cues, i))
    {
      IssuesStep(check, context, cues, i);
      issues := issues + Finding(check, context, file.events[i].AsCue(), i);
    }
  }

  datatype LineKey = LineKey(start: int, end: int, text: string, style: string)

  function KeyOf(cue: Cue): LineKey {
    LineKey(cue.start, cue.end, cue.text, cue.style)
  }

  // The keys of the first n events.
  ghost predicate SeenKeys(cues: seq<Cue>, n: nat, seen: set<LineKey>)
    requires n <= |cues|
  {
    forall key :: key in seen <==> exists j :: 0 <= j < n && !cues[j].isComment && KeyOf(cues[j]) == key
  }

  lemma NothingSeen(cues: seq<Cue>)
    ensures SeenKeys(cues, 0, {})
  {
  }

  lemma {:induction false} SeenStep(cues: seq<Cue>, n: nat, seen: set<LineKey>)
    requires n < |cues| && SeenKeys(cues, n, seen)
    ensures KeyOf(cues[n]) in seen <==> IsDuplicate(cues, n)
    ensures SeenKeys(cues, n + 1, if cues[n].isComment then seen else seen + {KeyOf(cues[n])})
  {
  }

  method FindDuplicates(file: SubFile) returns (positions: seq<nat>)
    requires file.Valid()
    ensures positions == Flagged(DuplicateLines, ContextOf(file), file.Cues(), |file.events|)
  {
    hide SeenKeys, IsDuplicate;
    positions := [];
    var seen: set<LineKey> := {};
    ghost var cues, context := file.Cues(), ContextOf(file);
    NothingSeen(cues);
    for i := 0 to |file.events|
      invariant positions == Flagged(DuplicateLines, context, cues, i)
      invariant SeenKeys(cues, i, seen)
    {
      var event := file.events[i];
      SeenStep(cues, i, seen);
      if !event.isComment {
        var key := LineKey(event.start, event.end, event.text, event.style);
        assert key == KeyOf(cues[i]);
        if key in seen {
          positions := positions + [i];
          assert seen == seen + {key};
        } else {
          seen := seen + {key};
        }
      }
    }
  }

  method CheckDuplicateLines(file: SubFile) returns (issues: seq<Issue>)
    requires file.Valid()
    ensures issues == IssuesOf(DuplicateLines, ContextOf(file), file.Cues())
  {
    var positions := FindDuplicates(file);
    issues := seq(|positions|, k requires 0 <= k < |positions| => Issue(DuplicateLines, Warning, positions[k] + 1));
  }

  lemma {:induction false} LinkDecides(context: Context, cues: seq<Cue>, ids: seq<nat>, k: nat)
    requires Chain(cues, ids) && k < |ids|
    ensures k + 1 < |ids| ==>
      (Bad(TimingOverlaps, context, cues, ids[k]) <==> cues[ids[k + 1]].start < cues[ids[k]].end)
    ensures k + 1 == |ids| ==> !Bad(TimingOverlaps, context, cues, ids[k])
  {
    assert Linked(cues, ids, k);
  }

  // How many pairs of neighbours there are.
  function Pairs(ids: seq<nat>): nat {
    if ids == [] then 0 else |ids| - 1
  }

  // Walking the chains event by event: what has been dealt with before event k of chain g.
  ghost function Done(chains: seq<seq<nat>>, g: nat, k: nat): set<nat>
    requires g < |chains| && k <= |chains[g]|
  {
    Covered(chains, g) + Elements(chains[g][..k])
  }

  lemma {:induction false} DoneStep(cues: seq<Cue>, chains: seq<seq<nat>>, g: nat, k: nat)
    requires IsPartition(cues, chains) && g < |chains| && k < |chains[g]|
    ensures chains[g][k] < |cues| && chains[g][k] !in Done(chains, g, k)
    ensures Done(chains, g, k + 1) == Done(chains, g, k) + {chains[g][k]}
  {
    var ids := chains[g];
    assert Chain(cues, ids);
    assert ids[k] in Elements(ids);
    assert ids[..k + 1] == ids[..k] + [ids[k]];
    forall a | 0 <= a < k
      ensures ids[a] != ids[k]
    {
      assert Before(cues, ids[a], ids[k]);
    }
  }

  lemma DoneEnds(chains: seq<seq<nat>>, g: nat)
    requires g < |chains|
    ensures Done(chains, g, 0) == Covered(chains, g)
    ensures Done(chains, g, |chains[g]|) == Covered(chains, g + 1)
  {
    assert chains[g][..|chains[g]|] == chains[g];
  }

  // The issue list and the positions it was made from, once the positions in `done` are dealt with.
  ghost predicate Reported(context: Context, cues: seq<Cue>, done: set<nat>, flagged: seq<nat>, issues: seq<Issue>) {
    && Charged(TimingOverlaps, context, cues, done, flagged)
    && Inside(flagged, |cues|) && issues == IssuesAt(TimingOverlaps, cues, flagged)
  }

  lemma {:induction false} ReportNext(context: Context, cues: seq<Cue>, chains: seq<seq<nat>>, g: nat, k: nat,
      flagged: seq<nat>, issues: seq<Issue>)
    requires IsPartition(cues, chains) && g < |chains| && k < |chains[g]|
    requires Reported(context, cues, Done(chains, g, k), flagged, issues)
    ensures chains[g][k] < |cues|
    ensures var i := chains[g][k];
      if Bad(TimingOverlaps, context, cues, i)
      then Reported(context, cues, Done(chains, g, k + 1), flagged + [i], issues + [IssueAt(TimingOverlaps, cues, i)])
      else Reported(context, cues, Done(chains, g, k + 1), flagged, issues)
  {
    DoneStep(cues, chains, g, k);
    ChargeNext(TimingOverlaps, context, cues, Done(chains, g, k), flagged, chains[g][k]);
  }

  function OverlapIssue(prev: Cue, curr: Cue, position: nat): Issue {
    Issue(TimingOverlaps, if prev.end - curr.start >= 500 then Error else Warning, position + 1)
  }

  // Comparing event k of a sorted group with its successor decides about event k.
  lemma {:induction false} ReportPair(context: Context, cues: seq<Cue>, chains: seq<seq<nat>>, g: nat, k: nat,
      flagged: seq<nat>, issues: seq<Issue>) returns (nextFlagged: seq<nat>, nextIssues: seq<Issue>)
    requires IsPartition(cues, chains) && g < |chains| && k + 1 < |chains[g]|
    requires Reported(context, cues, Done(chains, g, k), flagged, issues)
    ensures chains[g][k] < |cues| && chains[g][k + 1] < |cues|
    ensures Reported(context, cues, Done(chains, g, k + 1), nextFlagged, nextIssues)
    ensures var i, j := chains[g][k], chains[g][k + 1];
      nextIssues == if cues[j].start < cues[i].end then issues + [OverlapIssue(cues[i], cues[j], j)] else issues
  {
    assert Chain(cues, chains[g]);
    assert Linked(cues, chains[g], k);
    LinkDecides(context, cues, chains[g], k);
    ReportNext(context, cues, chains, g, k, flagged, issues);
    nextFlagged, nextIssues := flagged, issues;
    if Bad(TimingOverlaps, context, cues, chains[g][k]) {
      nextFlagged, nextIssues := flagged + [chains[g][k]], issues + [IssueAt(TimingOverlaps, cues, chains[g][k])];
    }
  }

  // The last event of a group overlaps nothing.
  lemma {:induction false} ReportLast(context: Context, cues: seq<Cue>, chains: seq<seq<nat>>, g: nat,
      flagged: seq<nat>, issues: seq<Issue>)
    requires IsPartition(cues, chains) && g < |chains|
    ensures Reported(context, cues, Done(chains, g, Pairs(chains[g])), flagged, issues)
      ==> Reported(context, cues, Covered(chains, g + 1), flagged, issues)
  {
    DoneEnds(chains, g);
    if chains[g] != [] && Reported(context, cues, Done(chains, g, |chains[g]| - 1), flagged, issues) {
      assert Chain(cues, chains[g]);
      LinkDecides(context, cues, chains[g], |chains[g]| - 1);
      ReportNext(context, cues, chains, g, |chains[g]| - 1, flagged, issues);
    }
  }

  // One sorted group: compare every event with its predecessor.
  method CheckGroup(cues: seq<Cue>, ghost context: Context, ghost chains: seq<seq<nat>>, ghost g: nat, sorted: seq<nat>,
      before: seq<Issue>, ghost flaggedBefore: seq<nat>)
      returns (issues: seq<Issue>, ghost flagged: seq<nat>)
    requires IsPartition(cues, chains) && g < |chains| && sorted == chains[g]
    requires Reported(context, cues, Covered(chains, g), flaggedBefore, before)
    ensures Reported(context, cues, Covered(chains, g + 1), flagged, issues)
  {
    hide Reported, IsPartition, Done, Covered;
    issues, flagged := before, flaggedBefore;
    DoneEnds(chains, g);
    for k := 0 to Pairs(sorted)
      invariant Reported(context, cues, Done(chains, g, k), flagged, issues)
    {
      ghost var reported;
      flagged, reported := ReportPair(context, cues, chains, g, k, flagged, issues);
      var prev, curr := sorted[k], sorted[k + 1];
      if cues[curr].start < cues[prev].end {
        issues := issues + [OverlapIssue(cues[prev], cues[curr], curr)];
      }
    }
    ReportLast(context, cues, chains, g, flagged, issues);
  }

  method CheckTimingOverlaps(file: SubFile) returns (issues: seq<Issue>, ghost flagged: seq<nat>)
    requires file.Valid()
    ensures multiset(flagged) == multiset(Flagged(TimingOverlaps, ContextOf(file), file.Cues(), |file.events|))
    ensures Inside(flagged, |file.events|) && issues == IssuesAt(TimingOverlaps, file.Cues(), flagged)
    ensures Penalty(issues) == PenaltyOf(TimingOverlaps, ContextOf(file), file.Cues())
  {
    var chains := SortedGroups(file);
    issues, flagged := CheckChains(file.Cues(), ContextOf(file), chains);
  }

  method CheckChains(cues: seq<Cue>, ghost context: Context, chains: seq<seq<nat>>)
      returns (issues: seq<Issue>, ghost flagged: seq<nat>)
    requires IsPartition(cues, chains)
    ensures multiset(flagged) == multiset(Flagged(TimingOverlaps, context, cues, |cues|))
    ensures Inside(flagged, |cues|) && issues == IssuesAt(TimingOverlaps, cues, flagged)
    ensures Penalty(issues) == PenaltyOf(TimingOverlaps, context, cues)
  {
    issues, flagged := [], [];
    for g := 0 to |chains|
      invariant Reported(context, cues, Covered(chains, g), flagged, issues)
    {
      issues, flagged := CheckGroup(cues, context, chains, g, chains[g], issues, flagged);
    }
    ChargedAll(TimingOverlaps, context, cues, Covered(chains, |chains|), flagged);
    PenaltyPermutes(TimingOverlaps, cues, flagged, Flagged(TimingOverlaps, context, cues, |cues|));
  }

  // ---- the fixes -------------------------------------------------------------------------------

  // A rewriting loop after k events.
  ghost predicate Rewriting(check: Check, context: Context, cues: seq<Cue>, current: seq<Cue>, k: nat, fixed: nat) {
    && |cues| == |current| && k <= |cues| && |Fixed(check, context, cues)| == |cues|
    && (forall i :: 0 <= i < k ==> current[i] == Fixed(check, context, cues)[i])
    && (forall i :: k <= i < |cues| ==> current[i] == cues[i])
    && fixed == |Flagged(check, context, cues, k)|
  }

  function Rewrite(check: Check, cue: Cue): Cue {
    if check.MissingStyles? then cue.(style := "Default") else Swapped(cue)
  }

  lemma {:induction false} RewriteStep(check: Check, context: Context, cues: seq<Cue>, current: seq<Cue>, k: nat,
      fixed: nat)
      returns (next: seq<Cue>, nextFixed: nat)
    requires (check.MissingStyles? || check.NegativeTiming?) && k < |cues|
    requires Rewriting(check, context, cues, current, k, fixed)
    ensures Rewriting(check, context, cues, next, k + 1, nextFixed)
    ensures if !current[k].isComment && BadCue(check, context, current[k])
            then next == current[k := Rewrite(check, current[k])] && nextFixed == fixed + 1
            else next == current && nextFixed == fixed
  {
    next, nextFixed := current, fixed;
    if Bad(check, context, cues, k) {
      next, nextFixed := current[k := Rewrite(check, current[k])], fixed + 1;
    }
  }

  lemma NoStylesMissing(context: Context, cues: seq<Cue>)
    requires context.styles == {}
    ensures Fixed(MissingStyles, context, cues) == cues && Count(MissingStyles, context, cues) == 0
  {
    SilentMeansNoneBad(MissingStyles, context, cues);
    NothingFlagged(MissingStyles, context, cues);
  }

  lemma RewriteStart(check: Check, context: Context, cues: seq<Cue>)
    requires check.MissingStyles? || check.NegativeTiming?
    ensures Rewriting(check, context, cues, cues, 0, 0)
  {
  }

  lemma RewriteDone(check: Check, context: Context, cues: seq<Cue>, current: seq<Cue>, fixed: nat)
    requires Rewriting(check, context, cues, current, |cues|, fixed)
    ensures current == Fixed(check, context, cues) && fixed == Count(check, context, cues)
  {
  }

  method RestyleEvent(file: SubFile, i: nat) returns (fixed: nat)
    requires file.Valid() && i < |file.events| && file.styles != {}
    modifies file.events[i]
    ensures file.Valid()
    ensures var cue, context := old(file.Cues()[i]), ContextOf(file);
      if !cue.isComment && BadCue(MissingStyles, context, cue)
      then file.Cues() == old(file.Cues())[i := Rewrite(MissingStyles, cue)] && fixed == 1
      else file.Cues() == old(file.Cues()) && fixed == 0
  {
    var event := file.events[i];
    fixed := 0;
    if !event.isComment && event.style !in file.styles {
      file.SetStyle(i, "Default");
      fixed := 1;
    }
  }

  method SwapEvent(file: SubFile, i: nat) returns (fixed: nat)
    requires file.Valid() && i < |file.events|
    modifies file.events[i]
    ensures file.Valid()
    ensures var cue, context := old(file.Cues()[i]), ContextOf(file);
      if !cue.isComment && BadCue(NegativeTiming, context, cue)
      then file.Cues() == old(file.Cues())[i := Rewrite(NegativeTiming, cue)] && fixed == 1
      else file.Cues() == old(file.Cues()) && fixed == 0
  {
    var event := file.events[i];
    fixed := 0;
    if !event.isComment && event.end < event.start {
      file.SetTimes(i, event.end, event.start);
      fixed := 1;
    }
  }

  method TrimEvent(file: SubFile, i: nat, j: nat) returns (fixed: nat)
    requires file.Valid() && i < |file.events| && j < |file.events|
    modifies file.events[i]
    ensures file.Valid()
    ensures var prev, curr := old(file.Cues()[i]), old(file.Cues()[j]);
      if curr.start < prev.end
      then file.Cues() == old(file.Cues())[i := prev.(end := curr.start)] && fixed == 1
      else file.Cues() == old(file.Cues()) && fixed == 0
  {
    var prev, curr := file.events[i], file.events[j];
    fixed := 0;
    if curr.start < prev.end {
      file.SetTimes(i, prev.start, curr.start);
      fixed := 1;
    }
  }

  method FixMissingStyles(file: SubFile) returns (fixed: nat)
    requires file.Valid()
    modifies file.events
    ensures file.Valid() && file.events == old(file.events)
    ensures file.Cues() == Fixed(MissingStyles, ContextOf(file), old(file.Cues()))
    ensures fixed == Count(MissingStyles, ContextOf(file), old(file.Cues()))
  {
    hide Rewriting, Fixed, Count, Flagged, BadCue;
    ghost var cues, context := file.Cues(), ContextOf(file);
    fixed := 0;
    if file.styles == {} {
      NoStylesMissing(context, cues);
      return;
    }
    RewriteStart(MissingStyles, context, cues);
    for i := 0 to |file.events|
      invariant file.Valid() && file.events == old(file.events)
      invariant Rewriting(MissingStyles, context, cues, file.Cues(), i, fixed)
    {
      ghost var next, n := RewriteStep(MissingStyles, context, cues, file.Cues(), i, fixed);
      var done := RestyleEvent(file, i);
      fixed := fixed + done;
      assert file.Cues() == next && fixed == n;
    }
    RewriteDone(MissingStyles, context, cues, file.Cues(), fixed);
  }

  method FixNegativeTiming(file: SubFile) returns (fixed: nat)
    requires file.Valid()
    modifies file.events
    ensures file.Valid() && file.events == old(file.events)
    ensures file.Cues() == Fixed(NegativeTiming, ContextOf(file), old(file.Cues()))
    ensures fixed == Count(NegativeTiming, ContextOf(file), old(file.Cues()))
  {
    hide Rewriting, Fixed, Count, Flagged, BadCue;
    ghost var cues, context := file.Cues(), ContextOf(file);
    fixed := 0;
    RewriteStart(NegativeTiming, context, cues);
    for i := 0 to |file.events|
      invariant file.Valid() && file.events == old(file.events)
      invariant Rewriting(NegativeTiming, context, cues, file.Cues(), i, fixed)
    {
      ghost var next, n := RewriteStep(NegativeTiming, context, cues, file.Cues(), i, fixed);
      var done := SwapEvent(file, i);
      fixed := fixed + done;
      assert file.Cues() == next && fixed == n;
    }
    RewriteDone(NegativeTiming, context, cues, file.Cues(), fixed);
  }

  lemma {:induction false} WithoutSubset<T>(s: seq<T>, removed: set<nat>)
    ensures forall k :: 0 <= k < |Without(s, removed)| ==> Without(s, removed)[k] in s
  {
  }

  // Delete what a check found, from the last position to the first.
  method DeleteFlagged(file: SubFile, fix: Check, positions: seq<nat>)
    requires file.Valid() && IsRemoval(fix)
    requires positions == Flagged(fix, ContextOf(file), file.Cues(), |file.events|)
    modifies file`events
    ensures file.Valid() && file.Cues() == Fixed(fix, ContextOf(file), old(file.Cues()))
    ensures file.events == Without(old(file.events), Elements(positions))
  {
    ghost var cues, context := file.Cues(), ContextOf(file);
    FlaggedExact(fix, context, cues, |cues|);
    file.DeleteAll(positions);
    RemovalIs(fix, context, cues);
  }

  method FixDuplicateLines(file: SubFile) returns (removed: nat)
    requires file.Valid()
    modifies file`events
    ensures file.Valid() && file.Cues() == Fixed(DuplicateLines, ContextOf(file), old(file.Cues()))
    ensures forall k :: 0 <= k < |file.events| ==> file.events[k] in old(file.events)
    ensures removed == Count(DuplicateLines, ContextOf(file), old(file.Cues()))
  {
    var toRemove := FindDuplicates(file);
    WithoutSubset(file.events, Elements(toRemove));
    DeleteFlagged(file, DuplicateLines, toRemove);
    removed := |toRemove|;
  }

  // The scan shared by the two fixes that remove events one by one.
  method FindEvents(file: SubFile, check: Check) returns (positions: seq<nat>)
    requires file.Valid() && PerEvent(check)
    ensures positions == Flagged(check, ContextOf(file), file.Cues(), |file.events|)
  {
    positions := [];
    var context := ContextOf(file);
    for i := 0 to |file.events|
      invariant positions == Flagged(check, context, file.Cues(), i)
    {
      var event := file.events[i].AsCue();
      if !event.isComment && BadCue(check, context, event) {
        positions := positions + [i];
      }
    }
  }

  method RemoveEvents(file: SubFile, check: Check) returns (removed: nat)
    requires file.Valid() && (check.EmptyEvents? || check.ZeroDuration?)
    modifies file`events
    ensures file.Valid() && file.Cues() == Fixed(check, ContextOf(file), old(file.Cues()))
    ensures forall k :: 0 <= k < |file.events| ==> file.events[k] in old(file.events)
    ensures removed == Count(check, ContextOf(file), old(file.Cues()))
  {
    var toRemove := FindEvents(file, check);
    WithoutSubset(file.events, Elements(toRemove));
    DeleteFlagged(file, check, toRemove);
    removed := |toRemove|;
  }

  function TrimmedOn(cues: seq<Cue>, done: set<nat>): (r: seq<Cue>)
    ensures |r| == |cues|
  {
    seq(|cues|, i requires 0 <= i < |cues| => if i in done then cues[i].(end := TrimmedEnd(cues, i)) else cues[i])
  }

  lemma TrimmedOnStep(cues: seq<Cue>, done: set<nat>, i: nat)
    requires i < |cues| && i !in done
    ensures TrimmedOn(cues, done + {i}) == TrimmedOn(cues, done)[i := cues[i].(end := TrimmedEnd(cues, i))]
    ensures TrimmedOn(cues, done)[i] == cues[i]
    ensures forall j :: 0 <= j < |cues| ==> TrimmedOn(cues, done)[j].start == cues[j].start
  {
  }

  // The events and the ends trimmed so far, once the positions in `done` are dealt with.
  ghost predicate Trimming(context: Context, cues: seq<Cue>, done: set<nat>, flagged: seq<nat>, current: seq<Cue>) {
    Charged(TimingOverlaps, context, cues, done, flagged) && current == TrimmedOn(cues, done)
  }

  lemma {:induction false} TrimPair(context: Context, cues: seq<Cue>, chains: seq<seq<nat>>, g: nat, k: nat,
      flagged: seq<nat>, current: seq<Cue>) returns (nextFlagged: seq<nat>, nextCues: seq<Cue>)
    requires IsPartition(cues, chains) && g < |chains| && k + 1 < |chains[g]|
    requires Trimming(context, cues, Done(chains, g, k), flagged, current)
    ensures chains[g][k] < |current| && chains[g][k + 1] < |current|
    ensures Trimming(context, cues, Done(chains, g, k + 1), nextFlagged, nextCues)
    ensures var i, j := chains[g][k], chains[g][k + 1];
      if current[j].start < current[i].end
      then nextCues == current[i := current[i].(end := current[j].start)] && |nextFlagged| == |flagged| + 1
      else nextCues == current && |nextFlagged| == |flagged|
  {
    assert Chain(cues, chains[g]);
    assert Linked(cues, chains[g], k);
    var i := chains[g][k];
    LinkDecides(context, cues, chains[g], k);
    DoneStep(cues, chains, g, k);
    ChargeNext(TimingOverlaps, context, cues, Done(chains, g, k), flagged, i);
    nextFlagged := if Bad(TimingOverlaps, context, cues, i) then flagged + [i] else flagged;
    TrimmedOnStep(cues, Done(chains, g, k), i);
    nextCues := TrimmedOn(cues, Done(chains, g, k) + {i});
  }

  lemma {:induction false} TrimLast(context: Context, cues: seq<Cue>, chains: seq<seq<nat>>, g: nat,
      flagged: seq<nat>, current: seq<Cue>)
    requires IsPartition(cues, chains) && g < |chains|
    requires Trimming(context, cues, Done(chains, g, Pairs(chains[g])), flagged, current)
    ensures Trimming(context, cues, Covered(chains, g + 1), flagged, current)
  {
    DoneEnds(chains, g);
    if chains[g] != [] {
      var k := |chains[g]| - 1;
      assert Chain(cues, chains[g]);
      assert Linked(cues, chains[g], k);
      LinkDecides(context, cues, chains[g], k);
      DoneStep(cues, chains, g, k);
      ChargeNext(TimingOverlaps, context, cues, Done(chains, g, k), flagged, chains[g][k]);
    }
  }

  lemma {:induction false} TrimmedAll(context: Context, cues: seq<Cue>, chains: seq<seq<nat>>, flagged: seq<nat>,
      current: seq<Cue>)
    requires IsPartition(cues, chains) && Trimming(context, cues, Covered(chains, |chains|), flagged, current)
    ensures current == Trimmed(cues) && |flagged| == Count(TimingOverlaps, context, cues)
  {
    ChargedAll(TimingOverlaps, context, cues, Covered(chains, |chains|), flagged);
    forall i | 0 <= i < |cues|
      ensures current[i] == cues[i].(end := TrimmedEnd(cues, i))
    {
    }
  }

  // One sorted group: trim every event at the start of its successor.
  method FixGroup(file: SubFile, ghost cues: seq<Cue>, ghost chains: seq<seq<nat>>, ghost g: nat, sorted: seq<nat>,
      ghost flaggedBefore: seq<nat>) returns (fixed: nat, ghost flagged: seq<nat>)
    requires file.Valid() && IsPartition(cues, chains) && g < |chains| && sorted == chains[g]
    requires Trimming(ContextOf(file), cues, Covered(chains, g), flaggedBefore, file.Cues())
    modifies file.events
    ensures file.Valid() && file.events == old(file.events)
    ensures Trimming(ContextOf(file), cues, Covered(chains, g + 1), flagged, file.Cues())
    ensures |flagged| == |flaggedBefore| + fixed
  {
    hide Trimming, IsPartition, Done, Covered;
    ghost var context := ContextOf(file);
    flagged, fixed := flaggedBefore, 0;
    DoneEnds(chains, g);
    for k := 0 to Pairs(sorted)
      invariant file.Valid() && file.events == old(file.events)
      invariant Trimming(context, cues, Done(chains, g, k), flagged, file.Cues())
      invariant |flagged| == |flaggedBefore| + fixed
    {
      ghost var trimmed;
      flagged, trimmed := TrimPair(context, cues, chains, g, k, flagged, file.Cues());
      var done := TrimEvent(file, sorted[k], sorted[k + 1]);
      fixed := fixed + done;
      assert file.Cues() == trimmed;
    }
    TrimLast(context, cues, chains, g, flagged, file.Cues());
  }

  method FixTimingOverlaps(file: SubFile) returns (fixed: nat)
    requires file.Valid()
    modifies file.events
    ensures file.Valid() && file.events == old(file.events)
    ensures file.Cues() == Fixed(TimingOverlaps, ContextOf(file), old(file.Cues()))
    ensures fixed == Count(TimingOverlaps, ContextOf(file), old(file.Cues()))
  {
    var chains := SortedGroups(file);
    ghost var cues, context := file.Cues(), ContextOf(file);
    fixed := 0;
    ghost var flagged: seq<nat> := [];
    for g := 0 to |chains|
      invariant file.Valid() && file.events == old(file.events)
      invariant Trimming(context, cues, Covered(chains, g), flagged, file.Cues())
      invariant fixed == |flagged|
    {
      var n;
      n, flagged := FixGroup(file, cues, chains, g, chains[g], flagged);
      fixed := fixed + n;
    }
    TrimmedAll(context, cues, chains, flagged, file.Cues());
  }

  // ---- running the checks and the fixes --------------------------------------------------------

  method CalculateScore(issues: seq<Issue>) returns (score: int)
    ensures score == Score(issues)
  {
    var penalty := 0;
    for i := 0 to |issues|
      invariant penalty == Penalty(issues[..i])
    {
      assert issues[..i + 1][..i] == issues[..i];
      match issues[i].severity {
        case Error => penalty := penalty + 10;
        case Warning => penalty := penalty + 3;
        case Info => penalty := penalty + 1;
      }
    }
    assert issues[..|issues|] == issues;
    score := Max(0, 100 - penalty);
  }

  method RunCheck(file: SubFile, check: Check) returns (issues: seq<Issue>)
    requires file.Valid()
    ensures check != TimingOverlaps ==> issues == IssuesOf(check, ContextOf(file), file.Cues())
    ensures Penalty(issues) == PenaltyOf(check, ContextOf(file), file.Cues())
  {
    match check {
      case DuplicateLines => issues := CheckDuplicateLines(file);
      case TimingOverlaps => ghost var flagged; issues, flagged := CheckTimingOverlaps(file);
      case _ => issues := CheckEvents(file, check);
    }
  }

  method RunChecks(file: SubFile, checks: seq<Check>, found: seq<Issue>) returns (issues: seq<Issue>)
    requires file.Valid()
    ensures Penalty(issues) == Penalty(found) + Sum(Costs(ContextOf(file), file.Cues()), checks)
  {
    issues := found;
    ghost var costs := Costs(ContextOf(file), file.Cues());
    for k := 0 to |checks|
      invariant Penalty(issues) == Penalty(found) + Sum(costs, checks[..k])
    {
      var more := RunCheck(file, checks[k]);
      SumStep(costs, checks, k);
      PenaltyAppend(issues, more);
      issues := issues + more;
    }
    assert checks[..|checks|] == checks;
  }

  // The encoding check needs the raw bytes of the file; its issues are given.
  method RunHealthChecks(file: SubFile, encodingIssues: seq<Issue>) returns (issues: seq<Issue>, score: int)
    requires file.Valid()
    ensures score == Score(issues) == HealthScore(Penalty(encodingIssues), ContextOf(file), file.Cues())
  {
    hide Sum, Costs, Penalty;
    issues := RunChecks(file, ALL_CHECKS, encodingIssues);
    score := CalculateScore(issues);
  }

  // What there is to say about a file: nothing when it cannot be read or parsed.
  datatype Report = Unreadable | Unparsable | Checked(issues: seq<Issue>, checksRun: nat)

  // The checks of a file that may be unreadable, or not parse; both score 0.
  method CheckFile(readable: bool, parsed: Option<SubFile>, encodingIssues: seq<Issue>)
      returns (report: Report, score: int)
    requires parsed.Some? ==> parsed.value.Valid()
    ensures !readable ==> report == Unreadable && score == 0
    ensures readable && parsed.None? ==> report == Unparsable && score == 0
    ensures readable && parsed.Some? ==>
      && report.Checked? && report.checksRun == 1 + |ALL_CHECKS| && score == Score(report.issues)
      && score == HealthScore(Penalty(encodingIssues), ContextOf(parsed.value), parsed.value.Cues())
  {
    if !readable {
      return Unreadable, 0;
    }
    if parsed.None? {
      return Unparsable, 0;
    }
    var issues;
    issues, score := RunHealthChecks(parsed.value, encodingIssues);
    report := Checked(issues, 1 + |ALL_CHECKS|);
  }

  lemma SumStep(f: Check -> nat, checks: seq<Check>, k: nat)
    requires k < |checks|
    ensures Sum(f, checks[..k + 1]) == Sum(f, checks[..k]) + f(checks[k])
  {
    SumSplits(f, checks[..k], [checks[k]]);
    assert checks[..k + 1] == checks[..k] + [checks[k]];
    SumOne(f, checks[k]);
  }

  lemma SumOne(f: Check -> nat, check: Check)
    ensures Sum(f, [check]) == f(check)
  {
    assert Sum(f, [check]) == f(check) + Sum(f, []);
  }

  // FIX_MAP
  function FixNamed(name: string): Option<Check> {
    if name == "duplicate_lines" then Some(DuplicateLines)
    else if name == "timing_overlaps" then Some(TimingOverlaps)
    else if name == "missing_styles" then Some(MissingStyles)
    else if name == "empty_events" then Some(EmptyEvents)
    else if name == "negative_timing" then Some(NegativeTiming)
    else if name == "zero_duration" then Some(ZeroDuration)
    else None
  }

  // The outcome of a list of requested fixes: unknown names are skipped, and a fix that changed something
  // is listed together with the number of events it touched.
  datatype Outcome = Outcome(cues: seq<Cue>, applied: seq<string>, counts: map<string, nat>)

  function ApplyOne(name: string, context: Context, state: Outcome): Outcome {
    match FixNamed(name)
    case None => state
    case Some(fix) =>
      var n := Count(fix, context, state.cues);
      if n > 0 then Outcome(Fixed(fix, context, state.cues), state.applied + [name], state.counts[name := n])
      else state.(cues := Fixed(fix, context, state.cues))
  }

  function ApplyAll(names: seq<string>, context: Context, state: Outcome): Outcome {
    if names == [] then state else ApplyAll(names[1..], context, ApplyOne(names[0], context, state))
  }

  function KnownFixes(names: seq<string>): seq<Check> {
    if names == [] then []
    else match FixNamed(names[0])
      case None => KnownFixes(names[1..])
      case Some(fix) => [fix] + KnownFixes(names[1..])
  }

  // What a request does to the events is the run of its known fixes.
  lemma {:induction false} ApplyAllFixes(names: seq<string>, context: Context, state: Outcome)
    ensures ApplyAll(names, context, state).cues == FixedAll(KnownFixes(names), context, state.cues)
  {
    if names == [] {
    } else {
      var next := ApplyOne(names[0], context, state);
      ApplyAllFixes(names[1..], context, next);
      if FixNamed(names[0]).Some? {
        assert KnownFixes(names)[1..] == KnownFixes(names[1..]);
      }
    }
  }

  method RunFix(file: SubFile, fix: Check) returns (count: nat)
    requires file.Valid() && fix in FIX_ORDER
    modifies file, file.events
    ensures file.Valid() && file.Cues() == Fixed(fix, ContextOf(file), old(file.Cues()))
    ensures count == Count(fix, ContextOf(file), old(file.Cues()))
    ensures forall k :: 0 <= k < |file.events| ==> file.events[k] in old(file.events)
  {
    match fix {
      case DuplicateLines => count := FixDuplicateLines(file);
      case TimingOverlaps => count := FixTimingOverlaps(file);
      case MissingStyles => count := FixMissingStyles(file);
      case NegativeTiming => count := FixNegativeTiming(file);
      case EmptyEvents | ZeroDuration => count := RemoveEvents(file, fix);
    }
  }

  lemma ApplyStep(names: seq<string>, i: nat, context: Context, state: Outcome)
    requires i < |names|
    ensures ApplyAll(names[i..], context, state)
      == ApplyAll(names[i + 1..], context, ApplyOne(names[i], context, state))
  {
    assert names[i..][1..] == names[i + 1..];
  }

  method ApplyFix(file: SubFile, name: string, applied: seq<string>, counts: map<string, nat>)
      returns (nextApplied: seq<string>, nextCounts: map<string, nat>)
    requires file.Valid()
    modifies file, file.events
    ensures file.Valid()
    ensures Outcome(file.Cues(), nextApplied, nextCounts)
      == ApplyOne(name, ContextOf(file), Outcome(old(file.Cues()), applied, counts))
    ensures forall k :: 0 <= k < |file.events| ==> file.events[k] in old(file.events)
  {
    nextApplied, nextCounts := applied, counts;
    var fix := FixNamed(name);
    if fix.Some? {
      var count := RunFix(file, fix.value);
      if count > 0 {
        nextApplied, nextCounts := applied + [name], counts[name := count];
      }
    }
  }

  method ApplyFixes(file: SubFile, names: seq<string>, encodingIssues: seq<Issue>)
      returns (applied: seq<string>, counts: map<string, nat>, newScore: int)
    requires file.Valid()
    modifies file, file.events
    ensures file.Valid()
    ensures Outcome(file.Cues(), applied, counts)
      == ApplyAll(names, ContextOf(file), Outcome(old(file.Cues()), [], map[]))
    ensures newScore == HealthScore(Penalty(encodingIssues), ContextOf(file), file.Cues())
  {
    applied, counts := ApplyRequested(file, names);
    var issues;
    issues, newScore := RunHealthChecks(file, encodingIssues);
  }

  method ApplyRequested(file: SubFile, names: seq<string>) returns (applied: seq<string>, counts: map<string, nat>)
    requires file.Valid()
    modifies file, file.events
    ensures file.Valid()
    ensures Outcome(file.Cues(), applied, counts)
      == ApplyAll(names, ContextOf(file), Outcome(old(file.Cues()), [], map[]))
  {
    applied, counts := [], map[];
    assert names[0..] == names;
    for i := 0 to |names|
      invariant file.Valid() && forall k :: 0 <= k < |file.events| ==> file.events[k] in old(file.events)
      invariant ApplyAll(names[i..], ContextOf(file), Outcome(file.Cues(), applied, counts))
        == ApplyAll(names, ContextOf(file), Outcome(old(file.Cues()), [], map[]))
    {
      ApplyStep(names, i, ContextOf(file), Outcome(file.Cues(), applied, counts));
      applied, counts := ApplyFix(file, names[i], applied, counts);
    }
  }
}

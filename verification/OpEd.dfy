/** Where an opening or an ending is in a subtitle file: clusters of events near the start and the end. */
module OpEdSpec {
  import opened PyText

  datatype Span = Span(start: int, end: int)

  const MAX_GAP := 3_000
  const MIN_EVENTS := 3

  datatype Kind = Opening | Ending

  datatype Evidence = ByStyle | ByDuration

  datatype Region = Region(kind: Kind, start: int, end: int, eventCount: nat, evidence: Evidence)

  // ---- clusters --------------------------------------------------------------------------------

  predicate Gap(a: Span, b: Span) {
    b.start - a.end > MAX_GAP
  }

  // Events that follow each other without a gap.
  predicate Run(events: seq<Span>) {
    forall i :: 0 < i < |events| ==> !Gap(events[i - 1], events[i])
  }

  function Joined(clusters: seq<seq<Span>>): seq<Span> {
    if clusters == [] then [] else Joined(clusters[..|clusters| - 1]) + clusters[|clusters| - 1]
  }

  predicate GapBefore(clusters: seq<seq<Span>>, k: int)
    requires 0 < k < |clusters| && clusters[k - 1] != [] && clusters[k] != []
  {
    Gap(clusters[k - 1][|clusters[k - 1]| - 1], clusters[k][0])
  }

  // No empty cluster, no gap inside one, a gap between any two neighbours.
  predicate Separated(clusters: seq<seq<Span>>) {
    && (forall k :: 0 <= k < |clusters| ==> clusters[k] != [] && Run(clusters[k]))
    && (forall k :: 0 < k < |clusters| ==> GapBefore(clusters, k))
  }

  // A cut of the events, in order and without loss, exactly at the gaps.
  predicate IsClustering(events: seq<Span>, clusters: seq<seq<Span>>) {
    Joined(clusters) == events && Separated(clusters)
  }

  lemma {:induction false} JoinedEmpty(clusters: seq<seq<Span>>)
    requires Separated(clusters)
    ensures Joined(clusters) == [] <==> clusters == []
  {
  }

  lemma FrontSeparated(clusters: seq<seq<Span>>)
    requires clusters != [] && Separated(clusters)
    ensures Separated(clusters[..|clusters| - 1])
  {
    var front := clusters[..|clusters| - 1];
    forall k | 0 < k < |front|
      ensures GapBefore(front, k)
    {
      assert GapBefore(clusters, k);
    }
  }

  // The last cluster is the longest run of events at the end.
  lemma {:induction false} LastIsLongestRun(clusters: seq<seq<Span>>, n: nat)
    requires clusters != [] && Separated(clusters) && n <= |Joined(clusters)|
    ensures Run(Joined(clusters)[|Joined(clusters)| - n..]) <==> n <= |clusters[|clusters| - 1]|
  {
    var events, last := Joined(clusters), clusters[|clusters| - 1];
    var front := Joined(clusters[..|clusters| - 1]);
    assert events == front + last;
    if n <= |last| {
      assert events[|events| - n..] == last[|last| - n..];
    } else {
      FrontSeparated(clusters);
      LastOfJoined(clusters[..|clusters| - 1]);
      assert GapBefore(clusters, |clusters| - 1);
      var tail := events[|events| - n..];
      assert tail[n - |last| - 1] == front[|front| - 1] && tail[n - |last|] == last[0];
      assert Gap(tail[n - |last| - 1], tail[n - |last|]);
    }
  }

  lemma LastOfJoined(clusters: seq<seq<Span>>)
    requires Separated(clusters) && Joined(clusters) != []
    ensures clusters != []
    ensures var last := clusters[|clusters| - 1];
      Joined(clusters)[|Joined(clusters)| - 1] == last[|last| - 1]
  {
  }

  // There is only one way to cut events into clusters.
  lemma {:induction false} ClusteringUnique(events: seq<Span>, a: seq<seq<Span>>, b: seq<seq<Span>>)
    requires IsClustering(events, a) && IsClustering(events, b)
    ensures a == b
    decreases |a|
  {
    JoinedEmpty(a);
    JoinedEmpty(b);
    if events == [] {
    } else {
      var lastA, lastB := a[|a| - 1], b[|b| - 1];
      LastIsLongestRun(a, |lastA|);
      LastIsLongestRun(a, |lastB|);
      LastIsLongestRun(b, |lastA|);
      LastIsLongestRun(b, |lastB|);
      var n := |events| - |lastA|;
      SameHalves(Joined(a[..|a| - 1]), lastA, Joined(b[..|b| - 1]), lastB);
      FrontSeparated(a);
      FrontSeparated(b);
      ClusteringUnique(events[..n], a[..|a| - 1], b[..|b| - 1]);
      assert a == a[..|a| - 1] + [lastA] && b == b[..|b| - 1] + [lastB];
    }
  }

  lemma SameHalves(a: seq<Span>, x: seq<Span>, b: seq<Span>, y: seq<Span>)
    requires a + x == b + y && |x| == |y|
    ensures a == b == (a + x)[..|a + x| - |x|] && x == y
  {
    assert (a + x)[..|a|] == a && (b + y)[..|b|] == b;
    assert (a + x)[|a|..] == x && (b + y)[|b|..] == y;
  }

  // The events cut at their gaps, one event after the other.
  function Clusters(events: seq<Span>): seq<seq<Span>> {
    if events == [] then []
    else
      var n := |events| - 1;
      Extend(Clusters(events[..n]), events[n])
  }

  // The next event starts a cluster of its own after a gap, and joins the last cluster otherwise.
  function Extend(clusters: seq<seq<Span>>, event: Span): seq<seq<Span>> {
    var n := |clusters| - 1;
    if n < 0 || clusters[n] == [] || Gap(clusters[n][|clusters[n]| - 1], event) then clusters + [[event]]
    else clusters[..n] + [clusters[n] + [event]]
  }

  lemma ExtendKeeps(events: seq<Span>, clusters: seq<seq<Span>>, event: Span)
    requires IsClustering(events, clusters)
    ensures IsClustering(events + [event], Extend(clusters, event))
  {
    var n := |clusters| - 1;
    if n < 0 || Gap(clusters[n][|clusters[n]| - 1], event) {
      StartsCluster(events, clusters, event);
    } else {
      assert clusters[..n] + [clusters[n]] == clusters;
      JoinsCluster(events, clusters[..n], clusters[n], event);
    }
  }

  lemma StartsCluster(events: seq<Span>, clusters: seq<seq<Span>>, event: Span)
    requires IsClustering(events, clusters)
    requires clusters == [] || Gap(clusters[|clusters| - 1][|clusters[|clusters| - 1]| - 1], event)
    ensures IsClustering(events + [event], clusters + [[event]])
  {
    var extended := clusters + [[event]];
    assert extended[..|clusters|] == clusters;
    forall k | 0 < k < |extended|
      ensures GapBefore(extended, k)
    {
      assert k < |clusters| ==> GapBefore(clusters, k);
    }
  }

  lemma JoinsCluster(events: seq<Span>, front: seq<seq<Span>>, last: seq<Span>, event: Span)
    requires last != [] && IsClustering(events, front + [last]) && !Gap(last[|last| - 1], event)
    ensures IsClustering(events + [event], front + [last + [event]])
  {
    var clusters, extended := front + [last], front + [last + [event]];
    assert clusters[..|front|] == front && extended[..|front|] == front;
    assert Joined(front) + (last + [event]) == Joined(front) + last + [event];
    assert clusters[|front|] == last;
    assert Run(last);
    forall k | 0 < k < |extended|
      ensures GapBefore(extended, k)
    {
      assert GapBefore(clusters, k);
    }
    assert forall k :: 0 <= k < |front| ==> extended[k] == clusters[k];
  }

  lemma {:induction false} ClustersCutAtGaps(events: seq<Span>)
    ensures IsClustering(events, Clusters(events))
  {
    if events == [] {
    } else {
      var n := |events| - 1;
      ClustersCutAtGaps(events[..n]);
      ExtendKeeps(events[..n], Clusters(events[..n]), events[n]);
      assert events[..n] + [events[n]] == events;
    }
  }

  // ---- events in order of their start ----------------------------------------------------------

  predicate SortedByStart(events: seq<Span>) {
    forall i, j :: 0 <= i < j < |events| ==> events[i].start <= events[j].start
  }

  // Before the first event that starts later.
  function InsertByStart(sorted: seq<Span>, event: Span): seq<Span> {
    if sorted == [] || event.start >= sorted[|sorted| - 1].start then sorted + [event]
    else InsertByStart(sorted[..|sorted| - 1], event) + [sorted[|sorted| - 1]]
  }

  // Python's sorted(events, key=start): events with the same start keep their order.
  function ByStart(events: seq<Span>): seq<Span> {
    if events == [] then [] else InsertByStart(ByStart(events[..|events| - 1]), events[|events| - 1])
  }

  function StartingAt(events: seq<Span>, start: int): seq<Span> {
    if events == [] then []
    else
      var n := |events| - 1;
      if events[n].start == start then StartingAt(events[..n], start) + [events[n]]
      else StartingAt(events[..n], start)
  }

  lemma {:induction false} InsertPermutes(sorted: seq<Span>, event: Span)
    ensures multiset(InsertByStart(sorted, event)) == multiset(sorted) + multiset{event}
  {
    var n := |sorted| - 1;
    if n >= 0 && event.start < sorted[n].start {
      InsertPermutes(sorted[..n], event);
      LastInBag(sorted);
    }
  }

  predicate StartsBefore(events: seq<Span>, limit: int) {
    forall i :: 0 <= i < |events| ==> events[i].start <= limit
  }

  lemma {:induction false} InsertSorts(sorted: seq<Span>, event: Span)
    requires SortedByStart(sorted)
    ensures SortedByStart(InsertByStart(sorted, event))
    ensures forall limit :: StartsBefore(sorted, limit) && event.start <= limit ==>
      StartsBefore(InsertByStart(sorted, event), limit)
  {
    var n := |sorted| - 1;
    if n >= 0 && event.start < sorted[n].start {
      var inserted := InsertByStart(sorted[..n], event);
      InsertSorts(sorted[..n], event);
      assert StartsBefore(sorted[..n], sorted[n].start);
      assert StartsBefore(inserted, sorted[n].start);
      forall limit | StartsBefore(sorted, limit) && event.start <= limit
        ensures StartsBefore(inserted + [sorted[n]], limit)
      {
        assert StartsBefore(sorted[..n], limit);
      }
    }
  }

  lemma StartingAtAppend(events: seq<Span>, event: Span, start: int)
    ensures StartingAt(events + [event], start)
      == if event.start == start then StartingAt(events, start) + [event] else StartingAt(events, start)
  {
    assert (events + [event])[..|events|] == events;
  }

  // A new event goes behind those with the same start.
  lemma {:induction false} InsertStable(sorted: seq<Span>, event: Span, start: int)
    ensures StartingAt(InsertByStart(sorted, event), start)
      == if event.start == start then StartingAt(sorted, start) + [event] else StartingAt(sorted, start)
  {
    hide StartingAt;
    var n := |sorted| - 1;
    if n >= 0 && event.start < sorted[n].start {
      var last := sorted[n];
      InsertStable(sorted[..n], event, start);
      assert sorted[..n] + [last] == sorted;
      StartingAtAppend(InsertByStart(sorted[..n], event), last, start);
      StartingAtAppend(sorted[..n], last, start);
    } else {
      StartingAtAppend(sorted, event, start);
    }
  }

  lemma {:induction false} ByStartSorted(events: seq<Span>)
    ensures SortedByStart(ByStart(events))
  {
    if events == [] {
    } else {
      hide SortedByStart, InsertByStart;
      var n := |events| - 1;
      ByStartSorted(events[..n]);
      InsertSorts(ByStart(events[..n]), events[n]);
    }
  }

  lemma LastInserted(events: seq<Span>)
    requires events != []
    ensures ByStart(events) == InsertByStart(ByStart(events[..|events| - 1]), events[|events| - 1])
  {
  }

  lemma {:induction false} ByStartStable(events: seq<Span>, start: int)
    ensures StartingAt(ByStart(events), start) == StartingAt(events, start)
  {
    if events == [] {
    } else {
      hide InsertByStart, StartingAt, ByStart;
      var front, last := events[..|events| - 1], events[|events| - 1];
      LastInserted(events);
      ByStartStable(front, start);
      InsertStable(ByStart(front), last, start);
      StartingAtAppend(front, last, start);
      assert front + [last] == events;
    }
  }

  lemma {:induction false} ByStartPermutes(events: seq<Span>)
    ensures multiset(ByStart(events)) == multiset(events)
  {
    if events == [] {
    } else {
      hide InsertByStart;
      var n := |events| - 1;
      ByStartPermutes(events[..n]);
      InsertPermutes(ByStart(events[..n]), events[n]);
      LastInBag(events);
    }
  }

  lemma LastInBag(events: seq<Span>)
    requires events != []
    ensures multiset(events) == multiset(events[..|events| - 1]) + multiset{events[|events| - 1]}
  {
    assert events == events[..|events| - 1] + [events[|events| - 1]];
  }

  // Sorting orders the events by start, loses none, and keeps the order of those with the same start.
  lemma {:induction false} ByStartSorts(events: seq<Span>)
    ensures SortedByStart(ByStart(events)) && multiset(ByStart(events)) == multiset(events)
    ensures forall start: int :: StartingAt(ByStart(events), start) == StartingAt(events, start)
  {
    ByStartPermutes(events);
    ByStartSorted(events);
    forall start: int
      ensures StartingAt(ByStart(events), start) == StartingAt(events, start)
    {
      ByStartStable(events, start);
    }
  }

  // ---- the position and duration heuristic -----------------------------------------------------

  datatype Window = Window(start: int, end: int, minDuration: int, maxDuration: int)

  // Openings start in the first `size` milliseconds, endings in the last.
  function WindowOf(kind: Kind, totalEnd: int, size: int): Window {
    match kind
    case Opening => Window(0, size, 60_000, 120_000)
    case Ending => Window(totalEnd - size, totalEnd, 90_000, 180_000)
  }

  function InWindow(events: seq<Span>, window: Window): seq<Span> {
    if events == [] then []
    else
      var n := |events| - 1;
      if window.start <= events[n].start < window.end then InWindow(events[..n], window) + [events[n]]
      else InWindow(events[..n], window)
  }

  function Candidates(events: seq<Span>, window: Window): seq<Span> {
    ByStart(InWindow(events, window))
  }

  // From the first start to the last end; 0 for no events at all.
  function Duration(cluster: seq<Span>): int {
    if cluster == [] then 0 else cluster[|cluster| - 1].end - cluster[0].start
  }

  predicate Fits(cluster: seq<Span>, window: Window) {
    |cluster| >= MIN_EVENTS && window.minDuration <= Duration(cluster) <= window.maxDuration
  }

  // The first of the longest clusters that fit.
  function Best(clusters: seq<seq<Span>>, window: Window): Option<seq<Span>> {
    if clusters == [] then None
    else
      var n := |clusters| - 1;
      var best := Best(clusters[..n], window);
      if Fits(clusters[n], window) && (best.None? || Duration(clusters[n]) > Duration(best.value))
      then Some(clusters[n])
      else best
  }

  // The k-th cluster fits, no fitting one is longer, and no earlier fitting one is as long.
  predicate IsBest(clusters: seq<seq<Span>>, window: Window, k: nat)
    requires k < |clusters|
  {
    && Fits(clusters[k], window)
    && (forall j :: 0 <= j < |clusters| && Fits(clusters[j], window) ==> Duration(clusters[j]) <= Duration(clusters[k]))
    && (forall j :: 0 <= j < k && Fits(clusters[j], window) ==> Duration(clusters[j]) < Duration(clusters[k]))
  }

  lemma {:induction false} BestIsFirstLongest(clusters: seq<seq<Span>>, window: Window)
    returns (k: nat)
    ensures Best(clusters, window).None? <==> forall j :: 0 <= j < |clusters| ==> !Fits(clusters[j], window)
    ensures Best(clusters, window).Some? ==>
      k < |clusters| && Best(clusters, window) == Some(clusters[k]) && IsBest(clusters, window, k)
  {
    k := 0;
    if clusters == [] {
    } else {
      var n := |clusters| - 1;
      var earlier := BestIsFirstLongest(clusters[..n], window);
      var best := Best(clusters[..n], window);
      k := if Fits(clusters[n], window) && (best.None? || Duration(clusters[n]) > Duration(best.value)) then n
           else earlier;
      if best.Some? {
        assert clusters[..n][earlier] == clusters[earlier];
        assert forall j :: 0 <= j < n ==> clusters[..n][j] == clusters[j];
      } else {
        assert forall j :: 0 <= j < n ==> clusters[..n][j] == clusters[j];
      }
    }
  }

  function CountStarts(events: seq<Span>, low: int, high: int): nat {
    if events == [] then 0
    else
      var n := |events| - 1;
      CountStarts(events[..n], low, high) + if low <= events[n].start <= high then 1 else 0
  }

  function RegionOf(events: seq<Span>, cluster: seq<Span>, kind: Kind): Region
    requires cluster != []
  {
    var start, end := cluster[0].start, cluster[|cluster| - 1].end;
    Region(kind, start, end, CountStarts(events, start, end), ByDuration)
  }

  function Pass2(events: seq<Span>, totalEnd: int, size: int, kind: Kind): Option<Region> {
    var window := WindowOf(kind, totalEnd, size);
    var candidates := Candidates(events, window);
    if |candidates| < MIN_EVENTS then None
    else
      match Best(Clusters(candidates), window)
      case None => None
      case Some(best) => if best == [] then None else Some(RegionOf(events, best, kind))
  }

  lemma {:induction false} JoinedPrefix(clusters: seq<seq<Span>>, k: nat) returns (from: nat)
    requires k < |clusters|
    ensures from + |clusters[k]| <= |Joined(clusters)|
    ensures Joined(clusters)[from..from + |clusters[k]|] == clusters[k]
  {
    var n := |clusters| - 1;
    if k == n {
      from := |Joined(clusters[..n])|;
    } else {
      from := JoinedPrefix(clusters[..n], k);
      assert Joined(clusters)[..|Joined(clusters[..n])|] == Joined(clusters[..n]);
    }
  }

  // Too few candidates, and no cluster of them fits either.
  lemma FewFitNowhere(candidates: seq<Span>, window: Window)
    requires |candidates| < MIN_EVENTS
    ensures Best(Clusters(candidates), window).None?
  {
    var clusters := Clusters(candidates);
    ClustersCutAtGaps(candidates);
    var k := BestIsFirstLongest(clusters, window);
    if Best(clusters, window).Some? {
      var from := JoinedPrefix(clusters, k);
    }
  }

  // A region is reported exactly when a cluster fits, and it is then the first of the longest fitting ones:
  // the clusters themselves are the only cut of the candidates at their gaps.
  lemma {:induction false} Pass2FindsLongest(events: seq<Span>, totalEnd: int, size: int, kind: Kind,
      clusters: seq<seq<Span>>) returns (k: nat)
    requires IsClustering(Candidates(events, WindowOf(kind, totalEnd, size)), clusters)
    ensures var window := WindowOf(kind, totalEnd, size);
      match Pass2(events, totalEnd, size, kind)
      case None => forall j :: 0 <= j < |clusters| ==> !Fits(clusters[j], window)
      case Some(region) =>
        k < |clusters| && IsBest(clusters, window, k) && region == RegionOf(events, clusters[k], kind)
  {
    var window := WindowOf(kind, totalEnd, size);
    var candidates := Candidates(events, window);
    ClustersCutAtGaps(candidates);
    ClusteringUnique(candidates, clusters, Clusters(candidates));
    if |candidates| < MIN_EVENTS {
      FewFitNowhere(candidates, window);
    }
    k := BestIsFirstLongest(clusters, window);
  }

  // ---- how many events a region reports --------------------------------------------------------

  lemma CancelOne(a: multiset<Span>, b: multiset<Span>, x: Span)
    requires a + multiset{x} <= b + multiset{x}
    ensures a <= b
  {
    forall e | e in a
      ensures a[e] <= b[e]
    {
      assert (a + multiset{x})[e] <= (b + multiset{x})[e];
    }
  }

  lemma {:induction false} CountIsSize(events: seq<Span>, low: int, high: int, part: seq<Span>)
    requires multiset(part) <= multiset(events)
    requires forall e :: e in part ==> low <= e.start <= high
    ensures CountStarts(events, low, high) >= |part|
  {
    if events == [] {
      assert multiset(part) == multiset{};
      assert |multiset(part)| == 0;
    } else {
      var n := |events| - 1;
      var last := events[n];
      assert events == events[..n] + [last];
      if last in part {
        var i :| 0 <= i < |part| && part[i] == last;
        var rest := part[..i] + part[i + 1..];
        assert part == part[..i] + [last] + part[i + 1..];
        assert multiset(part) == multiset(rest) + multiset{last};
        assert multiset(events) == multiset(events[..n]) + multiset{last};
        CancelOne(multiset(rest), multiset(events[..n]), last);
        CountIsSize(events[..n], low, high, rest);
      } else {
        assert last !in multiset(part);
        CountIsSize(events[..n], low, high, part);
      }
    }
  }

  // The events of the winning cluster all start within the region exactly when its last event does not
  // start after its own end.
  lemma WithinRegion(cluster: seq<Span>)
    requires cluster != [] && SortedByStart(cluster)
    ensures var last := cluster[|cluster| - 1];
      (forall e :: e in cluster ==> cluster[0].start <= e.start <= last.end) <==> last.start <= last.end
  {
    assert cluster[|cluster| - 1] in cluster;
  }

  lemma {:induction false} InWindowPart(events: seq<Span>, window: Window)
    ensures multiset(InWindow(events, window)) <= multiset(events)
    ensures forall e :: e in InWindow(events, window) ==> window.start <= e.start < window.end
  {
    if events == [] {
    } else {
      var n := |events| - 1;
      InWindowPart(events[..n], window);
      assert events == events[..n] + [events[n]];
    }
  }

  lemma SlicePart(events: seq<Span>, from: nat, to: nat)
    requires from <= to <= |events|
    ensures multiset(events[from..to]) <= multiset(events)
  {
    assert events == events[..from] + events[from..to] + events[to..];
  }

  // A stretch of the sorted candidates is sorted, made of events, and starts inside the window.
  lemma CandidatesPart(events: seq<Span>, window: Window, from: nat, to: nat)
    requires from < to <= |Candidates(events, window)|
    ensures var part := Candidates(events, window)[from..to];
      && SortedByStart(part) && multiset(part) <= multiset(events)
      && window.start <= part[0].start < window.end
  {
    hide ByStart, InWindow, StartingAt;
    var inside, candidates := InWindow(events, window), Candidates(events, window);
    ByStartSorts(inside);
    InWindowPart(events, window);
    SlicePart(candidates, from, to);
    assert candidates[from] in multiset(inside);
  }

  // The winning cluster is such a stretch.
  lemma {:induction false} RegionInWindow(events: seq<Span>, totalEnd: int, size: int, kind: Kind)
    returns (cluster: seq<Span>)
    requires Pass2(events, totalEnd, size, kind).Some?
    ensures var window := WindowOf(kind, totalEnd, size);
      && cluster != [] && Pass2(events, totalEnd, size, kind) == Some(RegionOf(events, cluster, kind))
      && Fits(cluster, window) && SortedByStart(cluster)
      && multiset(cluster) <= multiset(events)
      && window.start <= cluster[0].start < window.end
  {
    hide ByStart, InWindow, Clusters, Best, CountStarts;
    var window := WindowOf(kind, totalEnd, size);
    var clusters := Clusters(Candidates(events, window));
    ClustersCutAtGaps(Candidates(events, window));
    var k := Pass2FindsLongest(events, totalEnd, size, kind, clusters);
    cluster := clusters[k];
    var from := JoinedPrefix(clusters, k);
    CandidatesPart(events, window, from, from + |cluster|);
  }

  // The reported count covers the whole cluster as long as its last event does not start after its end.
  lemma {:induction false} CountCoversCluster(events: seq<Span>, totalEnd: int, size: int, kind: Kind)
    returns (cluster: seq<Span>)
    requires Pass2(events, totalEnd, size, kind).Some?
    requires forall e :: e in events ==> e.start <= e.end
    ensures var region := Pass2(events, totalEnd, size, kind).value;
      && cluster != [] && region == RegionOf(events, cluster, kind)
      && Fits(cluster, WindowOf(kind, totalEnd, size))
      && region.eventCount >= |cluster|
  {
    cluster := RegionInWindow(events, totalEnd, size, kind);
    var last := cluster[|cluster| - 1];
    assert last in multiset(cluster);
    assert last in multiset(events);
    WithinRegion(cluster);
    CountIsSize(events, cluster[0].start, last.end, cluster);
  }

  // When the two windows do not overlap, an opening found by duration starts before such an ending.
  lemma {:induction false} OpeningBeforeEnding(events: seq<Span>, totalEnd: int, size: int)
    requires 2 * size < totalEnd
    requires Pass2(events, totalEnd, size, Opening).Some? && Pass2(events, totalEnd, size, Ending).Some?
    ensures Pass2(events, totalEnd, size, Opening).value.start < size
    ensures size < Pass2(events, totalEnd, size, Ending).value.start
  {
    var opening := RegionInWindow(events, totalEnd, size, Opening);
    var ending := RegionInWindow(events, totalEnd, size, Ending);
  }

  // ---- the two passes --------------------------------------------------------------------------

  datatype Dialogue = Dialogue(span: Span, style: string)

  function Spans(dialogues: seq<Dialogue>): (spans: seq<Span>)
    ensures |spans| == |dialogues|
  {
    if dialogues == [] then []
    else Spans(dialogues[..|dialogues| - 1]) + [dialogues[|dialogues| - 1].span]
  }

  function Styled(dialogues: seq<Dialogue>, named: string -> bool): seq<Span> {
    if dialogues == [] then []
    else
      var n := |dialogues| - 1;
      if named(dialogues[n].style) then Styled(dialogues[..n], named) + [dialogues[n].span]
      else Styled(dialogues[..n], named)
  }

  function EarliestStart(events: seq<Span>): int
    requires events != []
  {
    var n := |events| - 1;
    if n == 0 then events[0].start
    else if events[n].start < EarliestStart(events[..n]) then events[n].start
    else EarliestStart(events[..n])
  }

  function LatestEnd(events: seq<Span>): int
    requires events != []
  {
    var n := |events| - 1;
    if n == 0 then events[0].end
    else if events[n].end > LatestEnd(events[..n]) then events[n].end
    else LatestEnd(events[..n])
  }

  // First pass: everything in a style with a telling name is one region.
  function Pass1(dialogues: seq<Dialogue>, named: string -> bool, kind: Kind): Option<Region> {
    var matching := Styled(dialogues, named);
    if matching == [] then None
    else Some(Region(kind, EarliestStart(matching), LatestEnd(matching), |matching|, ByStyle))
  }

  // The second pass fills in for a kind the first did not find, unless the windows overlap.
  function FindRegion(dialogues: seq<Dialogue>, named: string -> bool, size: int, kind: Kind): Option<Region>
    requires dialogues != []
  {
    var byStyle := Pass1(dialogues, named, kind);
    var events := Spans(dialogues);
    if byStyle.Some? then byStyle
    else if 2 * size < LatestEnd(events) then Pass2(events, LatestEnd(events), size, kind)
    else None
  }

  function Found(region: Option<Region>): seq<Region> {
    match region
    case None => []
    case Some(r) => [r]
  }

  function DetectFromAss(dialogues: seq<Dialogue>, opening: string -> bool, ending: string -> bool, size: int)
    : seq<Region>
  {
    if dialogues == [] then []
    else Found(FindRegion(dialogues, opening, size, Opening)) + Found(FindRegion(dialogues, ending, size, Ending))
  }

  function DetectFromSrt(events: seq<Span>, size: int): seq<Region> {
    if events == [] || 2 * size >= LatestEnd(events) then []
    else
      Found(Pass2(events, LatestEnd(events), size, Opening)) + Found(Pass2(events, LatestEnd(events), size, Ending))
  }

  // At most one region of each kind, openings listed first.
  predicate OnePerKind(regions: seq<Region>) {
    forall i, j :: 0 <= i < j < |regions| ==> regions[i].kind == Opening && regions[j].kind == Ending
  }

  // Of two regions found by duration the opening starts first.
  predicate InOrder(regions: seq<Region>) {
    forall i, j :: 0 <= i < j < |regions| && regions[i].evidence == regions[j].evidence == ByDuration
      ==> regions[i].start < regions[j].start
  }

  lemma SrtRegionsOrdered(events: seq<Span>, size: int)
    ensures OnePerKind(DetectFromSrt(events, size)) && InOrder(DetectFromSrt(events, size))
  {
    hide Pass2;
    if events != [] && 2 * size < LatestEnd(events) {
      PairOrdered(events, LatestEnd(events), size);
    }
  }

  lemma PairOrdered(events: seq<Span>, totalEnd: int, size: int)
    requires 2 * size < totalEnd
    ensures var opening, ending := Pass2(events, totalEnd, size, Opening), Pass2(events, totalEnd, size, Ending);
      && (opening.Some? ==> opening.value.kind == Opening && opening.value.evidence == ByDuration)
      && (ending.Some? ==> ending.value.kind == Ending && ending.value.evidence == ByDuration)
      && (opening.Some? && ending.Some? ==> opening.value.start < ending.value.start)
  {
    if Pass2(events, totalEnd, size, Opening).Some? && Pass2(events, totalEnd, size, Ending).Some? {
      OpeningBeforeEnding(events, totalEnd, size);
    }
  }

  lemma FindRegionEvidence(dialogues: seq<Dialogue>, named: string -> bool, size: int, kind: Kind)
    requires dialogues != []
    ensures var region, events := FindRegion(dialogues, named, size, kind), Spans(dialogues);
      region.Some? ==>
        && region.value.kind == kind
        && (region.value.evidence == ByDuration ==>
            2 * size < LatestEnd(events) && region == Pass2(events, LatestEnd(events), size, kind))
  {
    hide Pass2;
    var events := Spans(dialogues);
    if 2 * size < LatestEnd(events) {
      PairOrdered(events, LatestEnd(events), size);
    }
  }

  lemma AssRegionsOrdered(dialogues: seq<Dialogue>, opening: string -> bool, ending: string -> bool, size: int)
    ensures OnePerKind(DetectFromAss(dialogues, opening, ending, size))
    ensures InOrder(DetectFromAss(dialogues, opening, ending, size))
  {
    hide Pass2, FindRegion, LatestEnd, Spans;
    if dialogues != [] {
      FindRegionEvidence(dialogues, opening, size, Opening);
      FindRegionEvidence(dialogues, ending, size, Ending);
      var events := Spans(dialogues);
      if 2 * size < LatestEnd(events) {
        PairOrdered(events, LatestEnd(events), size);
      }
    }
  }

  // Every dialogue with a telling style lies inside the region of the first pass, which is no larger than needed.
  lemma {:induction false} Pass1Spans(dialogues: seq<Dialogue>, named: string -> bool, kind: Kind)
    ensures Pass1(dialogues, named, kind).None? <==> forall d :: d in dialogues ==> !named(d.style)
    ensures Pass1(dialogues, named, kind).Some? ==>
      var region := Pass1(dialogues, named, kind).value;
      && (forall d :: d in dialogues && named(d.style) ==> region.start <= d.span.start && d.span.end <= region.end)
      && (exists d :: d in dialogues && named(d.style) && d.span.start == region.start)
      && (exists d :: d in dialogues && named(d.style) && d.span.end == region.end)
  {
    var matching := Styled(dialogues, named);
    StyledMembers(dialogues, named);
    if matching != [] {
      var first, last := ExtremesReached(matching);
    }
  }

  lemma {:induction false} StyledMembers(dialogues: seq<Dialogue>, named: string -> bool)
    ensures forall d :: d in dialogues && named(d.style) ==> d.span in Styled(dialogues, named)
    ensures forall e :: e in Styled(dialogues, named) ==> exists d :: d in dialogues && named(d.style) && d.span == e
  {
    if dialogues == [] {
    } else {
      var n := |dialogues| - 1;
      StyledMembers(dialogues[..n], named);
      assert dialogues == dialogues[..n] + [dialogues[n]];
    }
  }

  lemma {:induction false} ExtremesReached(events: seq<Span>) returns (first: Span, last: Span)
    requires events != []
    ensures first in events && last in events
    ensures first.start == EarliestStart(events) && last.end == LatestEnd(events)
    ensures forall e :: e in events ==> first.start <= e.start && e.end <= last.end
  {
    var n := |events| - 1;
    first, last := events[n], events[n];
    if n == 0 {
    } else {
      var front := events[..n];
      var earliest, latest := ExtremesReached(front);
      assert forall e :: e in events ==> e in front || e == events[n];
      first := if events[n].start < earliest.start then events[n] else earliest;
      last := if events[n].end > latest.end then events[n] else latest;
    }
  }
}

/** The loop that splits events into clusters. */
module OpEdDetector {
  import opened OpEdSpec

  lemma ExtendLast(clusters: seq<seq<Span>>, current: seq<Span>, event: Span)
    requires current != []
    ensures Extend(clusters + [current], event)
      == if Gap(current[|current| - 1], event) then clusters + [current] + [[event]]
         else clusters + [current + [event]]
  {
    assert (clusters + [current])[..|clusters|] == clusters;
  }

  // Comparing each event only with the one before it cuts the events at all their gaps.
  method SplitIntoClusters(events: seq<Span>) returns (clusters: seq<seq<Span>>)
    ensures IsClustering(events, clusters)
    ensures clusters == Clusters(events)
  {
    hide IsClustering, Extend, Clusters;
    clusters := [];
    if events == [] {
      ClustersCutAtGaps(events);
      ClustersOfNone();
      return;
    }
    var current := [events[0]];
    ClustersOfOne(events[0]);
    assert events[..1] == [events[0]];
    for i := 1 to |events|
      invariant current != [] && clusters + [current] == Clusters(events[..i])
    {
      ExtendLast(clusters, current, events[i]);
      ClustersOfNext(events, i);
      if events[i].start - current[|current| - 1].end > MAX_GAP {
        clusters := clusters + [current];
        current := [events[i]];
      } else {
        current := current + [events[i]];
      }
    }
    clusters := clusters + [current];
    assert events[..|events|] == events;
    ClustersCutAtGaps(events);
  }

  lemma ClustersOfNone()
    ensures Clusters([]) == []
  {
  }

  lemma ClustersOfOne(event: Span)
    ensures Clusters([event]) == [] + [[event]]
  {
    assert [event][..0] == [];
    assert Clusters([]) == [];
  }

  lemma ClustersOfNext(events: seq<Span>, i: nat)
    requires i < |events|
    ensures Clusters(events[..i + 1]) == Extend(Clusters(events[..i]), events[i])
  {
    assert events[..i + 1][..i] == events[..i];
  }
}

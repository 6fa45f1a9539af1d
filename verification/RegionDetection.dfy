/** What the detection of openings and endings reports, told from the events alone. */
module RegionDetection {
  import opened PyText
  import opened OpEdSpec

  // ---- the candidates ----------------------------------------------------------------------------

  // Sorted by start; of each start inside [low, high) all events, in their order, and nothing else.
  ghost predicate AreCandidates(events: seq<Span>, low: int, high: int, candidates: seq<Span>) {
    && SortedByStart(candidates)
    && forall start: int ::
        StartingAt(candidates, start) == if low <= start < high then StartingAt(events, start) else []
  }

  lemma {:induction false} InWindowAt(events: seq<Span>, window: Window, start: int)
    ensures StartingAt(InWindow(events, window), start)
      == if window.start <= start < window.end then StartingAt(events, start) else []
  {
    hide StartingAt;
    if events == [] {
      NoneStart(start);
    } else {
      var n := |events| - 1;
      InWindowAt(events[..n], window, start);
      StartingAtAppend(events[..n], events[n], start);
      StartingAtAppend(InWindow(events[..n], window), events[n], start);
      assert events[..n] + [events[n]] == events;
    }
  }

  lemma NoneStart(start: int)
    ensures StartingAt([], start) == []
  {
  }

  lemma CandidatesAre(events: seq<Span>, window: Window)
    ensures AreCandidates(events, window.start, window.end, Candidates(events, window))
  {
    hide ByStart, InWindow, StartingAt, SortedByStart;
    ByStartSorts(InWindow(events, window));
    forall start: int
      ensures StartingAt(Candidates(events, window), start)
        == if window.start <= start < window.end then StartingAt(events, start) else []
    {
      InWindowAt(events, window, start);
    }
  }

  lemma {:induction false} StartsSomewhere(events: seq<Span>, start: int)
    requires StartingAt(events, start) != []
    ensures exists i :: 0 <= i < |events| && events[i].start == start
  {
    var n := |events| - 1;
    if events[n].start != start {
      StartsSomewhere(events[..n], start);
    }
  }

  lemma LastStarts(events: seq<Span>)
    requires events != []
    ensures var last := events[|events| - 1];
      StartingAt(events, last.start) == StartingAt(events[..|events| - 1], last.start) + [last]
  {
  }

  // A sorted list is determined by the events it has of each start.
  lemma {:induction false} SortedUnique(a: seq<Span>, b: seq<Span>)
    requires SortedByStart(a) && SortedByStart(b)
    requires forall start: int :: StartingAt(a, start) == StartingAt(b, start)
    ensures a == b
    decreases |a|
  {
    if a == [] {
      if b != [] {
        LastStarts(b);
        assert false;
      }
    } else {
      var last := SameLast(a, b);
      var x, y := a[..|a| - 1], b[..|b| - 1];
      assert a == x + [last] && b == y + [last];
      forall start: int
        ensures StartingAt(x, start) == StartingAt(y, start)
      {
        SameFronts(x, y, last, start);
      }
      SortedUnique(x, y);
    }
  }

  lemma SameFronts(x: seq<Span>, y: seq<Span>, last: Span, start: int)
    requires StartingAt(x + [last], start) == StartingAt(y + [last], start)
    ensures StartingAt(x, start) == StartingAt(y, start)
  {
    hide StartingAt;
    StartingAtAppend(x, last, start);
    StartingAtAppend(y, last, start);
    if last.start == start {
      var p, q := StartingAt(x, start), StartingAt(y, start);
      assert p == (p + [last])[..|p|] && q == (q + [last])[..|q|];
    }
  }

  lemma {:induction false} SameLast(a: seq<Span>, b: seq<Span>) returns (last: Span)
    requires a != [] && SortedByStart(a) && SortedByStart(b)
    requires forall start: int :: StartingAt(a, start) == StartingAt(b, start)
    ensures b != [] && last == a[|a| - 1] == b[|b| - 1]
  {
    hide StartingAt;
    last := a[|a| - 1];
    LastStarts(a);
    StartsSomewhere(b, last.start);
    var other := b[|b| - 1];
    LastStarts(b);
    StartsSomewhere(a, other.start);
    assert last.start == other.start;
    assert (StartingAt(a[..|a| - 1], last.start) + [last])[|StartingAt(a, last.start)| - 1] == last;
  }

  // A cut of the events, in order and without loss, where an event starts more than three seconds after the end of
  // the one before it, and nowhere else.
  ghost predicate AreClusters(events: seq<Span>, clusters: seq<seq<Span>>) {
    && Joined(clusters) == events
    && (forall k :: 0 <= k < |clusters| ==> HoldsTogether(clusters[k]))
    && (forall k :: 0 < k < |clusters| ==> ComesLater(clusters[k - 1], clusters[k]))
  }

  predicate HoldsTogether(cluster: seq<Span>) {
    cluster != [] && forall i :: 0 < i < |cluster| ==> cluster[i].start - cluster[i - 1].end <= 3_000
  }

  predicate ComesLater(a: seq<Span>, b: seq<Span>) {
    a != [] && b != [] && b[0].start - a[|a| - 1].end > 3_000
  }

  lemma ClustersAre(events: seq<Span>, clusters: seq<seq<Span>>)
    ensures AreClusters(events, clusters) <==> IsClustering(events, clusters)
  {
    if IsClustering(events, clusters) {
      forall k | 0 < k < |clusters|
        ensures ComesLater(clusters[k - 1], clusters[k])
      {
        assert GapBefore(clusters, k);
      }
    }
    if AreClusters(events, clusters) {
      forall k | 0 <= k < |clusters|
        ensures clusters[k] != [] && Run(clusters[k])
      {
        assert HoldsTogether(clusters[k]);
      }
      forall k | 0 < k < |clusters|
        ensures GapBefore(clusters, k)
      {
        assert ComesLater(clusters[k - 1], clusters[k]);
      }
    }
  }

  // ---- what is reported ----------------------------------------------------------------------------

  // At least three events, from the first start to the last end no shorter and no longer than that.
  predicate Lasts(cluster: seq<Span>, least: int, most: int) {
    |cluster| >= 3 && least <= cluster[|cluster| - 1].end - cluster[0].start <= most
  }

  // The first of the longest such clusters.
  predicate IsChosen(clusters: seq<seq<Span>>, least: int, most: int, k: nat)
    requires k < |clusters|
  {
    && Lasts(clusters[k], least, most)
    && forall j :: 0 <= j < |clusters| && Lasts(clusters[j], least, most) ==>
        var longest := clusters[k][|clusters[k]| - 1].end - clusters[k][0].start;
        var other := clusters[j][|clusters[j]| - 1].end - clusters[j][0].start;
        other < longest || (other == longest && k <= j)
  }

  // From the first start to the last end of the cluster, with the number of all events that start in there.
  ghost predicate IsRegionOf(events: seq<Span>, cluster: seq<Span>, kind: Kind, region: Region) {
    && cluster != [] && region.kind == kind && region.evidence == ByDuration
    && region.start == cluster[0].start && region.end == cluster[|cluster| - 1].end
    && region.eventCount == |Starting(events, region.start, region.end)|
  }

  // Openings: in the first `size` milliseconds, one to two minutes; endings: in the last, one and a half to three.
  ghost predicate IsSearch(events: seq<Span>, size: int, kind: Kind, least: int, most: int,
      clusters: seq<seq<Span>>)
  {
    exists totalEnd: int, candidates: seq<Span> ::
      && IsEnd(events, totalEnd) && AreClusters(candidates, clusters)
      && match kind
         case Opening => least == 60_000 && most == 120_000 && AreCandidates(events, 0, size, candidates)
         case Ending =>
           least == 90_000 && most == 180_000 && AreCandidates(events, totalEnd - size, totalEnd, candidates)
  }

  ghost predicate IsEnd(events: seq<Span>, totalEnd: int) {
    (exists e :: e in events && e.end == totalEnd) && forall e :: e in events ==> e.end <= totalEnd
  }

  lemma EndIsLatest(events: seq<Span>, totalEnd: int)
    requires events != []
    ensures IsEnd(events, totalEnd) <==> totalEnd == LatestEnd(events)
  {
    var first, last := ExtremesReached(events);
  }

  // The positions of the events that start in [low, high].
  ghost function Starting(events: seq<Span>, low: int, high: int): set<nat> {
    set i: nat | i < |events| && low <= events[i].start <= high
  }

  lemma {:induction false} CountIsNumber(events: seq<Span>, low: int, high: int)
    ensures CountStarts(events, low, high) == |Starting(events, low, high)|
  {
    if events == [] {
      assert Starting(events, low, high) == {};
    } else {
      var n := |events| - 1;
      CountIsNumber(events[..n], low, high);
      StartingLast(events, low, high);
      hide Starting;
    }
  }

  lemma StartingLast(events: seq<Span>, low: int, high: int)
    requires events != []
    ensures var n: nat := |events| - 1;
      && n !in Starting(events[..n], low, high)
      && Starting(events, low, high)
        == Starting(events[..n], low, high) + if low <= events[n].start <= high then {n} else {}
  {
  }

  lemma RegionIs(events: seq<Span>, cluster: seq<Span>, kind: Kind)
    requires cluster != []
    ensures IsRegionOf(events, cluster, kind, RegionOf(events, cluster, kind))
  {
    CountIsNumber(events, cluster[0].start, cluster[|cluster| - 1].end);
  }

  lemma SearchIsPass2(events: seq<Span>, size: int, kind: Kind, least: int, most: int, clusters: seq<seq<Span>>)
    requires events != [] && IsSearch(events, size, kind, least, most, clusters)
    ensures var window := WindowOf(kind, LatestEnd(events), size);
      && window.minDuration == least && window.maxDuration == most
      && IsClustering(Candidates(events, window), clusters)
  {
    hide IsClustering, AreClusters, SortedByStart, StartingAt, ByStart, InWindow, IsEnd;
    var totalEnd: int, candidates: seq<Span> :|
      && IsEnd(events, totalEnd) && AreClusters(candidates, clusters)
      && match kind
         case Opening => least == 60_000 && most == 120_000 && AreCandidates(events, 0, size, candidates)
         case Ending =>
           least == 90_000 && most == 180_000 && AreCandidates(events, totalEnd - size, totalEnd, candidates);
    EndIsLatest(events, totalEnd);
    var window := WindowOf(kind, totalEnd, size);
    CandidatesAre(events, window);
    SortedUnique(candidates, Candidates(events, window));
    ClustersAre(candidates, clusters);
  }

  // There is such a search for every list of events.
  lemma SearchExists(events: seq<Span>, size: int, kind: Kind) returns (clusters: seq<seq<Span>>)
    requires events != []
    ensures IsSearch(events, size, kind, if kind == Opening then 60_000 else 90_000,
      if kind == Opening then 120_000 else 180_000, clusters)
  {
    hide IsClustering, AreClusters, AreCandidates, Candidates, IsEnd;
    var totalEnd := LatestEnd(events);
    EndIsLatest(events, totalEnd);
    var candidates := Candidates(events, WindowOf(kind, totalEnd, size));
    CandidatesAre(events, WindowOf(kind, totalEnd, size));
    clusters := Clusters(candidates);
    ClustersCutAtGaps(candidates);
    ClustersAre(candidates, clusters);
  }

  // What a search for one kind reports.
  ghost predicate Reports(events: seq<Span>, kind: Kind, least: int, most: int, clusters: seq<seq<Span>>,
      found: Option<Region>)
  {
    match found
    case None => forall k :: 0 <= k < |clusters| ==> !Lasts(clusters[k], least, most)
    case Some(region) =>
      exists k :: 0 <= k < |clusters| && IsChosen(clusters, least, most, k)
        && IsRegionOf(events, clusters[k], kind, region)
  }

  lemma Pass2Reports(events: seq<Span>, size: int, kind: Kind, least: int, most: int, clusters: seq<seq<Span>>)
    requires events != [] && IsSearch(events, size, kind, least, most, clusters)
    ensures Reports(events, kind, least, most, clusters, Pass2(events, LatestEnd(events), size, kind))
  {
    hide Pass2, IsClustering, IsRegionOf, RegionOf, Candidates, IsSearch;
    SearchIsPass2(events, size, kind, least, most, clusters);
    var k := Pass2FindsLongest(events, LatestEnd(events), size, kind, clusters);
    var window := WindowOf(kind, LatestEnd(events), size);
    FitsIsLasts(clusters, window);
    if Pass2(events, LatestEnd(events), size, kind).Some? {
      RegionIs(events, clusters[k], kind);
      BestIsChosen(clusters, window, k);
    }
  }

  lemma FitsIsLasts(clusters: seq<seq<Span>>, window: Window)
    ensures forall k :: 0 <= k < |clusters| ==>
      (Fits(clusters[k], window) <==> Lasts(clusters[k], window.minDuration, window.maxDuration))
  {
  }

  lemma BestIsChosen(clusters: seq<seq<Span>>, window: Window, k: nat)
    requires k < |clusters| && IsBest(clusters, window, k)
    ensures clusters[k] != [] && IsChosen(clusters, window.minDuration, window.maxDuration, k)
  {
    FitsIsLasts(clusters, window);
    forall j | 0 <= j < |clusters| && Lasts(clusters[j], window.minDuration, window.maxDuration)
      ensures Fits(clusters[j], window)
    {
    }
  }

  // The regions of a kind in the list are exactly what was found.
  ghost predicate Lists(regions: seq<Region>, kind: Kind, found: Option<Region>) {
    forall region :: region in regions && region.kind == kind <==> found == Some(region)
  }

  lemma BothListed(opening: Option<Region>, ending: Option<Region>)
    requires opening.Some? ==> opening.value.kind == Opening
    requires ending.Some? ==> ending.value.kind == Ending
    ensures Lists(Found(opening) + Found(ending), Opening, opening)
    ensures Lists(Found(opening) + Found(ending), Ending, ending)
  {
  }

  // When the windows do not overlap, an SRT file gets a region of a kind exactly when one of its clusters lasts as
  // long as that kind does, and it is then that of the first longest; otherwise it gets none.
  lemma SrtDetects(events: seq<Span>, size: int, kind: Kind, totalEnd: int, least: int, most: int,
      clusters: seq<seq<Span>>) returns (found: Option<Region>)
    requires events != [] && IsEnd(events, totalEnd) && IsSearch(events, size, kind, least, most, clusters)
    ensures Lists(DetectFromSrt(events, size), kind, found)
    ensures if 2 * size < totalEnd then Reports(events, kind, least, most, clusters, found) else found.None?
  {
    hide Pass2, IsSearch, Reports, Lists, IsEnd;
    EndIsLatest(events, totalEnd);
    found := None;
    if 2 * size < totalEnd {
      Pass2Kinds(events, totalEnd, size);
      BothListed(Pass2(events, totalEnd, size, Opening), Pass2(events, totalEnd, size, Ending));
      Pass2Reports(events, size, kind, least, most, clusters);
      found := Pass2(events, totalEnd, size, kind);
    } else {
      BothListed(None, None);
      assert Found(None) + Found(None) == [];
    }
  }

  lemma Pass2Kinds(events: seq<Span>, totalEnd: int, size: int)
    ensures forall kind: Kind ::
      Pass2(events, totalEnd, size, kind).Some? ==> Pass2(events, totalEnd, size, kind).value.kind == kind
  {
  }

  // The smallest region around the dialogues in a telling style, with their number.
  ghost predicate IsStyleRegion(dialogues: seq<Dialogue>, telling: string -> bool, kind: Kind, region: Region) {
    && region.kind == kind && region.evidence == ByStyle
    && (forall d :: d in dialogues && telling(d.style) ==> region.start <= d.span.start && d.span.end <= region.end)
    && (exists d :: d in dialogues && telling(d.style) && d.span.start == region.start)
    && (exists d :: d in dialogues && telling(d.style) && d.span.end == region.end)
    && region.eventCount == |Telling(dialogues, telling)|
  }

  ghost function Telling(dialogues: seq<Dialogue>, telling: string -> bool): set<nat> {
    set i: nat | i < |dialogues| && telling(dialogues[i].style)
  }

  lemma {:induction false} StyledNumber(dialogues: seq<Dialogue>, telling: string -> bool)
    ensures |Styled(dialogues, telling)| == |Telling(dialogues, telling)|
  {
    if dialogues == [] {
      assert Telling(dialogues, telling) == {};
    } else {
      var n := |dialogues| - 1;
      StyledNumber(dialogues[..n], telling);
      TellingLast(dialogues, telling);
      hide Telling;
    }
  }

  lemma TellingLast(dialogues: seq<Dialogue>, telling: string -> bool)
    requires dialogues != []
    ensures var n: nat := |dialogues| - 1;
      && n !in Telling(dialogues[..n], telling)
      && Telling(dialogues, telling)
        == Telling(dialogues[..n], telling) + if telling(dialogues[n].style) then {n} else {}
  {
  }

  lemma Pass1Reports(dialogues: seq<Dialogue>, telling: string -> bool, kind: Kind)
    ensures match Pass1(dialogues, telling, kind)
      case None => forall d :: d in dialogues ==> !telling(d.style)
      case Some(region) =>
        IsStyleRegion(dialogues, telling, kind, region) && exists d :: d in dialogues && telling(d.style)
  {
    hide Styled, EarliestStart, LatestEnd;
    Pass1Spans(dialogues, telling, kind);
    StyledNumber(dialogues, telling);
  }

  // One kind in an ASS file: from the styles, else from the clusters when the windows do not overlap.
  ghost predicate AssReports(dialogues: seq<Dialogue>, telling: string -> bool, size: int, kind: Kind, totalEnd: int,
      least: int, most: int, clusters: seq<seq<Span>>, found: Option<Region>)
  {
    if exists d :: d in dialogues && telling(d.style)
    then found.Some? && IsStyleRegion(dialogues, telling, kind, found.value)
    else if 2 * size < totalEnd then Reports(Spans(dialogues), kind, least, most, clusters, found)
    else found.None?
  }

  lemma FindRegionReports(dialogues: seq<Dialogue>, telling: string -> bool, size: int, kind: Kind, totalEnd: int,
      least: int, most: int, clusters: seq<seq<Span>>)
    requires dialogues != [] && IsEnd(Spans(dialogues), totalEnd)
    requires IsSearch(Spans(dialogues), size, kind, least, most, clusters)
    ensures AssReports(dialogues, telling, size, kind, totalEnd, least, most, clusters,
      FindRegion(dialogues, telling, size, kind))
  {
    hide Pass2, Pass1, IsSearch, Reports, IsEnd, LatestEnd, IsStyleRegion, Spans;
    EndIsLatest(Spans(dialogues), totalEnd);
    Pass1Reports(dialogues, telling, kind);
    Pass2Reports(Spans(dialogues), size, kind, least, most, clusters);
  }

  // An ASS file gets the region of a kind from its styles when one of them tells it; otherwise it is searched like
  // an SRT file, kind by kind.
  lemma AssDetects(dialogues: seq<Dialogue>, opening: string -> bool, ending: string -> bool, size: int, kind: Kind,
      totalEnd: int, least: int, most: int, clusters: seq<seq<Span>>) returns (found: Option<Region>)
    requires dialogues != [] && IsEnd(Spans(dialogues), totalEnd)
    requires IsSearch(Spans(dialogues), size, kind, least, most, clusters)
    ensures Lists(DetectFromAss(dialogues, opening, ending, size), kind, found)
    ensures AssReports(dialogues, if kind == Opening then opening else ending, size, kind, totalEnd, least, most,
      clusters, found)
  {
    hide FindRegion, IsSearch, AssReports, Lists, IsEnd, Spans;
    FindRegionKind(dialogues, opening, size, Opening);
    FindRegionKind(dialogues, ending, size, Ending);
    BothListed(FindRegion(dialogues, opening, size, Opening), FindRegion(dialogues, ending, size, Ending));
    var telling := if kind == Opening then opening else ending;
    found := FindRegion(dialogues, telling, size, kind);
    FindRegionReports(dialogues, telling, size, kind, totalEnd, least, most, clusters);
  }

  lemma FindRegionKind(dialogues: seq<Dialogue>, telling: string -> bool, size: int, kind: Kind)
    requires dialogues != []
    ensures FindRegion(dialogues, telling, size, kind).Some? ==>
      FindRegion(dialogues, telling, size, kind).value.kind == kind
  {
    hide Pass2;
    Pass2Kinds(Spans(dialogues), LatestEnd(Spans(dialogues)), size);
  }
}

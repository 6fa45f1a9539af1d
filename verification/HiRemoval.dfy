/** Removing hearing-impaired markers: which events change, which disappear, and how the log of changes
    keeps pointing at the right events while the list shrinks. */
module HiSpec {
  import opened IndexDeletion
  import opened Subtitles

  // What the removal asks about texts: the text as shown, the text without markers, and whether a bracket
  // opens at its end or closes at its beginning.
  datatype Rules = Rules(
    shown: string -> string,
    cleaned: string -> string,
    opens: string -> bool,
    closes: string -> bool)

  // A bracketed remark that runs from event i into the next one.
  predicate PairAt(rules: Rules, cues: seq<Cue>, i: nat) {
    i + 1 < |cues| && rules.opens(rules.shown(cues[i].text)) && rules.closes(rules.shown(cues[i + 1].text))
  }

  predicate Marked(rules: Rules, cues: seq<Cue>, i: nat) {
    PairAt(rules, cues, i) || (i > 0 && PairAt(rules, cues, i - 1))
  }

  function Clean(rules: Rules, cue: Cue): string {
    rules.cleaned(rules.shown(cue.text))
  }

  predicate Rewritten(rules: Rules, cues: seq<Cue>, i: nat)
    requires i < |cues|
  {
    var shown := rules.shown(cues[i].text);
    !cues[i].isComment && !Marked(rules, cues, i) && shown != "" && Clean(rules, cues[i]) != shown
  }

  predicate Removed(rules: Rules, cues: seq<Cue>, i: nat)
    requires i < |cues|
  {
    Marked(rules, cues, i) || (Rewritten(rules, cues, i) && Clean(rules, cues[i]) == "")
  }

  function RemovedSet(rules: Rules, cues: seq<Cue>): set<nat> {
    set i: nat | i < |cues| && Removed(rules, cues, i)
  }

  // The events once their texts are cleaned, before any is removed.
  function Cleaned(rules: Rules, cues: seq<Cue>): (r: seq<Cue>)
    ensures |r| == |cues|
  {
    seq(|cues|, i requires 0 <= i < |cues| =>
      if Rewritten(rules, cues, i) && Clean(rules, cues[i]) != "" then cues[i].(text := Clean(rules, cues[i]))
      else cues[i])
  }

  // The positions below n that get an entry in the log.
  function Logged(rules: Rules, cues: seq<Cue>, n: nat): (ids: seq<nat>)
    requires n <= |cues|
    ensures forall k :: 0 <= k < |ids| ==> ids[k] < n && Rewritten(rules, cues, ids[k])
  {
    if n == 0 then []
    else if Rewritten(rules, cues, n - 1) then Logged(rules, cues, n - 1) + [n - 1]
    else Logged(rules, cues, n - 1)
  }

  lemma {:induction false} LoggedMembers(rules: Rules, cues: seq<Cue>, n: nat)
    requires n <= |cues|
    ensures forall i: nat :: i in Logged(rules, cues, n) <==> i < n && Rewritten(rules, cues, i)
    ensures Ascending(Logged(rules, cues, n), n)
  {
    hide Rewritten;
    if n == 0 {
    } else {
      LoggedMembers(rules, cues, n - 1);
    }
  }

  // What becomes of each event. Both events of a bracket pair go, comments included. Of the others, comments and
  // events that show nothing stay; the rest gets its cleaned text and an entry when that is a different one, and
  // goes when it is empty.
  lemma EventsFate(rules: Rules, cues: seq<Cue>, i: nat)
    requires i < |cues|
    ensures var shown := rules.shown(cues[i].text);
      var paired :=
        || (i + 1 < |cues| && rules.opens(shown) && rules.closes(rules.shown(cues[i + 1].text)))
        || (i > 0 && rules.opens(rules.shown(cues[i - 1].text)) && rules.closes(shown));
      var touched := !paired && !cues[i].isComment && shown != "" && rules.cleaned(shown) != shown;
      && (i in RemovedSet(rules, cues) <==> paired || (touched && rules.cleaned(shown) == ""))
      && (i in Logged(rules, cues, |cues|) <==> touched)
      && (i !in RemovedSet(rules, cues) ==>
        Cleaned(rules, cues)[i] == if touched then cues[i].(text := rules.cleaned(shown)) else cues[i])
  {
    LoggedMembers(rules, cues, |cues|);
  }

  // ---- where a logged position ends up ---------------------------------------------------------

  // The index of position k once the removals at b and above are done.
  function Place(b: nat, k: nat, removed: set<nat>): nat {
    if k <= b then k else b + |Kept(b, k, removed)|
  }

  // Deleting the next position r below b, and decrementing every index above r.
  lemma {:induction false} PlaceStep(r: nat, b: nat, k: nat, removed: set<nat>)
    requires r < b && r in removed && forall j :: r < j < b ==> j !in removed
    ensures Place(r, k, removed) == if Place(b, k, removed) > r then Place(b, k, removed) - 1 else Place(b, k, removed)
  {
    if r < k {
      KeptRun(r + 1, if k <= b then k else b, k, removed);
    }
  }

  lemma {:induction false} PlaceEnds(b: nat, k: nat, removed: set<nat>)
    requires forall j :: 0 <= j < b ==> j !in removed
    ensures Place(b, k, removed) == |Kept(0, k, removed)|
  {
    KeptRun(0, if k <= b then k else b, k, removed);
  }

  // After the whole loop an entry's index is the number of surviving events in front of its event, and if
  // the event itself survived that is exactly where it now stands.
  lemma {:induction false} IndexPointsHome<T>(s: seq<T>, k: nat, removed: set<nat>)
    requires k < |s| && k !in removed
    ensures |Kept(0, k, removed)| < |Without(s, removed)|
    ensures Without(s, removed)[|Kept(0, k, removed)|] == s[k]
  {
    KeptFinds(0, k, |s|, removed);
  }

  // What the pass promises about its log.
  lemma {:induction false} LogPointsHome(rules: Rules, cues: seq<Cue>, j: nat)
    requires j < |Logged(rules, cues, |cues|)|
    ensures var k := Logged(rules, cues, |cues|)[j];
      var index, rest := |Kept(0, k, RemovedSet(rules, cues))|, Without(Cleaned(rules, cues), RemovedSet(rules, cues));
      Clean(rules, cues[k]) != "" ==>
        index < |rest| && rest[index] == cues[k].(text := Clean(rules, cues[k]))
  {
    var k := Logged(rules, cues, |cues|)[j];
    if Clean(rules, cues[k]) != "" {
      IndexPointsHome(Cleaned(rules, cues), k, RemovedSet(rules, cues));
    }
  }
}

/** The removal itself, on the event list and on the objects of the change log. */
module HiRemoval {
  import opened ChangeLog
  import opened IndexDeletion
  import opened Subtitles
  import opened HiSpec

  class Change {
    var eventIndex: nat
    const timestamp: string
    const original: string
    const modified: string

    constructor (eventIndex: nat, timestamp: string, original: string, modified: string)
      ensures this.eventIndex == eventIndex && this.timestamp == timestamp
      ensures this.original == original && this.modified == modified
    {
      this.eventIndex, this.timestamp, this.original, this.modified := eventIndex, timestamp, original, modified;
    }
  }

  predicate Distinct(changes: seq<Change>) {
    forall i, j :: 0 <= i < j < |changes| ==> changes[i] != changes[j]
  }

  function Indices(changes: seq<Change>): (r: seq<nat>)
    reads changes
    ensures |r| == |changes| && forall j :: 0 <= j < |changes| ==> r[j] == changes[j].eventIndex
  {
    if changes == [] then [] else [changes[0].eventIndex] + Indices(changes[1..])
  }

  function Decremented(indices: seq<nat>, i: nat): (r: seq<nat>)
    ensures |r| == |indices|
  {
    seq(|indices|, j requires 0 <= j < |indices| => if indices[j] > i then indices[j] - 1 else indices[j])
  }

  // for c in changes: if c.event_index > i: c.event_index -= 1
  method ShiftDown(changes: seq<Change>, i: nat)
    requires Distinct(changes)
    modifies changes
    ensures Indices(changes) == Decremented(old(Indices(changes)), i)
  {
    for j := 0 to |changes|
      invariant forall m :: 0 <= m < j ==> changes[m].eventIndex == Decremented(old(Indices(changes)), i)[m]
      invariant forall m :: j <= m < |changes| ==> changes[m].eventIndex == old(Indices(changes))[m]
    {
      var c := changes[j];
      if c.eventIndex > i {
        c.eventIndex := c.eventIndex - 1;
      }
    }
  }

  function Places(b: nat, indices: seq<nat>, removed: set<nat>): (r: seq<nat>)
    ensures |r| == |indices|
  {
    seq(|indices|, j requires 0 <= j < |indices| => Place(b, indices[j], removed))
  }

  lemma {:induction false} PlacesStep(positions: seq<nat>, n: nat, i: nat, indices: seq<nat>)
    requires Ascending(positions, n) && i < |positions|
    ensures Decremented(Places(Bound(positions, i + 1, n), indices, Elements(positions)), positions[i])
      == Places(positions[i], indices, Elements(positions))
  {
    forall j | 0 <= j < |indices| {
      PlaceStep(positions[i], Bound(positions, i + 1, n), indices[j], Elements(positions));
    }
  }

  // The number of survivors in front of each index.
  function Reindexed(indices: seq<nat>, removed: set<nat>): (r: seq<nat>)
    ensures |r| == |indices|
  {
    seq(|indices|, j requires 0 <= j < |indices| => |Kept(0, indices[j], removed)|)
  }

  lemma {:induction false} PlacesStart(n: nat, indices: seq<nat>, removed: set<nat>)
    requires forall j :: 0 <= j < |indices| ==> indices[j] < n
    ensures Places(n, indices, removed) == indices
  {
  }

  lemma {:induction false} PlacesEnd(positions: seq<nat>, n: nat, indices: seq<nat>)
    requires Ascending(positions, n)
    ensures Places(Bound(positions, 0, n), indices, Elements(positions)) == Reindexed(indices, Elements(positions))
  {
    forall j | 0 <= j < |indices| {
      PlaceEnds(Bound(positions, 0, n), indices[j], Elements(positions));
    }
  }

  // Delete positions from the last to the first, and keep the log in step.
  method DeleteAndReindex(file: SubFile, positions: seq<nat>, changes: seq<Change>)
    requires file.Valid() && Ascending(positions, |file.events|) && Distinct(changes)
    requires forall j :: 0 <= j < |changes| ==> changes[j].eventIndex < |file.events|
    modifies file`events, changes
    ensures file.Valid()
    ensures file.events == Without(old(file.events), Elements(positions))
    ensures file.Cues() == Without(old(file.Cues()), Elements(positions))
    ensures Indices(changes) == Reindexed(old(Indices(changes)), Elements(positions))
  {
    hide Places, Decremented, Remaining, Kept;
    ghost var removed, n := Elements(positions), |file.events|;
    ghost var listed, cues, indices := file.events, file.Cues(), Indices(changes);
    RemoveStart(listed, removed);
    RemoveStart(cues, removed);
    PlacesStart(n, indices, removed);
    var i := |positions|;
    while i > 0
      invariant 0 <= i <= |positions| && file.Valid()
      invariant file.events == Pick(listed, Remaining(Bound(positions, i, n), n, removed))
      invariant file.Cues() == Pick(cues, Remaining(Bound(positions, i, n), n, removed))
      invariant Indices(changes) == Places(Bound(positions, i, n), indices, removed)
    {
      i := i - 1;
      RemoveStep(listed, positions, i);
      RemoveStep(cues, positions, i);
      PlacesStep(positions, n, i, indices);
      ghost var shifted := Places(Bound(positions, i + 1, n), indices, removed);
      file.Delete(positions[i]);
      ghost var kept, keptCues := file.events, file.Cues();
      assert Indices(changes) == shifted;
      ShiftDown(changes, positions[i]);
      assert Indices(changes) == Decremented(shifted, positions[i]);
      assert file.events == kept && file.Cues() == keptCues;
    }
    RemoveEnd(positions, n);
    PlacesEnd(positions, n, indices);
  }

  // ---- the scan --------------------------------------------------------------------------------

  predicate FollowsPair(rules: Rules, cues: seq<Cue>, j: nat) {
    j > 0 && PairAt(rules, cues, j - 1)
  }

  // The positions marked by the pairs that start below i.
  ghost predicate MarkedBelow(rules: Rules, cues: seq<Cue>, i: nat, marked: set<nat>) {
    forall j: nat :: j in marked <==> (j < i && PairAt(rules, cues, j)) || (j <= i && FollowsPair(rules, cues, j))
  }

  lemma MarkStep(rules: Rules, cues: seq<Cue>, i: nat, marked: set<nat>)
    requires MarkedBelow(rules, cues, i, marked)
    ensures MarkedBelow(rules, cues, i + 1, if PairAt(rules, cues, i) then marked + {i, i + 1} else marked)
  {
    var next := if PairAt(rules, cues, i) then marked + {i, i + 1} else marked;
    assert FollowsPair(rules, cues, i + 1) == PairAt(rules, cues, i);
    forall j: nat
      ensures j in next <==> (j < i + 1 && PairAt(rules, cues, j)) || (j <= i + 1 && FollowsPair(rules, cues, j))
    {
      assert j in marked <==> (j < i && PairAt(rules, cues, j)) || (j <= i && FollowsPair(rules, cues, j));
      if j == i + 1 {
        assert FollowsPair(rules, cues, j) == PairAt(rules, cues, i);
      }
    }
  }

  lemma MarkDone(rules: Rules, cues: seq<Cue>, i: nat, marked: set<nat>)
    requires MarkedBelow(rules, cues, i, marked) && i + 1 >= |cues|
    ensures forall j: nat :: j in marked <==> Marked(rules, cues, j)
  {
    forall j: nat
      ensures j in marked <==> Marked(rules, cues, j)
    {
      assert j in marked <==> (j < i && PairAt(rules, cues, j)) || (j <= i && FollowsPair(rules, cues, j));
      assert Marked(rules, cues, j) == (PairAt(rules, cues, j) || FollowsPair(rules, cues, j));
    }
  }

  method MarkBracketPairs(cues: seq<Cue>, rules: Rules) returns (marked: set<nat>)
    ensures forall i: nat :: i in marked <==> Marked(rules, cues, i)
  {
    marked := {};
    var i := 0;
    while i + 1 < |cues|
      invariant i == 0 || i < |cues|
      invariant MarkedBelow(rules, cues, i, marked)
    {
      MarkStep(rules, cues, i, marked);
      var a, b := rules.shown(cues[i].text), rules.shown(cues[i + 1].text);
      if rules.opens(a) && rules.closes(b) {
        marked := marked + {i, i + 1};
      }
      i := i + 1;
    }
    MarkDone(rules, cues, i, marked);
  }

  // The scan after i events: cleaned texts in front, the log so far, and the positions to remove.
  ghost predicate Scanned(rules: Rules, before: seq<Cue>, current: seq<Cue>, i: nat, indices: seq<nat>,
      toRemove: set<nat>)
  {
    && |before| == |current| && i <= |before|
    && (forall j :: 0 <= j < i ==> current[j] == Cleaned(rules, before)[j])
    && (forall j :: i <= j < |before| ==> current[j] == before[j])
    && indices == Logged(rules, before, i)
    && (forall j: nat :: j in toRemove <==>
          j < |before| && (if j < i then Removed(rules, before, j) else Marked(rules, before, j)))
  }

  lemma ScanStarts(rules: Rules, before: seq<Cue>, marked: set<nat>)
    requires forall i: nat :: i in marked <==> Marked(rules, before, i)
    ensures Scanned(rules, before, before, 0, [], marked) && IsLog(rules, before, [], [])
  {
  }

  lemma ScanEnds(rules: Rules, before: seq<Cue>, current: seq<Cue>, indices: seq<nat>, toRemove: set<nat>)
    requires Scanned(rules, before, current, |before|, indices, toRemove)
    ensures indices == Logged(rules, before, |before|)
  {
  }

  lemma {:induction false} ScanStep(rules: Rules, before: seq<Cue>, current: seq<Cue>, i: nat, indices: seq<nat>,
      toRemove: set<nat>) returns (nextCues: seq<Cue>, nextIndices: seq<nat>, nextRemove: set<nat>)
    requires Scanned(rules, before, current, i, indices, toRemove) && i < |before|
    ensures Scanned(rules, before, nextCues, i + 1, nextIndices, nextRemove)
    ensures current[i] == before[i] && (i in toRemove <==> Marked(rules, before, i))
    ensures nextIndices == if Rewritten(rules, before, i) then indices + [i] else indices
    ensures nextRemove
      == if Rewritten(rules, before, i) && Clean(rules, before[i]) == "" then toRemove + {i} else toRemove
    ensures nextCues == current[i := Cleaned(rules, before)[i]]
  {
    nextCues, nextIndices, nextRemove := current, indices, toRemove;
    if Rewritten(rules, before, i) {
      nextIndices := indices + [i];
      if Clean(rules, before[i]) == "" {
        nextRemove := toRemove + {i};
      }
    }
    nextCues := current[i := Cleaned(rules, before)[i]];
  }

  // The log entries stand for the positions ids, and say what they replaced and what they put there.
  ghost predicate IsLog(rules: Rules, before: seq<Cue>, changes: seq<Change>, ids: seq<nat>)
    reads changes
  {
    && Distinct(changes) && |changes| == |ids|
    && forall j :: 0 <= j < |ids| ==> EntryAt(rules, before, changes[j], ids[j])
  }

  ghost predicate EntryAt(rules: Rules, before: seq<Cue>, change: Change, i: nat)
    reads change
  {
    && i < |before| && change.eventIndex == i && change.timestamp == TimesOf(before[i])
    && change.original == rules.shown(before[i].text) && change.modified == Clean(rules, before[i])
  }

  lemma RewrittenAs(rules: Rules, cues: seq<Cue>, i: nat)
    requires i < |cues|
    ensures Cleaned(rules, cues)[i] == if Rewritten(rules, cues, i) && Clean(rules, cues[i]) != ""
      then cues[i].(text := Clean(rules, cues[i])) else cues[i]
  {
  }

  // One event of the scan.
  method CleanEvent(file: SubFile, rules: Rules, i: nat, skip: bool)
      returns (rewritten: bool, original: string, cleaned: string)
    requires file.Valid() && i < |file.events|
    modifies file.events[i]
    ensures file.Valid() && file.events == old(file.events)
    ensures var cue := old(file.Cues()[i]);
      && original == rules.shown(cue.text) && cleaned == Clean(rules, cue)
      && (rewritten <==> !cue.isComment && !skip && original != "" && cleaned != original)
      && file.Cues()
           == old(file.Cues())[i := if rewritten && cleaned != "" then cue.(text := cleaned) else cue]
  {
    var event := file.events[i];
    original := rules.shown(event.text);
    cleaned := rules.cleaned(original);
    rewritten := !event.isComment && !skip && original != "" && cleaned != original;
    if rewritten && cleaned != "" {
      file.SetText(i, cleaned);
    }
  }

  method LogChange(changes: seq<Change>, i: nat, timestamp: string, original: string, modified: string,
      ghost rules: Rules, ghost before: seq<Cue>, ghost ids: seq<nat>) returns (r: seq<Change>)
    requires IsLog(rules, before, changes, ids) && i < |before|
    requires timestamp == TimesOf(before[i])
    requires original == rules.shown(before[i].text) && modified == Clean(rules, before[i])
    ensures IsLog(rules, before, r, ids + [i])
    ensures forall j :: 0 <= j < |r| ==> r[j] in changes || fresh(r[j])
  {
    hide TimesOf;
    var change := new Change(i, timestamp, original, modified);
    r := changes + [change];
  }

  method ScanEvent(file: SubFile, rules: Rules, i: nat, skip: bool, changes: seq<Change>,
      ghost before: seq<Cue>, ghost ids: seq<nat>) returns (next: seq<Change>, emptied: bool)
    requires file.Valid() && i < |file.events| == |before| && file.Cues()[i] == before[i]
    requires (skip <==> Marked(rules, before, i)) && IsLog(rules, before, changes, ids)
    modifies file.events[i]
    ensures file.Valid() && file.events == old(file.events)
    ensures file.Cues() == old(file.Cues())[i := Cleaned(rules, before)[i]]
    ensures IsLog(rules, before, next, if Rewritten(rules, before, i) then ids + [i] else ids)
    ensures emptied <==> Rewritten(rules, before, i) && Clean(rules, before[i]) == ""
    ensures forall j :: 0 <= j < |next| ==> next[j] in changes || fresh(next[j])
  {
    hide TimesOf;
    RewrittenAs(rules, before, i);
    var timestamp := TimesOf(file.events[i].AsCue());
    var rewritten, original, cleaned := CleanEvent(file, rules, i, skip);
    next, emptied := changes, rewritten && cleaned == "";
    if rewritten {
      next := LogChange(changes, i, timestamp, original, cleaned, rules, before, ids);
    }
  }

  method ScanEvents(file: SubFile, rules: Rules) returns (changes: seq<Change>, toRemove: set<nat>)
    requires file.Valid()
    modifies file.events
    ensures file.Valid() && file.events == old(file.events)
    ensures forall j :: 0 <= j < |changes| ==> fresh(changes[j])
    ensures IsLog(rules, old(file.Cues()), changes, Logged(rules, old(file.Cues()), |file.events|))
    ensures Scanned(rules, old(file.Cues()), file.Cues(), |file.events|,
      Logged(rules, old(file.Cues()), |file.events|), toRemove)
  {
    hide TimesOf, Logged, Removed, Scanned, IsLog, Marked, Cleaned;
    ghost var before := file.Cues();
    ghost var ids: seq<nat> := [];
    changes := [];
    toRemove := MarkBracketPairs(file.Cues(), rules);
    ScanStarts(rules, before, toRemove);
    for i := 0 to |file.events|
      invariant file.Valid() && file.events == old(file.events)
      invariant forall j :: 0 <= j < |changes| ==> fresh(changes[j])
      invariant Scanned(rules, before, file.Cues(), i, ids, toRemove)
      invariant IsLog(rules, before, changes, ids)
    {
      ghost var cues, indices, removing := ScanStep(rules, before, file.Cues(), i, ids, toRemove);
      var emptied;
      changes, emptied := ScanEvent(file, rules, i, i in toRemove, changes, before, ids);
      if emptied {
        toRemove := toRemove + {i};
      }
      ids := indices;
      assert file.Cues() == cues && toRemove == removing;
    }
    ScanEnds(rules, before, file.Cues(), ids, toRemove);
  }

  // sorted(set(...))
  function SortedBelow(n: nat, s: set<nat>): seq<nat> {
    if n == 0 then [] else if n - 1 in s then SortedBelow(n - 1, s) + [n - 1] else SortedBelow(n - 1, s)
  }

  lemma {:induction false} SortedExact(n: nat, s: set<nat>)
    ensures Ascending(SortedBelow(n, s), n)
    ensures forall k: nat :: k in SortedBelow(n, s) <==> k < n && k in s
  {
    if n == 0 {
    } else {
      SortedExact(n - 1, s);
    }
  }

  predicate LoggedTexts(rules: Rules, change: Change, cue: Cue) {
    change.timestamp == TimesOf(cue) && change.original == rules.shown(cue.text) && change.modified == Clean(rules, cue)
  }

  lemma LogIndices(rules: Rules, before: seq<Cue>, changes: seq<Change>, ids: seq<nat>)
    requires IsLog(rules, before, changes, ids)
    ensures Indices(changes) == ids
    ensures forall j :: 0 <= j < |ids| ==> ids[j] < |before| && LoggedTexts(rules, changes[j], before[ids[j]])
  {
    hide TimesOf;
    forall j | 0 <= j < |ids|
      ensures changes[j].eventIndex == ids[j] && ids[j] < |before| && LoggedTexts(rules, changes[j], before[ids[j]])
    {
      assert EntryAt(rules, before, changes[j], ids[j]);
    }
  }

  // The whole pass: the surviving events are the cleaned ones outside the removal set, in order, and every
  // entry of the log whose event survived points at that event, which now carries the logged text.
  method ApplyHiRemoval(file: SubFile, rules: Rules) returns (changes: seq<Change>)
    requires file.Valid()
    modifies file`events, file.events
    ensures file.Valid()
    ensures file.Cues() == Without(Cleaned(rules, old(file.Cues())), RemovedSet(rules, old(file.Cues())))
    ensures Indices(changes)
      == Reindexed(Logged(rules, old(file.Cues()), |old(file.events)|), RemovedSet(rules, old(file.Cues())))
    ensures forall j :: 0 <= j < |changes| ==> LoggedTexts(rules, changes[j],
      old(file.Cues())[Logged(rules, old(file.Cues()), |old(file.events)|)[j]])
  {
    hide TimesOf;
    ghost var before, removed := file.Cues(), RemovedSet(rules, file.Cues());
    var n := |file.events|;
    var toRemove;
    changes, toRemove := ScanEvents(file, rules);
    var positions := SortedBelow(n, toRemove);
    SortedExact(n, toRemove);
    LogIndices(rules, before, changes, Logged(rules, before, n));
    assert Elements(positions) == removed;
    assert file.Cues() == Cleaned(rules, before);
    DeleteAndReindex(file, positions, changes);
  }
}

/** The rewriting passes over the event list: merging short lines, trimming overlaps and enforcing a
    minimum display time. */
module FixSpec {
  import opened ChangeLog
  import opened PyText
  import opened Subtitles
  import opened SrtSpec

  // ---- merging short lines ---------------------------------------------------------------------

  // What merging asks and does about texts: is a text short, how are two texts joined, how is one shown.
  datatype Rules = Rules(short: string -> bool, join: (string, string) -> string, shown: string -> string)

  // plain: the text of an event without markup, as the subtitle library derives it.
  function StandardRules(plain: string -> string): Rules {
    Rules(
      text => |Strip(plain(text))| < 20,
      (a, b) => RStrip(a) + "\n" + LStrip(b),
      text => Strip(plain(text)))
  }

  predicate Mergeable(rules: Rules, a: Cue, b: Cue) {
    b.start - a.end <= 500 && rules.short(a.text) && rules.short(b.text)
  }

  function Merged(rules: Rules, a: Cue, b: Cue): Cue {
    a.(text := rules.join(a.text, b.text), end := b.end)
  }

  // Greedy merging from the left: a merged event is tried again with its new neighbour.
  function Merge(rules: Rules, cues: seq<Cue>): (r: seq<Cue>)
    ensures |r| <= |cues| && (cues != [] ==> r != [])
    decreases |cues|
  {
    if |cues| <= 1 then cues
    else if Mergeable(rules, cues[0], cues[1]) then Merge(rules, [Merged(rules, cues[0], cues[1])] + cues[2..])
    else [cues[0]] + Merge(rules, cues[1..])
  }

  predicate NothingMergeable(rules: Rules, cues: seq<Cue>) {
    forall k :: 0 <= k < |cues| - 1 ==> !Mergeable(rules, cues[k], cues[k + 1])
  }

  // Merging never moves the start of the first event, and touches it only if it is short.
  lemma {:induction false} MergeHead(rules: Rules, cues: seq<Cue>)
    requires cues != []
    ensures var head := Merge(rules, cues)[0];
      head.start == cues[0].start && (head == cues[0] || rules.short(cues[0].text))
    decreases |cues|
  {
    if |cues| > 1 && Mergeable(rules, cues[0], cues[1]) {
      MergeHead(rules, [Merged(rules, cues[0], cues[1])] + cues[2..]);
    }
  }

  // One run reaches a normal form: nothing that could still be merged is left, whatever the markup.
  lemma {:induction false} MergeNormal(rules: Rules, cues: seq<Cue>)
    ensures NothingMergeable(rules, Merge(rules, cues))
    decreases |cues|
  {
    if |cues| > 1 {
      if Mergeable(rules, cues[0], cues[1]) {
        MergeNormal(rules, [Merged(rules, cues[0], cues[1])] + cues[2..]);
      } else {
        var rest := Merge(rules, cues[1..]);
        MergeNormal(rules, cues[1..]);
        MergeHead(rules, cues[1..]);
        forall k | 0 <= k < |rest|
          ensures !Mergeable(rules, ([cues[0]] + rest)[k], ([cues[0]] + rest)[k + 1])
        {
          assert k > 0 ==> ([cues[0]] + rest)[k] == rest[k - 1] && ([cues[0]] + rest)[k + 1] == rest[k];
        }
      }
    }
  }

  // With the client's own rules: two neighbours that are at most half a second apart and each shorter than twenty
  // visible characters are left nowhere.
  lemma StandardMergeNormal(plain: string -> string, cues: seq<Cue>, k: nat)
    requires k + 1 < |Merge(StandardRules(plain), cues)|
    ensures var merged := Merge(StandardRules(plain), cues);
      merged[k + 1].start - merged[k].end > 500
      || |Strip(plain(merged[k].text))| >= 20 || |Strip(plain(merged[k + 1].text))| >= 20
  {
    hide Merge;
    var merged := Merge(StandardRules(plain), cues);
    MergeNormal(StandardRules(plain), cues);
    assert !Mergeable(StandardRules(plain), merged[k], merged[k + 1]);
  }

  // And where there are no such neighbours, nothing is merged.
  lemma StandardMergeIdle(plain: string -> string, cues: seq<Cue>)
    requires forall k :: 0 <= k < |cues| - 1 ==>
      cues[k + 1].start - cues[k].end > 500
      || |Strip(plain(cues[k].text))| >= 20 || |Strip(plain(cues[k + 1].text))| >= 20
    ensures Merge(StandardRules(plain), cues) == cues
  {
    hide Merge, Strip;
    NormalUnchanged(StandardRules(plain), cues);
  }

  lemma {:induction false} NormalUnchanged(rules: Rules, cues: seq<Cue>)
    requires NothingMergeable(rules, cues)
    ensures Merge(rules, cues) == cues
  {
    if |cues| > 1 {
      assert !Mergeable(rules, cues[0], cues[0 + 1]);
      NormalUnchanged(rules, cues[1..]);
    }
  }

  // A second run changes nothing.
  lemma {:induction false} MergeIdempotent(rules: Rules, cues: seq<Cue>)
    ensures Merge(rules, Merge(rules, cues)) == Merge(rules, cues)
  {
    MergeNormal(rules, cues);
    NormalUnchanged(rules, Merge(rules, cues));
  }

  // The characters of a text that are not whitespace.
  function Ink(s: string): string {
    if s == [] then [] else if IsSpace(s[0]) then Ink(s[1..]) else [s[0]] + Ink(s[1..])
  }

  function InkOf(cues: seq<Cue>): string {
    if cues == [] then [] else Ink(cues[0].text) + InkOf(cues[1..])
  }

  lemma {:induction false} InkConcat(a: string, b: string)
    ensures Ink(a + b) == Ink(a) + Ink(b)
  {
    if a == [] {
      assert a + b == b;
    } else {
      assert (a + b)[1..] == a[1..] + b;
      InkConcat(a[1..], b);
      assert Ink(a + b) == if IsSpace(a[0]) then Ink(a[1..] + b) else [a[0]] + Ink(a[1..] + b);
    }
  }

  lemma {:induction false} InkOfSpace(s: string)
    requires AllSpace(s)
    ensures Ink(s) == []
  {
    if s == [] {
    } else {
      InkOfSpace(s[1..]);
    }
  }

  lemma {:induction false} InkWithSpace(a: string, b: string)
    ensures AllSpace(a) ==> Ink(a + b) == Ink(b)
    ensures AllSpace(b) ==> Ink(a + b) == Ink(a)
  {
    InkConcat(a, b);
    if AllSpace(a) {
      InkOfSpace(a);
    }
    if AllSpace(b) {
      InkOfSpace(b);
    }
  }

  lemma {:induction false} InkRStrip(s: string)
    ensures Ink(RStrip(s)) == Ink(s)
  {
    var n := |s| - 1;
    if s != [] && IsSpace(s[n]) {
      InkRStrip(s[..n]);
      InkWithSpace(s[..n], [s[n]]);
      assert s == s[..n] + [s[n]];
    }
  }

  lemma {:induction false} InkLStrip(s: string)
    ensures Ink(LStrip(s)) == Ink(s)
  {
    if s != [] && IsSpace(s[0]) {
      InkLStrip(s[1..]);
    }
  }

  lemma {:induction false} InkJoin(left: string, right: string)
    ensures Ink(left + "\n" + right) == Ink(left) + Ink(right)
  {
    InkConcat(left + "\n", right);
    InkWithSpace(left, "\n");
  }

  // Joining two texts keeps their visible characters in order.
  ghost predicate KeepsInk(rules: Rules) {
    forall a: string, b: string :: Ink(rules.join(a, b)) == Ink(a) + Ink(b)
  }

  lemma {:induction false} StandardKeepsInk(plain: string -> string)
    ensures KeepsInk(StandardRules(plain))
  {
    forall a: string, b: string
      ensures Ink(StandardRules(plain).join(a, b)) == Ink(a) + Ink(b)
    {
      InkJoin(RStrip(a), LStrip(b));
      InkRStrip(a);
      InkLStrip(b);
    }
  }

  // Output event k stands for the input events cuts[k] .. cuts[k + 1] - 1.
  ghost predicate Covers(cues: seq<Cue>, merged: seq<Cue>, cuts: seq<nat>) {
    && |cuts| == |merged| + 1 && cuts[0] == 0 && cuts[|merged|] == |cues|
    && forall k :: 0 <= k < |merged| ==> CoversAt(cues, merged[k], cuts[k], cuts[k + 1])
  }

  ghost predicate CoversAt(cues: seq<Cue>, cue: Cue, from: nat, to: nat) {
    && from < to <= |cues|
    && cue.start == cues[from].start && cue.end == cues[to - 1].end
    && cue.style == cues[from].style && cue.layer == cues[from].layer && cue.isComment == cues[from].isComment
    && Ink(cue.text) == InkOf(cues[from..to])
  }

  // Cut positions once the first two events are no longer one.
  function Shifted(cuts: seq<nat>, first: nat): (r: seq<nat>)
    ensures |r| == |cuts|
  {
    seq(|cuts|, k requires 0 <= k < |cuts| => if k == 0 then first else cuts[k] + 1)
  }

  // m stands for the two events a and b.
  predicate Joins(m: Cue, a: Cue, b: Cue) {
    && m.start == a.start && m.end == b.end
    && m.style == a.style && m.layer == a.layer && m.isComment == a.isComment
    && Ink(m.text) == Ink(a.text) + Ink(b.text)
  }

  lemma {:induction false} InkOfPair(m: Cue, a: Cue, b: Cue, rest: seq<Cue>)
    requires Joins(m, a, b)
    ensures InkOf([m] + rest) == InkOf([a, b] + rest)
  {
    assert ([m] + rest)[1..] == rest;
    assert ([a, b] + rest)[1..] == [b] + rest;
    assert ([b] + rest)[1..] == rest;
    assert InkOf([a, b] + rest) == Ink(a.text) + InkOf([b] + rest);
  }

  lemma SliceFirst(first: seq<Cue>, rest: seq<Cue>, to: nat)
    requires |first| <= to <= |first| + |rest|
    ensures (first + rest)[0..to] == first + rest[..to - |first|]
  {
  }

  lemma SliceRest(first: seq<Cue>, rest: seq<Cue>, from: nat, to: nat)
    requires |first| <= from <= to <= |first| + |rest|
    ensures (first + rest)[from..to] == rest[from - |first|..to - |first|]
  {
  }

  lemma {:induction false} CoverMergedPair(m: Cue, a: Cue, b: Cue, rest: seq<Cue>, cue: Cue, from: nat, to: nat)
    requires Joins(m, a, b) && CoversAt([m] + rest, cue, from, to)
    ensures CoversAt([a, b] + rest, cue, if from == 0 then 0 else from + 1, to + 1)
  {
    if from == 0 {
      SliceFirst([m], rest, to);
      SliceFirst([a, b], rest, to + 1);
      InkOfPair(m, a, b, rest[..to - 1]);
    } else {
      SliceRest([m], rest, from, to);
      SliceRest([a, b], rest, from + 1, to + 1);
    }
  }

  lemma {:induction false} CoverTail(cues: seq<Cue>, cue: Cue, from: nat, to: nat)
    requires cues != [] && CoversAt(cues[1..], cue, from, to)
    ensures CoversAt(cues, cue, from + 1, to + 1)
  {
    assert cues[1..][from..to] == cues[from + 1..to + 1];
  }

  lemma {:induction false} CoverSelf(cues: seq<Cue>)
    requires cues != []
    ensures CoversAt(cues, cues[0], 0, 1)
  {
    assert cues[0..1] == [cues[0]];
    assert InkOf([cues[0]]) == Ink(cues[0].text) + InkOf([]);
  }

  // The output partitions the input into contiguous runs: each event starts with the first and ends with
  // the last of its run, and no visible character is lost, added or moved.
  lemma {:induction false} MergeCovers(rules: Rules, cues: seq<Cue>) returns (cuts: seq<nat>)
    requires KeepsInk(rules)
    ensures Covers(cues, Merge(rules, cues), cuts)
    decreases |cues|
  {
    var merged := Merge(rules, cues);
    if |cues| <= 1 {
      cuts := if cues == [] then [0] else [0, 1];
      if cues != [] {
        CoverSelf(cues);
      }
    } else {
      var joined, m := MergeStep(rules, cues);
      if joined {
        var a, b, rest := cues[0], cues[1], cues[2..];
        var inner := MergeCovers(rules, [m] + rest);
        CoverJoined(m, a, b, rest, merged, inner);
        cuts := Shifted(inner, 0);
        TwoAndRest(cues);
      } else {
        var inner := MergeCovers(rules, cues[1..]);
        CoverSplit(cues, Merge(rules, cues[1..]), inner);
        cuts := [0] + Shifted(inner, 1);
      }
    }
  }

  lemma TwoAndRest(cues: seq<Cue>)
    requires |cues| > 1
    ensures cues == [cues[0], cues[1]] + cues[2..]
  {
  }

  lemma {:induction false} MergeStep(rules: Rules, cues: seq<Cue>) returns (joined: bool, m: Cue)
    requires |cues| > 1 && KeepsInk(rules)
    ensures joined ==> Joins(m, cues[0], cues[1]) && Merge(rules, cues) == Merge(rules, [m] + cues[2..])
    ensures !joined ==> Merge(rules, cues) == [cues[0]] + Merge(rules, cues[1..])
  {
    joined, m := Mergeable(rules, cues[0], cues[1]), Merged(rules, cues[0], cues[1]);
  }

  lemma {:induction false} CoverJoined(m: Cue, a: Cue, b: Cue, rest: seq<Cue>, merged: seq<Cue>, inner: seq<nat>)
    requires Joins(m, a, b) && Covers([m] + rest, merged, inner) && merged != []
    ensures Covers([a, b] + rest, merged, Shifted(inner, 0))
  {
    var cuts := Shifted(inner, 0);
    forall k | 0 <= k < |merged|
      ensures CoversAt([a, b] + rest, merged[k], cuts[k], cuts[k + 1])
    {
      CoverFirst([m] + rest, merged, inner, k);
      CoverMergedPair(m, a, b, rest, merged[k], inner[k], inner[k + 1]);
    }
  }

  lemma {:induction false} CoverSplit(cues: seq<Cue>, rest: seq<Cue>, inner: seq<nat>)
    requires cues != [] && Covers(cues[1..], rest, inner)
    ensures Covers(cues, [cues[0]] + rest, [0] + Shifted(inner, 1))
  {
    var cuts, merged := [0] + Shifted(inner, 1), [cues[0]] + rest;
    forall k | 0 <= k < |merged|
      ensures CoversAt(cues, merged[k], cuts[k], cuts[k + 1])
    {
      if k == 0 {
        CoverSelf(cues);
      } else {
        CoverFirst(cues[1..], rest, inner, k - 1);
        CoverTail(cues, rest[k - 1], inner[k - 1], inner[k]);
      }
    }
  }

  // Only the first run starts at 0.
  lemma {:induction false} CoverFirst(cues: seq<Cue>, merged: seq<Cue>, cuts: seq<nat>, k: nat)
    requires Covers(cues, merged, cuts) && k < |merged|
    ensures CoversAt(cues, merged[k], cuts[k], cuts[k + 1])
    ensures cuts[k] == 0 <==> k == 0
  {
    if k > 0 {
      assert CoversAt(cues, merged[k - 1], cuts[k - 1], cuts[k - 1 + 1]);
    }
  }

  // ---- the log of the merges -------------------------------------------------------------------

  // One entry per merge, numbered by the position the merged event has at that moment.
  function MergeLog(rules: Rules, cues: seq<Cue>, i: nat): seq<Change>
    decreases |cues|
  {
    if |cues| <= 1 then []
    else if Mergeable(rules, cues[0], cues[1]) then
      var m := Merged(rules, cues[0], cues[1]);
      [Change(i, TimesOf(cues[0]), rules.shown(cues[0].text), m.text)] + MergeLog(rules, [m] + cues[2..], i)
    else MergeLog(rules, cues[1..], i + 1)
  }

  // The log accounts for every event that disappeared, and positions never go backwards.
  lemma {:induction false} MergeLogCounts(rules: Rules, cues: seq<Cue>, i: nat)
    ensures |MergeLog(rules, cues, i)| + |Merge(rules, cues)| == |cues|
    ensures forall k :: 0 <= k < |MergeLog(rules, cues, i)| ==>
      i <= MergeLog(rules, cues, i)[k].index < i + |Merge(rules, cues)|
    decreases |cues|
  {
    hide TimesOf;
    if |cues| > 1 {
      if Mergeable(rules, cues[0], cues[1]) {
        MergeLogCounts(rules, [Merged(rules, cues[0], cues[1])] + cues[2..], i);
      } else {
        MergeLogCounts(rules, cues[1..], i + 1);
      }
    }
  }

  // ---- trimming overlaps and stretching short displays -----------------------------------------

  predicate Overlaps(cues: seq<Cue>, i: nat) {
    i + 1 < |cues| && cues[i].end > cues[i + 1].start
  }

  function TrimmedAgainst(a: Cue, b: Cue): Cue {
    if a.end > b.start then a.(end := b.start - 1) else a
  }

  function OverlapFixed(cues: seq<Cue>): (r: seq<Cue>)
    ensures |r| == |cues|
  {
    seq(|cues|, i requires 0 <= i < |cues| =>
      if i + 1 < |cues| then TrimmedAgainst(cues[i], cues[i + 1]) else cues[i])
  }

  function StretchedCue(a: Cue, minMs: int): Cue {
    if a.end - a.start < minMs then a.(end := a.start + minMs) else a
  }

  function Stretched(cues: seq<Cue>, minMs: int): (r: seq<Cue>)
    ensures |r| == |cues|
  {
    seq(|cues|, i requires 0 <= i < |cues| => StretchedCue(cues[i], minMs))
  }

  // One entry for every overlap among the first n events.
  function OverlapLog(cues: seq<Cue>, n: nat): seq<Change>
    requires n <= |cues|
  {
    if n == 0 then []
    else if Overlaps(cues, n - 1) then OverlapLog(cues, n - 1) + [OverlapChange(cues[n - 1], cues[n], n - 1)]
    else OverlapLog(cues, n - 1)
  }

  function OverlapChange(a: Cue, b: Cue, i: nat): Change {
    Change(i, TimesOf(a), Quantity("end", a.end), Quantity("end", b.start - 1))
  }

  // One entry for every short display among the first n events.
  function StretchLog(cues: seq<Cue>, minMs: int, n: nat): seq<Change>
    requires n <= |cues|
  {
    if n == 0 then []
    else
      var a := cues[n - 1];
      if a.end - a.start < minMs then StretchLog(cues, minMs, n - 1) + [StretchChange(a, minMs, n - 1)]
      else StretchLog(cues, minMs, n - 1)
  }

  function StretchChange(a: Cue, minMs: int, i: nat): Change {
    Change(i, TimesOf(a), Quantity("duration", a.end - a.start), Quantity("duration", minMs))
  }

  // Trimming leaves no overlap, and inverts an event exactly when the next one does not start after it.
  lemma OverlapFixExact(cues: seq<Cue>, i: nat)
    requires i < |cues|
    ensures !Overlaps(OverlapFixed(cues), i)
    ensures OverlapFixed(cues)[i].end < OverlapFixed(cues)[i].start <==>
      if Overlaps(cues, i) then cues[i + 1].start <= cues[i].start else cues[i].end < cues[i].start
  {
    var fixed := OverlapFixed(cues);
    if i + 1 < |cues| {
      assert fixed[i + 1].start == cues[i + 1].start;
    }
  }

  predicate SortedByStart(cues: seq<Cue>) {
    forall i, j :: 0 <= i < j < |cues| ==> cues[i].start <= cues[j].start
  }

  // For events in order of their start, neighbours are all that matters: afterwards no event reaches into any
  // later one.
  lemma NoOverlapAnywhere(cues: seq<Cue>, i: nat, j: nat)
    requires SortedByStart(cues) && i < j < |cues|
    ensures OverlapFixed(cues)[i].end <= OverlapFixed(cues)[j].start
  {
    OverlapFixExact(cues, i);
    assert cues[i + 1].start <= cues[j].start;
  }

  // Stretching after trimming reopens an overlap exactly when the minimum time from the start of an event
  // reaches into the next one.
  lemma StretchReopens(cues: seq<Cue>, minMs: int, i: nat)
    requires i + 1 < |cues|
    ensures Overlaps(Stretched(OverlapFixed(cues), minMs), i) <==> cues[i].start + minMs > cues[i + 1].start
  {
    var fixed := OverlapFixed(cues);
    OverlapFixExact(cues, i);
    assert Stretched(fixed, minMs)[i + 1].start == fixed[i + 1].start == cues[i + 1].start;
  }

  // An entry with the times of the event and what it says before and after.
  predicate Tells(e: Change, a: Cue, before: string, after: string) {
    && e.timestamp == MsToStr(a.start) + (" --> " + MsToStr(a.end))
    && e.original == before + "ms" && e.modified == after + "ms"
  }

  // One entry for each of the first n events that changed, in order.
  ghost predicate LogsChanges(log: seq<Change>, cues: seq<Cue>, fixed: seq<Cue>, n: nat)
    requires n <= |cues| == |fixed|
  {
    && (forall e :: e in log ==> e.index < n && fixed[e.index] != cues[e.index])
    && (forall i: nat :: i < n && fixed[i] != cues[i] ==> exists e :: e in log && e.index == i)
    && (forall k, l :: 0 <= k < l < |log| ==> log[k].index < log[l].index)
  }

  lemma NothingLogged(cues: seq<Cue>, fixed: seq<Cue>)
    requires |fixed| == |cues|
    ensures LogsChanges([], cues, fixed, 0)
  {
  }

  lemma LogGrows(log: seq<Change>, cues: seq<Cue>, fixed: seq<Cue>, n: nat, e: Change)
    requires n < |cues| == |fixed| && LogsChanges(log, cues, fixed, n) && e.index == n && fixed[n] != cues[n]
    ensures LogsChanges(log + [e], cues, fixed, n + 1)
  {
    var more := log + [e];
    assert e in more && forall x :: x in more <==> x in log || x == e;
    forall k | 0 <= k < |log|
      ensures more[k].index < n
    {
      assert more[k] in log;
    }
  }

  lemma LogStays(log: seq<Change>, cues: seq<Cue>, fixed: seq<Cue>, n: nat)
    requires n < |cues| == |fixed| && LogsChanges(log, cues, fixed, n) && fixed[n] == cues[n]
    ensures LogsChanges(log, cues, fixed, n + 1)
  {
  }

  predicate TellsEnd(cues: seq<Cue>, e: Change) {
    e.index < |cues| && Tells(e, cues[e.index], "end=" + Padded(cues[e.index].end, 0),
      "end=" + Padded(OverlapFixed(cues)[e.index].end, 0))
  }

  predicate AllTellEnds(cues: seq<Cue>, log: seq<Change>) {
    forall e :: e in log ==> TellsEnd(cues, e)
  }

  lemma NobodyTellsEnd(cues: seq<Cue>)
    ensures AllTellEnds(cues, [])
  {
  }

  lemma OneMoreTellsEnd(cues: seq<Cue>, log: seq<Change>, e: Change)
    requires AllTellEnds(cues, log) && TellsEnd(cues, e)
    ensures AllTellEnds(cues, log + [e])
  {
    hide TellsEnd;
  }

  // What the overlap pass logs: one entry for each event it changes, in order, with the end it had and the end it
  // gets.
  lemma {:induction false} OverlapLogTells(cues: seq<Cue>, n: nat)
    requires n <= |cues|
    ensures LogsChanges(OverlapLog(cues, n), cues, OverlapFixed(cues), n)
    ensures AllTellEnds(cues, OverlapLog(cues, n))
  {
    hide LogsChanges, OverlapChange, TellsEnd, AllTellEnds, OverlapFixed, Overlaps;
    if n == 0 {
      NothingLogged(cues, OverlapFixed(cues));
      NobodyTellsEnd(cues);
    } else {
      OverlapLogTells(cues, n - 1);
      OverlapEntry(cues, n - 1);
      if Overlaps(cues, n - 1) {
        var e := OverlapChange(cues[n - 1], cues[n], n - 1);
        LogGrows(OverlapLog(cues, n - 1), cues, OverlapFixed(cues), n - 1, e);
        OneMoreTellsEnd(cues, OverlapLog(cues, n - 1), e);
      } else {
        LogStays(OverlapLog(cues, n - 1), cues, OverlapFixed(cues), n - 1);
      }
    }
  }

  lemma OverlapEntry(cues: seq<Cue>, i: nat)
    requires i < |cues|
    ensures Overlaps(cues, i) <==> OverlapFixed(cues)[i] != cues[i]
    ensures Overlaps(cues, i) ==>
      i + 1 < |cues| && var e := OverlapChange(cues[i], cues[i + 1], i); e.index == i && TellsEnd(cues, e)
  {
    hide MsToStr, Padded;
    assert "end" + "=" == "end=";
  }

  predicate TellsDuration(cues: seq<Cue>, minMs: int, e: Change) {
    e.index < |cues| &&
    var a, b := cues[e.index], Stretched(cues, minMs)[e.index];
    Tells(e, a, "duration=" + Padded(a.end - a.start, 0), "duration=" + Padded(b.end - b.start, 0))
  }

  predicate AllTellDurations(cues: seq<Cue>, minMs: int, log: seq<Change>) {
    forall e :: e in log ==> TellsDuration(cues, minMs, e)
  }

  lemma NobodyTellsDuration(cues: seq<Cue>, minMs: int)
    ensures AllTellDurations(cues, minMs, [])
  {
  }

  lemma OneMoreTellsDuration(cues: seq<Cue>, minMs: int, log: seq<Change>, e: Change)
    requires AllTellDurations(cues, minMs, log) && TellsDuration(cues, minMs, e)
    ensures AllTellDurations(cues, minMs, log + [e])
  {
    hide TellsDuration;
  }

  // The same for the display times.
  lemma {:induction false} StretchLogTells(cues: seq<Cue>, minMs: int, n: nat)
    requires n <= |cues|
    ensures LogsChanges(StretchLog(cues, minMs, n), cues, Stretched(cues, minMs), n)
    ensures AllTellDurations(cues, minMs, StretchLog(cues, minMs, n))
  {
    hide LogsChanges, StretchChange, TellsDuration, AllTellDurations, Stretched, StretchLog;
    if n == 0 {
      NoStretchLogged(cues, minMs);
      NothingLogged(cues, Stretched(cues, minMs));
      NobodyTellsDuration(cues, minMs);
    } else {
      var a := cues[n - 1];
      StretchLogTells(cues, minMs, n - 1);
      StretchEntry(cues, minMs, n - 1);
      StretchLogNext(cues, minMs, n);
      if a.end - a.start < minMs {
        var e := StretchChange(a, minMs, n - 1);
        LogGrows(StretchLog(cues, minMs, n - 1), cues, Stretched(cues, minMs), n - 1, e);
        OneMoreTellsDuration(cues, minMs, StretchLog(cues, minMs, n - 1), e);
      } else {
        LogStays(StretchLog(cues, minMs, n - 1), cues, Stretched(cues, minMs), n - 1);
      }
    }
  }

  lemma NoStretchLogged(cues: seq<Cue>, minMs: int)
    ensures StretchLog(cues, minMs, 0) == []
  {
  }

  lemma StretchLogNext(cues: seq<Cue>, minMs: int, n: nat)
    requires 0 < n <= |cues|
    ensures var a, log := cues[n - 1], StretchLog(cues, minMs, n - 1);
      StretchLog(cues, minMs, n)
        == if a.end - a.start < minMs then log + [StretchChange(a, minMs, n - 1)] else log
  {
  }

  lemma StretchEntry(cues: seq<Cue>, minMs: int, i: nat)
    requires i < |cues|
    ensures cues[i].end - cues[i].start < minMs <==> Stretched(cues, minMs)[i] != cues[i]
    ensures cues[i].end - cues[i].start < minMs ==>
      var e := StretchChange(cues[i], minMs, i); e.index == i && TellsDuration(cues, minMs, e)
  {
    hide MsToStr, Padded;
    assert "duration" + "=" == "duration=";
  }

  lemma StretchLongEnough(cues: seq<Cue>, minMs: int, i: nat)
    requires i < |cues|
    ensures Stretched(cues, minMs)[i].end - Stretched(cues, minMs)[i].start >= minMs
    ensures Stretched(Stretched(cues, minMs), minMs) == Stretched(cues, minMs)
  {
  }
}

/** The passes themselves, working on the event list in place. */
module CommonFixes {
  import opened ChangeLog
  import opened IndexDeletion
  import opened Subtitles
  import opened FixSpec

  // ---- merging ---------------------------------------------------------------------------------

  // The loop has dealt with the first i events; merging the others completes the job.
  ghost predicate Merging(rules: Rules, before: seq<Cue>, current: seq<Cue>, i: nat, changes: seq<Change>) {
    && (i < |current| || (i == 0 && current == []))
    && current[..i] + Merge(rules, current[i..]) == Merge(rules, before)
    && changes + MergeLog(rules, current[i..], i) == MergeLog(rules, before, 0)
  }

  lemma {:induction false} MergingStarts(rules: Rules, before: seq<Cue>)
    ensures Merging(rules, before, before, 0, [])
  {
    assert before[0..] == before && before[..0] == [];
  }

  lemma {:induction false} MergingEnds(rules: Rules, before: seq<Cue>, current: seq<Cue>, i: nat, changes: seq<Change>)
    requires Merging(rules, before, current, i, changes) && i + 1 >= |current|
    ensures current == Merge(rules, before) && changes == MergeLog(rules, before, 0)
  {
    hide TimesOf;
    assert current[..i] + current[i..] == current;
    assert Merge(rules, current[i..]) == current[i..];
  }

  lemma {:induction false} MergingSkips(rules: Rules, before: seq<Cue>, current: seq<Cue>, i: nat,
      changes: seq<Change>)
    requires Merging(rules, before, current, i, changes) && i + 1 < |current|
    requires !Mergeable(rules, current[i], current[i + 1])
    ensures Merging(rules, before, current, i + 1, changes)
  {
    hide TimesOf;
    var rest := current[i..];
    assert rest[0] == current[i] && rest[1] == current[i + 1] && rest[1..] == current[i + 1..];
    assert current[..i + 1] == current[..i] + [current[i]];
    assert Merge(rules, rest) == [current[i]] + Merge(rules, current[i + 1..]);
  }

  function Joined(rules: Rules, cues: seq<Cue>, i: nat): (r: seq<Cue>)
    requires i + 1 < |cues|
    ensures |r| == |cues| - 1
  {
    cues[..i] + [Merged(rules, cues[i], cues[i + 1])] + cues[i + 2..]
  }

  function JoinChange(rules: Rules, a: Cue, b: Cue, i: nat): Change {
    Change(i, TimesOf(a), rules.shown(a.text), rules.join(a.text, b.text))
  }

  lemma {:induction false} MergingJoins(rules: Rules, before: seq<Cue>, current: seq<Cue>, i: nat,
      changes: seq<Change>)
    requires Merging(rules, before, current, i, changes) && i + 1 < |current|
    requires Mergeable(rules, current[i], current[i + 1])
    ensures Merging(rules, before, Joined(rules, current, i), i,
      changes + [JoinChange(rules, current[i], current[i + 1], i)])
  {
    hide TimesOf;
    var rest, next := current[i..], Joined(rules, current, i);
    var change := JoinChange(rules, current[i], current[i + 1], i);
    assert rest[0] == current[i] && rest[1] == current[i + 1] && rest[2..] == current[i + 2..];
    assert next[..i] == current[..i];
    assert next[i..] == [Merged(rules, current[i], current[i + 1])] + current[i + 2..];
    assert MergeLog(rules, rest, i) == [change] + MergeLog(rules, next[i..], i);
    assert changes + ([change] + MergeLog(rules, next[i..], i)) == (changes + [change]) + MergeLog(rules, next[i..], i);
  }

  lemma JoinedDrops(rules: Rules, before: seq<Cue>, joined: seq<Cue>, i: nat)
    requires i + 1 < |before|
    requires var a, b := before[i], before[i + 1];
      joined == before[i := a.(text := rules.join(a.text, b.text), end := b.end)]
    ensures DropAt(joined, i + 1) == Joined(rules, before, i)
  {
  }

  method JoinEvents(file: SubFile, rules: Rules, i: nat)
    requires file.Valid() && i + 1 < |file.events|
    modifies file`events, file.events[i]
    ensures file.Valid() && file.events == DropAt(old(file.events), i + 1)
    ensures file.Cues() == Joined(rules, old(file.Cues()), i)
  {
    var a, b := file.events[i], file.events[i + 1];
    var text, start, end := rules.join(a.text, b.text), a.start, b.end;
    ghost var before := file.Cues();
    file.SetText(i, text);
    file.SetTimes(i, start, end);
    JoinedDrops(rules, before, file.Cues(), i);
    hide Joined, DropAt;
    file.Delete(i + 1);
  }

  method MergeOrSkip(file: SubFile, rules: Rules, i: nat) returns (merged: bool, change: Change)
    requires file.Valid() && i + 1 < |file.events|
    modifies file`events, file.events[i]
    ensures file.Valid() && |file.events| <= |old(file.events)| && (merged ==> |file.events| < |old(file.events)|)
    ensures forall k :: 0 <= k < |file.events| ==> file.events[k] in old(file.events)
    ensures merged <==> Mergeable(rules, old(file.Cues()[i]), old(file.Cues()[i + 1]))
    ensures change == JoinChange(rules, old(file.Cues()[i]), old(file.Cues()[i + 1]), i)
    ensures file.Cues() == if merged then Joined(rules, old(file.Cues()), i) else old(file.Cues())
  {
    hide TimesOf;
    var a, b := file.events[i], file.events[i + 1];
    var gap := b.start - a.end;
    change := Change(i, TimesOf(a.AsCue()), rules.shown(a.text), rules.join(a.text, b.text));
    merged := gap <= 500 && rules.short(a.text) && rules.short(b.text);
    if merged {
      JoinEvents(file, rules, i);
    }
  }

  method MergeWith(file: SubFile, rules: Rules) returns (changes: seq<Change>)
    requires file.Valid()
    modifies file, file.events
    ensures file.Valid()
    ensures file.Cues() == Merge(rules, old(file.Cues()))
    ensures changes == MergeLog(rules, old(file.Cues()), 0)
  {
    hide TimesOf;
    changes := [];
    ghost var before := file.Cues();
    MergingStarts(rules, before);
    var i := 0;
    while i + 1 < |file.events|
      invariant file.Valid() && forall k :: 0 <= k < |file.events| ==> file.events[k] in old(file.events)
      invariant Merging(rules, before, file.Cues(), i, changes)
      decreases |file.events| - i
    {
      ghost var cues, events := file.Cues(), file.events;
      var merged, change := MergeOrSkip(file, rules, i);
      MembersOf(file.events, events, old(file.events));
      if merged {
        MergingJoins(rules, before, cues, i, changes);
        changes := changes + [change];
      } else {
        MergingSkips(rules, before, cues, i, changes);
        i := i + 1;
      }
    }
    MergingEnds(rules, before, file.Cues(), i, changes);
  }

  method MergeShortLines(file: SubFile) returns (changes: seq<Change>)
    requires file.Valid()
    modifies file, file.events
    ensures file.Valid()
    ensures file.Cues() == Merge(StandardRules(file.plain), old(file.Cues()))
    ensures changes == MergeLog(StandardRules(file.plain), old(file.Cues()), 0)
  {
    changes := MergeWith(file, StandardRules(file.plain));
  }

  // ---- rewriting ends --------------------------------------------------------------------------

  // A pass that rewrites ends, after k events.
  ghost predicate PassedOver(before: seq<Cue>, after: seq<Cue>, current: seq<Cue>, k: nat) {
    && |before| == |after| == |current| && k <= |before|
    && (forall i :: 0 <= i < k ==> current[i] == after[i])
    && (forall i :: k <= i < |before| ==> current[i] == before[i])
  }

  lemma PassStep(before: seq<Cue>, after: seq<Cue>, current: seq<Cue>, k: nat)
    requires PassedOver(before, after, current, k) && k < |before|
    ensures PassedOver(before, after, current[k := after[k]], k + 1)
    ensures current[k] == before[k] && (k + 1 < |before| ==> current[k + 1] == before[k + 1])
  {
  }

  lemma PassDone(before: seq<Cue>, after: seq<Cue>, current: seq<Cue>, k: nat)
    requires PassedOver(before, after, current, k) && forall i :: k <= i < |before| ==> after[i] == before[i]
    ensures current == after
  {
  }

  method TrimOverlap(file: SubFile, i: nat, changes: seq<Change>) returns (logged: seq<Change>)
    requires file.Valid() && i + 1 < |file.events|
    modifies file.events[i]
    ensures file.Valid() && file.events == old(file.events)
    ensures file.Cues()
      == old(file.Cues())[i := TrimmedAgainst(old(file.Cues()[i]), old(file.Cues()[i + 1]))]
    ensures logged == if old(Overlaps(file.Cues(), i))
      then changes + [OverlapChange(old(file.Cues()[i]), old(file.Cues()[i + 1]), i)] else changes
  {
    hide OverlapChange;
    var a, b := file.events[i], file.events[i + 1];
    logged := changes;
    if a.end > b.start {
      logged := changes + [OverlapChange(a.AsCue(), b.AsCue(), i)];
      file.SetTimes(i, a.start, b.start - 1);
    }
  }

  // The next overlap is logged as it was found.
  lemma OverlapLogStep(before: seq<Cue>, current: seq<Cue>, i: nat)
    requires i + 1 < |before| == |current| && current[i] == before[i] && current[i + 1] == before[i + 1]
    ensures Overlaps(current, i) == Overlaps(before, i)
    ensures OverlapLog(before, i + 1) == if Overlaps(current, i)
      then OverlapLog(before, i) + [OverlapChange(current[i], current[i + 1], i)] else OverlapLog(before, i)
  {
  }

  lemma LastOverlapsNothing(cues: seq<Cue>, i: nat)
    requires i <= |cues| <= i + 1
    ensures OverlapLog(cues, |cues|) == OverlapLog(cues, i)
  {
  }

  method FixOverlaps(file: SubFile) returns (changes: seq<Change>)
    requires file.Valid()
    modifies file.events
    ensures file.Valid() && file.events == old(file.events)
    ensures file.Cues() == OverlapFixed(old(file.Cues()))
    ensures changes == OverlapLog(old(file.Cues()), |file.events|)
  {
    hide OverlapLog, Overlaps, OverlapChange, TrimmedAgainst, OverlapFixed, PassedOver;
    ghost var before := file.Cues();
    ghost var after := OverlapFixed(before);
    var last := if |file.events| == 0 then 0 else |file.events| - 1;
    changes := [];
    OverlapsStart(before);
    for i := 0 to last
      invariant file.Valid() && file.events == old(file.events)
      invariant PassedOver(before, after, file.Cues(), i)
      invariant changes == OverlapLog(before, i)
    {
      OverlapsStep(before, file.Cues(), i);
      changes := TrimOverlap(file, i, changes);
    }
    OverlapsEnd(before, file.Cues(), last);
  }

  lemma OverlapsStart(before: seq<Cue>)
    ensures PassedOver(before, OverlapFixed(before), before, 0) && OverlapLog(before, 0) == []
  {
  }

  lemma OverlapsStep(before: seq<Cue>, current: seq<Cue>, i: nat)
    requires PassedOver(before, OverlapFixed(before), current, i) && i + 1 < |before|
    ensures i + 1 < |current|
    ensures PassedOver(before, OverlapFixed(before), current[i := TrimmedAgainst(current[i], current[i + 1])], i + 1)
    ensures OverlapLog(before, i + 1) == if Overlaps(current, i)
      then OverlapLog(before, i) + [OverlapChange(current[i], current[i + 1], i)] else OverlapLog(before, i)
  {
    hide OverlapChange;
    PassStep(before, OverlapFixed(before), current, i);
    assert OverlapFixed(before)[i] == TrimmedAgainst(current[i], current[i + 1]);
    OverlapLogStep(before, current, i);
  }

  lemma OverlapsEnd(before: seq<Cue>, current: seq<Cue>, i: nat)
    requires PassedOver(before, OverlapFixed(before), current, i) && i <= |before| <= i + 1
    ensures current == OverlapFixed(before) && OverlapLog(before, |before|) == OverlapLog(before, i)
  {
    LastOverlapsNothing(before, i);
    PassDone(before, OverlapFixed(before), current, i);
  }

  method StretchDisplay(file: SubFile, i: nat, minMs: int, changes: seq<Change>) returns (logged: seq<Change>)
    requires file.Valid() && i < |file.events|
    modifies file.events[i]
    ensures file.Valid() && file.events == old(file.events)
    ensures file.Cues() == old(file.Cues())[i := StretchedCue(old(file.Cues()[i]), minMs)]
    ensures var a := old(file.Cues()[i]);
      logged == if a.end - a.start < minMs then changes + [StretchChange(a, minMs, i)] else changes
  {
    hide StretchChange;
    var a := file.events[i];
    var duration := a.end - a.start;
    logged := changes;
    if duration < minMs {
      logged := changes + [StretchChange(a.AsCue(), minMs, i)];
      file.SetTimes(i, a.start, a.start + minMs);
    }
  }

  method StretchShortDisplays(file: SubFile, minMs: int) returns (changes: seq<Change>)
    requires file.Valid()
    modifies file.events
    ensures file.Valid() && file.events == old(file.events)
    ensures file.Cues() == Stretched(old(file.Cues()), minMs)
    ensures changes == StretchLog(old(file.Cues()), minMs, |file.events|)
  {
    hide StretchChange, StretchedCue, StretchLog, Stretched, PassedOver;
    ghost var before := file.Cues();
    ghost var after := Stretched(before, minMs);
    changes := [];
    StretchesStart(before, minMs);
    for i := 0 to |file.events|
      invariant file.Valid() && file.events == old(file.events)
      invariant PassedOver(before, after, file.Cues(), i)
      invariant changes == StretchLog(before, minMs, i)
    {
      StretchesStep(before, file.Cues(), minMs, i);
      changes := StretchDisplay(file, i, minMs, changes);
    }
    StretchesEnd(before, file.Cues(), minMs);
  }

  lemma StretchesStart(before: seq<Cue>, minMs: int)
    ensures PassedOver(before, Stretched(before, minMs), before, 0) && StretchLog(before, minMs, 0) == []
  {
  }

  lemma StretchesStep(before: seq<Cue>, current: seq<Cue>, minMs: int, i: nat)
    requires PassedOver(before, Stretched(before, minMs), current, i) && i < |before|
    ensures i < |current|
    ensures PassedOver(before, Stretched(before, minMs), current[i := StretchedCue(current[i], minMs)], i + 1)
    ensures StretchLog(before, minMs, i + 1) == if current[i].end - current[i].start < minMs
      then StretchLog(before, minMs, i) + [StretchChange(current[i], minMs, i)] else StretchLog(before, minMs, i)
  {
    hide StretchChange;
    PassStep(before, Stretched(before, minMs), current, i);
    assert Stretched(before, minMs)[i] == StretchedCue(current[i], minMs);
  }

  lemma StretchesEnd(before: seq<Cue>, current: seq<Cue>, minMs: int)
    requires PassedOver(before, Stretched(before, minMs), current, |before|)
    ensures current == Stretched(before, minMs)
  {
    PassDone(before, Stretched(before, minMs), current, |before|);
  }
}

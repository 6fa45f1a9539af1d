/** Deleting positions from a list, as `for idx in reversed(to_remove): del events[idx]` does. */
module IndexDeletion {
  // The positions from lo to n - 1 that are not removed, in order.
  function Kept(lo: nat, n: nat, removed: set<nat>): (ids: seq<nat>)
    requires lo <= n
    ensures forall i :: 0 <= i < |ids| ==> lo <= ids[i] < n && ids[i] !in removed
    ensures forall i, j :: 0 <= i < j < |ids| ==> ids[i] < ids[j]
    decreases n - lo
  {
    if lo == n then [] else (if lo in removed then [] else [lo]) + Kept(lo + 1, n, removed)
  }

  function Pick<T>(s: seq<T>, ids: seq<nat>): (r: seq<T>)
    requires forall i :: 0 <= i < |ids| ==> ids[i] < |s|
    ensures |r| == |ids|
  {
    seq(|ids|, i requires 0 <= i < |ids| => s[ids[i]])
  }

  // s without the removed positions.
  function Without<T>(s: seq<T>, removed: set<nat>): seq<T> {
    Pick(s, Kept(0, |s|, removed))
  }

  function Span(lo: nat, hi: nat): (r: seq<nat>)
    requires lo <= hi
    ensures |r| == hi - lo && forall i :: 0 <= i < |r| ==> r[i] == lo + i
  {
    seq(hi - lo, i requires 0 <= i < hi - lo => lo + i)
  }

  function DropAt<T>(s: seq<T>, i: nat): seq<T>
    requires i < |s|
  {
    s[..i] + s[i + 1..]
  }

  lemma {:induction false} KeptRun(lo: nat, hi: nat, n: nat, removed: set<nat>)
    requires lo <= hi <= n && forall k :: lo <= k < hi ==> k !in removed
    ensures Kept(lo, n, removed) == Span(lo, hi) + Kept(hi, n, removed)
    decreases hi - lo
  {
    if lo < hi {
      KeptRun(lo + 1, hi, n, removed);
      assert Span(lo, hi) == [lo] + Span(lo + 1, hi);
    } else {
      assert Span(lo, hi) == [];
    }
  }

  // Every kept position occurs, at the index that counts the kept positions in front of it.
  lemma {:induction false} KeptFinds(lo: nat, k: nat, n: nat, removed: set<nat>)
    requires lo <= k < n && k !in removed
    ensures |Kept(lo, k, removed)| < |Kept(lo, n, removed)|
    ensures Kept(lo, n, removed)[|Kept(lo, k, removed)|] == k
    decreases k - lo
  {
    if lo < k {
      KeptFinds(lo + 1, k, n, removed);
    }
  }

  lemma {:induction false} KeptSplits(lo: nat, mid: nat, n: nat, removed: set<nat>)
    requires lo <= mid <= n
    ensures Kept(lo, n, removed) == Kept(lo, mid, removed) + Kept(mid, n, removed)
    decreases mid - lo
  {
    if lo < mid {
      KeptSplits(lo + 1, mid, n, removed);
    }
  }

  // As many positions are kept as there are, exactly when none is removed.
  lemma {:induction false} KeptShrinks(lo: nat, k: nat, removed: set<nat>)
    requires lo <= k
    ensures |Kept(lo, k, removed)| <= k - lo
    ensures |Kept(lo, k, removed)| == k - lo <==> forall j :: lo <= j < k ==> j !in removed
    decreases k - lo
  {
    if lo < k {
      KeptShrinks(lo + 1, k, removed);
    }
  }

  // Without any adjustment, the position of a surviving element still finds it in the shortened list exactly
  // when nothing in front of it was removed.
  lemma {:induction false} PositionStillRight<T>(s: seq<T>, k: nat, removed: set<nat>)
    requires k < |s| && k !in removed && forall i, j :: 0 <= i < j < |s| ==> s[i] != s[j]
    ensures var rest := Without(s, removed);
      (k < |rest| && rest[k] == s[k]) <==> forall j :: 0 <= j < k ==> j !in removed
  {
    var ids, at := Kept(0, |s|, removed), |Kept(0, k, removed)|;
    KeptFinds(0, k, |s|, removed);
    KeptShrinks(0, k, removed);
    if at < k < |ids| {
      assert ids[k] > ids[at];
    }
  }

  predicate Ascending(ids: seq<nat>, n: nat) {
    && (forall i :: 0 <= i < |ids| ==> ids[i] < n)
    && (forall i, j :: 0 <= i < j < |ids| ==> ids[i] < ids[j])
  }

  function Elements(ids: seq<nat>): (r: set<nat>)
    ensures forall k :: k in r <==> k in ids
  {
    set k | k in ids
  }

  // The positions still in the list once the removals at b and above are done.
  function Remaining(b: nat, n: nat, removed: set<nat>): (ids: seq<nat>)
    requires b <= n
    ensures forall i :: 0 <= i < |ids| ==> ids[i] < n
  {
    Span(0, b) + Kept(b, n, removed)
  }

  lemma {:induction false} RemoveNext(r: nat, b: nat, n: nat, removed: set<nat>)
    requires r < b <= n && r in removed && forall k :: r < k < b ==> k !in removed
    ensures r < |Remaining(b, n, removed)|
    ensures DropAt(Remaining(b, n, removed), r) == Remaining(r, n, removed)
  {
    KeptRun(r + 1, b, n, removed);
    assert Kept(r, n, removed) == Kept(r + 1, n, removed);
    hide Kept, Span, DropAt;
    SpanAround(r, b);
    DropMiddle(Span(0, r), r, Span(r + 1, b), Kept(b, n, removed));
  }

  lemma SpanAround(r: nat, b: nat)
    requires r < b
    ensures Span(0, b) == Span(0, r) + [r] + Span(r + 1, b)
  {
  }

  lemma DropMiddle<T>(a: seq<T>, x: T, b: seq<T>, c: seq<T>)
    ensures DropAt(a + [x] + b + c, |a|) == a + (b + c)
  {
    var all := a + [x] + b + c;
    assert all[..|a|] == a && all[|a| + 1..] == b + c;
  }

  // Once positions[i..] are deleted, everything from positions[i] on is final.
  function Bound(positions: seq<nat>, i: nat, n: nat): (b: nat)
    requires Ascending(positions, n) && i <= |positions|
    ensures b <= n
  {
    if i < |positions| then positions[i] else n
  }

  lemma {:induction false} RemoveStart<T>(s: seq<T>, removed: set<nat>)
    ensures Pick(s, Remaining(|s|, |s|, removed)) == s
  {
    KeptRun(|s|, |s|, |s|, removed);
  }

  lemma {:induction false} RemoveStep<T>(s: seq<T>, positions: seq<nat>, i: nat)
    requires Ascending(positions, |s|) && i < |positions|
    ensures var removed := Elements(positions);
      var before := Pick(s, Remaining(Bound(positions, i + 1, |s|), |s|, removed));
      positions[i] < |before|
      && DropAt(before, positions[i]) == Pick(s, Remaining(positions[i], |s|, removed))
  {
    var b := Bound(positions, i + 1, |s|);
    RemoveNext(positions[i], b, |s|, Elements(positions));
    PickDrop(s, Remaining(b, |s|, Elements(positions)), positions[i]);
  }

  lemma {:induction false} RemoveEnd(positions: seq<nat>, n: nat)
    requires Ascending(positions, n)
    ensures Remaining(Bound(positions, 0, n), n, Elements(positions)) == Kept(0, n, Elements(positions))
  {
    KeptRun(0, Bound(positions, 0, n), n, Elements(positions));
  }

  lemma MembersOf<T>(a: seq<T>, b: seq<T>, c: seq<T>)
    requires forall k :: 0 <= k < |a| ==> a[k] in b
    requires forall k :: 0 <= k < |b| ==> b[k] in c
    ensures forall k :: 0 <= k < |a| ==> a[k] in c
  {
  }

  lemma PickDrop<T>(s: seq<T>, ids: seq<nat>, i: nat)
    requires i < |ids| && forall k :: 0 <= k < |ids| ==> ids[k] < |s|
    ensures forall k :: 0 <= k < |DropAt(ids, i)| ==> DropAt(ids, i)[k] < |s|
    ensures DropAt(Pick(s, ids), i) == Pick(s, DropAt(ids, i))
  {
  }
}

/** Subtitle events and the event list that the fixers change in place. */
module Subtitles {
  import opened IndexDeletion
  import opened PyText

  // The state of one event.
  datatype Cue = Cue(start: int, end: int, text: string, style: string, layer: int, isComment: bool)

  // What the checks ask about the text of an event: nothing but whitespace, a line of more than 80
  // characters, or more than 80 characters without a line break.
  datatype TextFacts = TextFacts(empty: string -> bool, tooLong: string -> bool, unbroken: string -> bool)

  // plaintext: the text of an event without markup, as the subtitle library derives it.
  function FactsOf(plain: string -> string): TextFacts {
    TextFacts(
      text => IsBlank(plain(text)),
      text => exists line :: line in Split(plain(text), '\n') && |line| > 80,
      text => !Contains(text, "\\N") && |plain(text)| > 80)
  }

  class Event {
    var start: int
    var end: int
    var text: string
    var style: string
    const layer: int
    const isComment: bool

    constructor (cue: Cue)
      ensures AsCue() == cue
    {
      start, end, text, style := cue.start, cue.end, cue.text, cue.style;
      layer, isComment := cue.layer, cue.isComment;
    }

    function AsCue(): Cue
      reads this
    {
      Cue(start, end, text, style, layer, isComment)
    }
  }

  // The state of every listed event.
  function Snapshot(events: seq<Event>): (cues: seq<Cue>)
    reads events
    ensures |cues| == |events|
    ensures forall i :: 0 <= i < |events| ==> cues[i] == events[i].AsCue()
  {
    if events == [] then [] else [events[0].AsCue()] + Snapshot(events[1..])
  }

  class SubFile {
    var events: seq<Event>
    const styles: set<string>
    const plain: string -> string
    const texts: TextFacts

    constructor (events: seq<Event>, styles: set<string>, plain: string -> string)
      requires forall i, j :: 0 <= i < j < |events| ==> events[i] != events[j]
      ensures Valid() && this.events == events && this.styles == styles
      ensures this.plain == plain && this.texts == FactsOf(plain)
    {
      this.events, this.styles, this.plain, this.texts := events, styles, plain, FactsOf(plain);
    }

    // No event is listed twice.
    ghost predicate Valid()
      reads this
    {
      forall i, j :: 0 <= i < j < |events| ==> events[i] != events[j]
    }

    function Cues(): (cues: seq<Cue>)
      reads this, events
      ensures |cues| == |events|
      ensures forall i :: 0 <= i < |events| ==> cues[i] == events[i].AsCue()
    {
      Snapshot(events)
    }

    method SetTimes(i: nat, start: int, end: int)
      requires Valid() && i < |events|
      modifies events[i]
      ensures Valid()
      ensures Cues() == old(Cues())[i := old(Cues())[i].(start := start, end := end)]
    {
      var e := events[i];
      e.start, e.end := start, end;
    }

    method SetStyle(i: nat, style: string)
      requires Valid() && i < |events|
      modifies events[i]
      ensures Valid()
      ensures Cues() == old(Cues())[i := old(Cues())[i].(style := style)]
    {
      events[i].style := style;
    }

    method SetText(i: nat, text: string)
      requires Valid() && i < |events|
      modifies events[i]
      ensures Valid()
      ensures Cues() == old(Cues())[i := old(Cues())[i].(text := text)]
    {
      events[i].text := text;
    }

    method Delete(i: nat)
      requires Valid() && i < |events|
      modifies this`events
      ensures Valid()
      ensures events == DropAt(old(events), i)
      ensures Cues() == DropAt(old(Cues()), i)
    {
      events := events[..i] + events[i + 1..];
    }

    // Delete the listed positions from the last one to the first, so that earlier positions stay valid.
    method DeleteAll(positions: seq<nat>)
      requires Valid() && Ascending(positions, |events|)
      modifies this`events
      ensures Valid()
      ensures events == Without(old(events), Elements(positions))
      ensures Cues() == Without(old(Cues()), Elements(positions))
    {
      ghost var removed, n := Elements(positions), |events|;
      ghost var listed, cues := events, Cues();
      RemoveStart(listed, removed);
      RemoveStart(cues, removed);
      var i := |positions|;
      while i > 0
        invariant 0 <= i <= |positions| && Valid()
        invariant events == Pick(listed, Remaining(Bound(positions, i, n), n, removed))
        invariant Cues() == Pick(cues, Remaining(Bound(positions, i, n), n, removed))
      {
        i := i - 1;
        RemoveStep(listed, positions, i);
        RemoveStep(cues, positions, i);
        Delete(positions[i]);
      }
      RemoveEnd(positions, n);
    }
  }
}

/** The first pass over the events: texts are rewritten, and events with a watermark are deleted at the end. */
module TextFixSpec {
  import opened ChangeLog
  import opened IndexDeletion
  import opened SrtSpec
  import opened Subtitles

  // What the pass asks and does about texts: the text as shown, whether a shown text carries a watermark, and
  // all enabled rewritings one after the other.
  datatype TextRules = TextRules(shown: string -> string, watermark: string -> bool, rewrite: string -> string)

  predicate IsWatermark(rules: TextRules, cue: Cue) {
    !cue.isComment && rules.watermark(rules.shown(cue.text))
  }

  function RewrittenCue(rules: TextRules, cue: Cue): Cue {
    if cue.isComment || IsWatermark(rules, cue) then cue else cue.(text := rules.rewrite(cue.text))
  }

  function RewrittenAll(rules: TextRules, cues: seq<Cue>): (r: seq<Cue>)
    ensures |r| == |cues|
  {
    seq(|cues|, i requires 0 <= i < |cues| => RewrittenCue(rules, cues[i]))
  }

  // The positions of the watermarks among the first n events.
  function Watermarks(rules: TextRules, cues: seq<Cue>, n: nat): (ids: seq<nat>)
    requires n <= |cues|
  {
    if n == 0 then []
    else if IsWatermark(rules, cues[n - 1]) then Watermarks(rules, cues, n - 1) + [n - 1]
    else Watermarks(rules, cues, n - 1)
  }

  function RemovedBy(rules: TextRules, cues: seq<Cue>): set<nat> {
    Elements(Watermarks(rules, cues, |cues|))
  }

  // What is logged about one event, if anything: its removal, or its new text.
  function Logged(rules: TextRules, cue: Cue, i: nat): seq<Change> {
    var shown := rules.shown(cue.text);
    if cue.isComment then []
    else if rules.watermark(shown) then [Change(i, TimesOf(cue), shown, "")]
    else if rules.rewrite(cue.text) == cue.text then []
    else [Change(i, TimesOf(cue), shown, rules.shown(rules.rewrite(cue.text)))]
  }

  function TextLog(rules: TextRules, cues: seq<Cue>, n: nat): seq<Change>
    requires n <= |cues|
  {
    if n == 0 then [] else TextLog(rules, cues, n - 1) + Logged(rules, cues[n - 1], n - 1)
  }

  lemma {:induction false} WatermarksExact(rules: TextRules, cues: seq<Cue>, n: nat)
    requires n <= |cues|
    ensures Ascending(Watermarks(rules, cues, n), n)
    ensures forall i: nat :: i in Watermarks(rules, cues, n) <==> i < n && IsWatermark(rules, cues[i])
  {
    hide IsWatermark;
    if n == 0 {
    } else {
      WatermarksExact(rules, cues, n - 1);
    }
  }

  // Every entry of the log is about the event that stood at its index.
  lemma {:induction false} LogIsAbout(rules: TextRules, cues: seq<Cue>, n: nat, j: nat)
    requires n <= |cues| && j < |TextLog(rules, cues, n)|
    ensures var entry := TextLog(rules, cues, n)[j];
      entry.index < n && [entry] == Logged(rules, cues[entry.index], entry.index)
  {
    hide Logged;
    if j < |TextLog(rules, cues, n - 1)| {
      LogIsAbout(rules, cues, n - 1, j);
    } else {
      LoggedOnce(rules, cues[n - 1], n - 1);
    }
  }

  // What becomes of each event: comments stay as they are, watermarks go, all others are rewritten.
  lemma EventsFate(rules: TextRules, cues: seq<Cue>, i: nat)
    requires i < |cues|
    ensures var stamped := !cues[i].isComment && rules.watermark(rules.shown(cues[i].text));
      && (i in RemovedBy(rules, cues) <==> stamped)
      && (!stamped ==>
        RewrittenAll(rules, cues)[i]
          == if cues[i].isComment then cues[i] else cues[i].(text := rules.rewrite(cues[i].text)))
  {
    WatermarksExact(rules, cues, |cues|);
  }

  // What is logged: an entry for each watermark and each event with a new text, with the times of the event, the text
  // it showed, and the text it shows afterwards or none.
  lemma {:induction false} LogTells(rules: TextRules, cues: seq<Cue>, n: nat, e: Change)
    requires n <= |cues|
    ensures e in TextLog(rules, cues, n) <==> e.index < n && TellsRewrite(rules, cues, e)
  {
    hide Logged, TellsRewrite;
    if n == 0 {
    } else {
      LogTells(rules, cues, n - 1, e);
      EntryTells(rules, cues, n - 1, e);
    }
  }

  lemma EntryTells(rules: TextRules, cues: seq<Cue>, i: nat, e: Change)
    requires i < |cues|
    ensures e in Logged(rules, cues[i], i) <==> e.index == i && TellsRewrite(rules, cues, e)
  {
    hide MsToStr;
  }

  predicate TellsRewrite(rules: TextRules, cues: seq<Cue>, e: Change)
    requires e.index < |cues|
  {
    var cue, fixed := cues[e.index], RewrittenAll(rules, cues)[e.index];
    var stamped := rules.watermark(rules.shown(cue.text));
    && !cue.isComment && (stamped || fixed.text != cue.text)
    && e.timestamp == MsToStr(cue.start) + (" --> " + MsToStr(cue.end))
    && e.original == rules.shown(cue.text)
    && e.modified == if stamped then "" else rules.shown(fixed.text)
  }

  lemma LoggedOnce(rules: TextRules, cue: Cue, i: nat)
    ensures |Logged(rules, cue, i)| <= 1
    ensures Logged(rules, cue, i) != [] ==> Logged(rules, cue, i)[0].index == i
  {
    hide TimesOf;
  }

  // The log is not adjusted when the watermarks are deleted: the entry of a surviving event still points at it
  // if and only if there is no watermark in front of it. `events` are the events themselves, none listed twice.
  lemma {:induction false} EntryStillRight<T>(events: seq<T>, rules: TextRules, cues: seq<Cue>, j: nat)
    requires |events| == |cues| && forall a, b :: 0 <= a < b < |events| ==> events[a] != events[b]
    requires j < |TextLog(rules, cues, |cues|)|
    ensures var k := TextLog(rules, cues, |cues|)[j].index;
      var rest := Without(events, RemovedBy(rules, cues));
      k < |cues| && (!IsWatermark(rules, cues[k]) ==>
        ((k < |rest| && rest[k] == events[k]) <==> forall i :: 0 <= i < k ==> !IsWatermark(rules, cues[i])))
  {
    hide IsWatermark, Logged;
    LogIsAbout(rules, cues, |cues|, j);
    WatermarksExact(rules, cues, |cues|);
    var k := TextLog(rules, cues, |cues|)[j].index;
    if !IsWatermark(rules, cues[k]) {
      PositionStillRight(events, k, RemovedBy(rules, cues));
    }
  }

  const STAMP := Cue(0, 1000, "www.example.org", "Default", 0, false)
  const DASHES := Cue(2000, 3000, "a--b", "Default", 0, false)

  // A watermark in front of a rewritten line: the entry of the line points behind the end of the list.
  lemma StaleEntry(rules: TextRules)
    requires rules.watermark(rules.shown("www.example.org")) && !rules.watermark(rules.shown("a--b"))
    requires rules.rewrite("a--b") != "a--b"
    ensures var cues := [STAMP, DASHES];
      && |TextLog(rules, cues, 2)| == 2 && TextLog(rules, cues, 2)[1].index == 1
      && Without(RewrittenAll(rules, cues), RemovedBy(rules, cues)) == [RewrittenCue(rules, DASHES)]
  {
    hide TimesOf;
    var cues := [STAMP, DASHES];
    assert TextLog(rules, cues, 1) == TextLog(rules, cues, 0) + Logged(rules, STAMP, 0);
    assert TextLog(rules, cues, 2) == TextLog(rules, cues, 1) + Logged(rules, DASHES, 1);
    WatermarksExact(rules, cues, 2);
    assert RemovedBy(rules, cues) == {0};
    KeptRun(1, 2, 2, {0});
    assert Kept(0, 2, {0}) == Kept(1, 2, {0}) && Kept(2, 2, {0}) == [];
  }
}

/** The pass itself, on the event list in place. */
module TextFixes {
  import opened ChangeLog
  import opened IndexDeletion
  import opened Subtitles
  import opened TextFixSpec

  // The scan after i events.
  ghost predicate Scanned(rules: TextRules, before: seq<Cue>, current: seq<Cue>, i: nat, toRemove: seq<nat>,
      changes: seq<Change>)
  {
    && i <= |before| == |current|
    && (forall k :: 0 <= k < i ==> current[k] == RewrittenCue(rules, before[k]))
    && (forall k :: i <= k < |before| ==> current[k] == before[k])
    && toRemove == Watermarks(rules, before, i) && changes == TextLog(rules, before, i)
  }

  lemma ScanStep(rules: TextRules, before: seq<Cue>, current: seq<Cue>, i: nat, toRemove: seq<nat>,
      changes: seq<Change>)
    requires Scanned(rules, before, current, i, toRemove, changes) && i < |before|
    ensures i < |current|
    ensures Scanned(rules, before, current[i := RewrittenCue(rules, current[i])], i + 1,
      if IsWatermark(rules, current[i]) then toRemove + [i] else toRemove,
      changes + Logged(rules, current[i], i))
  {
    hide RewrittenCue, IsWatermark, Logged;
  }

  lemma ScanDone(rules: TextRules, before: seq<Cue>, current: seq<Cue>, toRemove: seq<nat>, changes: seq<Change>)
    requires Scanned(rules, before, current, |before|, toRemove, changes)
    ensures current == RewrittenAll(rules, before)
    ensures toRemove == Watermarks(rules, before, |before|) && changes == TextLog(rules, before, |before|)
  {
    hide RewrittenCue, Logged;
  }

  // One event: a watermark is only noted, any other text is rewritten.
  method FixText(file: SubFile, rules: TextRules, i: nat) returns (remove: bool, logged: seq<Change>)
    requires file.Valid() && i < |file.events|
    modifies file.events[i]
    ensures file.Valid() && file.events == old(file.events)
    ensures file.Cues() == old(file.Cues())[i := RewrittenCue(rules, old(file.Cues()[i]))]
    ensures remove == IsWatermark(rules, old(file.Cues()[i]))
    ensures logged == Logged(rules, old(file.Cues()[i]), i)
  {
    hide TimesOf;
    var event := file.events[i];
    remove, logged := false, [];
    if event.isComment {
      return;
    }
    var timestamp, shown := TimesOf(event.AsCue()), rules.shown(event.text);
    if rules.watermark(shown) {
      return true, [Change(i, timestamp, shown, "")];
    }
    var text := rules.rewrite(event.text);
    if text != event.text {
      file.SetText(i, text);
      logged := [Change(i, timestamp, shown, rules.shown(text))];
    }
  }

  method ScanTexts(file: SubFile, rules: TextRules) returns (toRemove: seq<nat>, changes: seq<Change>)
    requires file.Valid()
    modifies file.events
    ensures file.Valid() && file.events == old(file.events)
    ensures file.Cues() == RewrittenAll(rules, old(file.Cues()))
    ensures toRemove == Watermarks(rules, old(file.Cues()), |file.events|)
    ensures changes == TextLog(rules, old(file.Cues()), |file.events|)
  {
    hide Scanned, Logged, IsWatermark, RewrittenCue, RewrittenAll, Watermarks, TextLog;
    ghost var before := file.Cues();
    toRemove, changes := [], [];
    ScanStarts(rules, before);
    for i := 0 to |file.events|
      invariant file.Valid() && file.events == old(file.events)
      invariant Scanned(rules, before, file.Cues(), i, toRemove, changes)
    {
      ScanStep(rules, before, file.Cues(), i, toRemove, changes);
      var remove, logged := FixText(file, rules, i);
      changes := changes + logged;
      if remove {
        toRemove := toRemove + [i];
      }
    }
    ScanDone(rules, before, file.Cues(), toRemove, changes);
  }

  // The whole pass: texts rewritten, watermarks deleted from the last to the first, the log left as it is.
  method FixTexts(file: SubFile, rules: TextRules) returns (changes: seq<Change>)
    requires file.Valid()
    modifies file`events, file.events
    ensures file.Valid()
    ensures file.events == Without(old(file.events), RemovedBy(rules, old(file.Cues())))
    ensures file.Cues() == Without(RewrittenAll(rules, old(file.Cues())), RemovedBy(rules, old(file.Cues())))
    ensures changes == TextLog(rules, old(file.Cues()), |old(file.events)|)
  {
    WatermarksExact(rules, file.Cues(), |file.events|);
    hide RewrittenAll, Watermarks, TextLog, IsWatermark;
    var toRemove;
    toRemove, changes := ScanTexts(file, rules);
    file.DeleteAll(toRemove);
  }

  lemma ScanStarts(rules: TextRules, before: seq<Cue>)
    ensures Scanned(rules, before, before, 0, [], [])
  {
  }
}

/** ASS override tags: extraction into clean text plus positioned tags, and proportional
    restoration of those tags into a translated text. */
module AssTags {
  import opened Arithmetic
  import opened PyText

  datatype Tag = Tag(pos: nat, text: string)

  // ---- the regular expression \{[^}]*\} --------------------------------------------------------

  // End of the leftmost match: the first closing brace after the first opening one.
  function MatchEnd(text: string): (e: nat)
    ensures Find(text, '{') < |text| ==> Find(text, '{') < e
  {
    var i := Find(text, '{');
    if i == |text| then |text| + 1 else i + Find(text[i..], '}') + 1
  }

  predicate HasTag(text: string) {
    MatchEnd(text) <= |text|
  }

  // re.split
  function SplitTags(text: string): (parts: seq<string>)
    ensures |parts| >= 1
    decreases |text|
  {
    if HasTag(text) then [text[..Find(text, '{')]] + SplitTags(text[MatchEnd(text)..]) else [text]
  }

  // re.findall
  function FindTags(text: string): (tags: seq<string>)
    ensures |SplitTags(text)| == |tags| + 1
    decreases |text|
  {
    if HasTag(text) then [text[Find(text, '{')..MatchEnd(text)]] + FindTags(text[MatchEnd(text)..]) else []
  }

  // ---- extraction ------------------------------------------------------------------------------

  function Concat(parts: seq<string>): string {
    if parts == [] then "" else parts[0] + Concat(parts[1..])
  }

  // Each tag carries the number of clean characters in front of it.
  function Recorded(parts: seq<string>, tags: seq<string>, pos: nat): (r: seq<Tag>)
    requires |parts| == |tags| + 1
    ensures |r| == |tags|
  {
    if tags == [] then []
    else [Tag(pos + |parts[0]|, tags[0])] + Recorded(parts[1..], tags[1..], pos + |parts[0]|)
  }

  function CleanText(text: string): string {
    Concat(SplitTags(text))
  }

  function TagInfo(text: string): seq<Tag> {
    Recorded(SplitTags(text), FindTags(text), 0)
  }

  lemma {:induction false} ConcatAppend(a: seq<string>, s: string)
    ensures Concat(a + [s]) == Concat(a) + s
  {
    if a == [] {
      assert a + [s] == [s];
      assert Concat([s]) == s + Concat([]);
    } else {
      assert (a + [s])[1..] == a[1..] + [s];
      ConcatAppend(a[1..], s);
    }
  }

  lemma {:induction false} RecordedAppend(parts: seq<string>, tags: seq<string>, pos: nat, part: string, tag: string)
    requires |parts| == |tags| + 1
    ensures Recorded(parts + [part], tags + [tag], pos)
      == Recorded(parts, tags, pos) + [Tag(pos + |Concat(parts)|, tag)]
  {
    assert (parts + [part])[0] == parts[0];
    if tags == [] {
      assert (parts + [part])[1..] == [part] && (tags + [tag])[1..] == [];
      assert Concat(parts) == parts[0] + Concat([]);
    } else {
      assert (parts + [part])[1..] == parts[1..] + [part];
      assert (tags + [tag])[1..] == tags[1..] + [tag];
      RecordedAppend(parts[1..], tags[1..], pos + |parts[0]|, part, tag);
    }
  }

  lemma ConcatPrefix(parts: seq<string>, i: nat)
    requires i < |parts|
    ensures parts[..i + 1] == parts[..i] + [parts[i]]
    ensures Concat(parts[..i + 1]) == Concat(parts[..i]) + parts[i]
  {
    ConcatAppend(parts[..i], parts[i]);
    assert parts[..i + 1] == parts[..i] + [parts[i]];
  }

  lemma RecordedPrefix(parts: seq<string>, tags: seq<string>, i: nat)
    requires 0 < i < |parts| == |tags| + 1
    ensures Recorded(parts[..i + 1], tags[..i], 0)
      == Recorded(parts[..i], tags[..i - 1], 0) + [Tag(|Concat(parts[..i])|, tags[i - 1])]
  {
    RecordedAppend(parts[..i], tags[..i - 1], 0, parts[i], tags[i - 1]);
    assert parts[..i + 1] == parts[..i] + [parts[i]] && tags[..i] == tags[..i - 1] + [tags[i - 1]];
  }

  lemma NoTags(text: string)
    requires !HasTag(text)
    ensures CleanText(text) == text && TagInfo(text) == []
  {
    assert Concat([text]) == text + Concat([]);
  }

  method ExtractTags(text: string) returns (clean: string, tagInfo: seq<Tag>, cleanLength: nat)
    ensures clean == CleanText(text) && tagInfo == TagInfo(text) && cleanLength == |clean|
  {
    hide HasTag, SplitTags, FindTags;
    if !HasTag(text) {
      NoTags(text);
      return text, [], |text|;
    }
    var parts := SplitTags(text);
    var tags := FindTags(text);
    tagInfo := [];
    var cleanParts: seq<string> := [];
    var currentCleanPos := 0;
    for i := 0 to |parts|
      invariant cleanParts == parts[..i]
      invariant currentCleanPos == |Concat(cleanParts)|
      invariant tagInfo == if i == 0 then [] else Recorded(parts[..i], tags[..i - 1], 0)
    {
      if i > 0 {
        RecordedPrefix(parts, tags, i);
        tagInfo := tagInfo + [Tag(currentCleanPos, tags[i - 1])];
      }
      ConcatPrefix(parts, i);
      cleanParts := cleanParts + [parts[i]];
      currentCleanPos := currentCleanPos + |parts[i]|;
    }
    assert parts[..|parts|] == parts && tags[..|tags|] == tags;
    clean := Concat(cleanParts);
    cleanLength := |clean|;
  }

  // ---- the regular expression against its inverse ----------------------------------------------

  // What the regular expression can match: an opening brace, no closing brace, a closing brace.
  predicate IsTagText(s: string) {
    |s| >= 2 && s[0] == '{' && s[|s| - 1] == '}' && forall k :: 0 <= k < |s| - 1 ==> s[k] != '}'
  }

  predicate AllTagTexts(tags: seq<string>) {
    forall k :: 0 <= k < |tags| ==> IsTagText(tags[k])
  }

  predicate NoneOpens(parts: seq<string>) {
    forall k :: 0 <= k < |parts| ==> '{' !in parts[k]
  }

  function Interleave(parts: seq<string>, tags: seq<string>): string
    requires |parts| == |tags| + 1
  {
    if tags == [] then parts[0] else parts[0] + tags[0] + Interleave(parts[1..], tags[1..])
  }

  lemma {:induction false} FirstTagIsTag(text: string)
    requires HasTag(text)
    ensures IsTagText(text[Find(text, '{')..MatchEnd(text)])
  {
  }

  lemma TagTextsCons(tag: string, tags: seq<string>)
    ensures AllTagTexts([tag] + tags) <==> IsTagText(tag) && AllTagTexts(tags)
  {
    var all := [tag] + tags;
    assert all[0] == tag && forall k :: 0 <= k < |tags| ==> tags[k] == all[k + 1];
  }

  lemma {:induction false} FoundAreTags(text: string)
    ensures AllTagTexts(FindTags(text))
    decreases |text|
  {
    if HasTag(text) {
      var rest := text[MatchEnd(text)..];
      FirstTagIsTag(text);
      FoundAreTags(rest);
      TagTextsCons(text[Find(text, '{')..MatchEnd(text)], FindTags(rest));
    }
  }

  lemma ThreePieces(s: string, i: nat, j: nat)
    requires i <= j <= |s|
    ensures s == s[..i] + s[i..j] + s[j..]
  {
  }

  // Splitting loses nothing but the tags.
  lemma {:induction false} SplitThenInterleave(text: string)
    ensures Interleave(SplitTags(text), FindTags(text)) == text
    decreases |text|
  {
    if HasTag(text) {
      var rest := text[MatchEnd(text)..];
      SplitThenInterleave(rest);
      ThreePieces(text, Find(text, '{'), MatchEnd(text));
      assert SplitTags(text)[1..] == SplitTags(rest) && FindTags(text)[1..] == FindTags(rest);
    }
  }

  // No part swallows a tag behind it, and the last part holds no tag of its own.
  predicate Undisturbed(parts: seq<string>)
    requires |parts| > 0
  {
    NoneOpens(parts[..|parts| - 1]) && !HasTag(parts[|parts| - 1])
  }

  // The regular expression finds exactly the tags that were put between undisturbing parts.
  lemma {:induction false} InterleaveThenSplit(parts: seq<string>, tags: seq<string>)
    requires |parts| == |tags| + 1 && Undisturbed(parts) && AllTagTexts(tags)
    ensures SplitTags(Interleave(parts, tags)) == parts
    ensures FindTags(Interleave(parts, tags)) == tags
  {
    if tags == [] {
    } else {
      UndisturbedTail(parts);
      HeadAndTail(parts);
      HeadAndTail(tags);
      TagTextsCons(tags[0], tags[1..]);
      InterleaveThenSplit(parts[1..], tags[1..]);
      FirstMatch(parts[0], tags[0], Interleave(parts[1..], tags[1..]));
    }
  }

  lemma {:induction false} UndisturbedTail(parts: seq<string>)
    requires |parts| > 1
    ensures Undisturbed(parts) <==> '{' !in parts[0] && Undisturbed(parts[1..])
  {
    var rest := parts[1..][..|parts| - 2];
    assert parts[..|parts| - 1] == [parts[0]] + rest;
    NoneOpensCons(parts[0], rest);
  }

  lemma NoneOpensCons(part: string, parts: seq<string>)
    ensures NoneOpens([part] + parts) <==> '{' !in part && NoneOpens(parts)
  {
    var all := [part] + parts;
    assert all[0] == part && forall k :: 0 <= k < |parts| ==> parts[k] == all[k + 1];
  }

  // A part that does open a brace swallows text up to the next closing brace.
  lemma {:induction false} OpenPart(part: string, tag: string)
      returns (before: string, group: string, rest: string, after: string)
    requires '{' in part && IsTagText(tag)
    ensures part + tag == before + group + after && '{' !in before && IsTagText(group) && |rest| < |part|
    ensures (after == "" && |group| > |tag|) || after == rest + tag
  {
    var i := Find(part, '{');
    before, group, rest := CutGroup(part, i);
    if group != "" {
      after := rest + tag;
      Regroup3(before, group, rest, tag);
    } else {
      group, after := part[i..] + tag, "";
      TailJoinsTag(part[i..], tag);
      assert part + tag == part[..i] + (part[i..] + tag) + "";
    }
  }

  // The brace group that opens at i, or nothing when it does not close inside the part.
  lemma {:induction false} CutGroup(part: string, i: nat) returns (before: string, group: string, rest: string)
    requires i < |part| && part[i] == '{'
    ensures before == part[..i] && |rest| < |part|
    ensures group == "" ==> '}' !in part[i..]
    ensures group != "" ==> IsTagText(group) && part == before + group + rest
  {
    before, group, rest := part[..i], "", "";
    var j := Find(part[i..], '}');
    if j < |part[i..]| {
      group, rest := part[i..i + j + 1], part[i + j + 1..];
    }
  }

  lemma {:induction false} TailJoinsTag(tail: string, tag: string)
    requires tail != "" && tail[0] == '{' && '}' !in tail && IsTagText(tag)
    ensures IsTagText(tail + tag)
  {
    var all := tail + tag;
    assert all[0] == tail[0] && all[|all| - 1] == tag[|tag| - 1];
    forall k | 0 <= k < |all| - 1
      ensures all[k] != '}'
    {
      if k < |tail| {
        assert all[k] == tail[k] && tail[k] in tail;
      } else {
        assert all[k] == tag[k - |tail|];
      }
    }
  }

  lemma Regroup3(a: string, b: string, c: string, d: string)
    ensures a + b + c + d == a + b + (c + d)
  {
  }

  // What a part with an opening brace does to everything behind it.
  lemma {:induction false} OpenPartFirst(parts: seq<string>, tags: seq<string>) returns (group: string, rest: string)
    requires |parts| == |tags| + 1 && tags != [] && '{' in parts[0] && IsTagText(tags[0])
    ensures |rest| < |parts[0]|
    ensures
      || (&& |group| > |tags[0]|
          && FindTags(Interleave(parts, tags)) == [group] + FindTags(Interleave(parts[1..], tags[1..])))
      || FindTags(Interleave(parts, tags)) == [group] + FindTags(Interleave([rest] + parts[1..], tags))
  {
    hide IsTagText, SplitTags, FindTags;
    var later := Interleave(parts[1..], tags[1..]);
    var before, after;
    before, group, rest, after := OpenPart(parts[0], tags[0]);
    FirstMatch(before, group, after + later);
    assert Interleave(parts, tags) == before + group + (after + later);
    if after == "" {
      assert after + later == later;
    } else {
      assert ([rest] + parts[1..])[1..] == parts[1..];
    }
  }

  // However the parts look, every inserted tag still closes a match.
  lemma {:induction false} EveryTagCloses(parts: seq<string>, tags: seq<string>)
    requires |parts| == |tags| + 1 && AllTagTexts(tags)
    ensures |FindTags(Interleave(parts, tags))| >= |tags|
    decreases |tags|, if |parts| > 0 then |parts[0]| else 0
  {
    if tags == [] {
    } else {
      EveryTagCloses(parts[1..], tags[1..]);
      if '{' !in parts[0] {
        FirstMatch(parts[0], tags[0], Interleave(parts[1..], tags[1..]));
      } else {
        var group, rest := OpenPartFirst(parts, tags);
        EveryTagCloses([rest] + parts[1..], tags);
      }
    }
  }

  // Exactly when the tags are found again.
  lemma {:induction false} FoundAgain(parts: seq<string>, tags: seq<string>)
    requires |parts| == |tags| + 1 && AllTagTexts(tags)
    ensures FindTags(Interleave(parts, tags)) == tags <==> Undisturbed(parts)
  {
    if Undisturbed(parts) {
      InterleaveThenSplit(parts, tags);
    } else if tags != [] {
      var later := Interleave(parts[1..], tags[1..]);
      UndisturbedTail(parts);
      if '{' !in parts[0] {
        FirstMatch(parts[0], tags[0], later);
        FoundAgain(parts[1..], tags[1..]);
        assert ([tags[0]] + FindTags(later))[1..] == FindTags(later);
      } else {
        var group, rest := OpenPartFirst(parts, tags);
        EveryTagCloses([rest] + parts[1..], tags);
      }
    }
  }

  lemma {:induction false} FirstMatch(part: string, tag: string, rest: string)
    requires '{' !in part && IsTagText(tag)
    ensures SplitTags(part + tag + rest) == [part] + SplitTags(rest)
    ensures FindTags(part + tag + rest) == [tag] + FindTags(rest)
  {
    var text := part + tag + rest;
    assert text == part + (tag + rest);
    FindSkips(part, tag + rest, '{');
    assert text[|part|..] == tag + rest;
    assert Find(tag + rest, '}') == |tag| - 1 by {
      assert (tag + rest)[|tag| - 1] == '}';
    }
    assert text[..|part|] == part;
    assert text[|part|..|part| + |tag|] == tag;
    assert text[|part| + |tag|..] == rest;
  }

  // ---- weaving tags into a text: the meaning of a tag list -------------------------------------

  // Positions are in order, start at `from` and stay inside a text of length n.
  predicate Ordered(tags: seq<Tag>, from: nat, n: nat) {
    if tags == [] then from <= n else from <= tags[0].pos <= n && Ordered(tags[1..], tags[0].pos, n)
  }

  // The pieces of text[from..] between the tag positions.
  function Pieces(text: string, tags: seq<Tag>, from: nat): (parts: seq<string>)
    requires Ordered(tags, from, |text|)
    ensures |parts| == |tags| + 1
  {
    if tags == [] then [text[from..]]
    else [text[from..tags[0].pos]] + Pieces(text, tags[1..], tags[0].pos)
  }

  function Texts(tags: seq<Tag>): (texts: seq<string>)
    ensures |texts| == |tags|
  {
    seq(|tags|, i requires 0 <= i < |tags| => tags[i].text)
  }

  // text[from..] with every tag inserted at its position.
  function WeaveFrom(text: string, tags: seq<Tag>, from: nat): string
    requires Ordered(tags, from, |text|)
  {
    Interleave(Pieces(text, tags, from), Texts(tags))
  }

  function Weave(text: string, tags: seq<Tag>): string
    requires Ordered(tags, 0, |text|)
  {
    WeaveFrom(text, tags, 0)
  }

  lemma {:induction false} WeaveStep(text: string, tags: seq<Tag>, from: nat)
    requires Ordered(tags, from, |text|) && tags != []
    ensures WeaveFrom(text, tags, from)
         == text[from..tags[0].pos] + tags[0].text + WeaveFrom(text, tags[1..], tags[0].pos)
  {
    var parts, texts := Pieces(text, tags, from), Texts(tags);
    assert parts[0] == text[from..tags[0].pos] && parts[1..] == Pieces(text, tags[1..], tags[0].pos);
    assert texts[0] == tags[0].text && texts[1..] == Texts(tags[1..]);
    hide Pieces, Texts, Interleave;
    InterleaveHead(parts, texts);
  }

  lemma InterleaveHead(parts: seq<string>, tags: seq<string>)
    requires |parts| == |tags| + 1 && tags != []
    ensures Interleave(parts, tags) == parts[0] + tags[0] + Interleave(parts[1..], tags[1..])
  {
  }

  lemma {:induction false} RecordedPieces(parts: seq<string>, tags: seq<string>, text: string, from: nat)
    requires |parts| == |tags| + 1 && from <= |text| && text[from..] == Concat(parts)
    ensures Ordered(Recorded(parts, tags, from), from, |text|)
    ensures Pieces(text, Recorded(parts, tags, from), from) == parts
    ensures Texts(Recorded(parts, tags, from)) == tags
  {
    var recorded := Recorded(parts, tags, from);
    if tags == [] {
      assert parts == [parts[0]];
      assert Concat(parts) == parts[0] + Concat([]) == parts[0];
    } else {
      var next := from + |parts[0]|;
      SuffixSplits(text, from, parts[0], Concat(parts[1..]));
      RecordedPieces(parts[1..], tags[1..], text, next);
      assert recorded[1..] == Recorded(parts[1..], tags[1..], next);
      assert Texts(recorded) == [tags[0]] + Texts(recorded[1..]) == [tags[0]] + tags[1..] == tags;
    }
  }

  lemma {:induction false} PiecesRecorded(text: string, tags: seq<Tag>, from: nat)
    requires Ordered(tags, from, |text|)
    ensures from <= |text| && Concat(Pieces(text, tags, from)) == text[from..]
    ensures Recorded(Pieces(text, tags, from), Texts(tags), from) == tags
    ensures '{' !in text ==> NoneOpens(Pieces(text, tags, from))
  {
    var parts := Pieces(text, tags, from);
    if tags == [] {
      assert Concat(parts) == parts[0] + Concat([]);
    } else {
      PiecesRecorded(text, tags[1..], tags[0].pos);
      assert parts[1..] == Pieces(text, tags[1..], tags[0].pos) && Texts(tags)[1..] == Texts(tags[1..]);
      assert text[from..] == text[from..tags[0].pos] + text[tags[0].pos..];
      HeadAndTail(tags);
      assert forall k :: 1 <= k < |parts| ==> parts[k] == parts[1..][k - 1];
    }
  }

  lemma SuffixSplits(s: string, i: nat, a: string, b: string)
    requires i <= |s| && s[i..] == a + b
    ensures i + |a| <= |s| && s[i..i + |a|] == a && s[i + |a|..] == b
  {
    assert s[i..i + |a|] == s[i..][..|a|] && s[i + |a|..] == s[i..][|a|..];
  }

  // Re-inserting the extracted tags at their recorded positions rebuilds the line.
  lemma {:induction false} ExtractThenWeave(text: string)
    ensures Ordered(TagInfo(text), 0, |CleanText(text)|)
    ensures AllTagTexts(Texts(TagInfo(text)))
    ensures Weave(CleanText(text), TagInfo(text)) == text
  {
    SplitThenInterleave(text);
    FoundAreTags(text);
    RecordedPieces(SplitTags(text), FindTags(text), CleanText(text), 0);
  }

  // Extracting from a woven text gives back the text and the tags exactly when the text does not disturb them.
  lemma {:induction false} WeaveThenExtract(text: string, tags: seq<Tag>)
    requires Ordered(tags, 0, |text|) && AllTagTexts(Texts(tags))
    ensures CleanText(Weave(text, tags)) == text && TagInfo(Weave(text, tags)) == tags
       <==> Undisturbed(Pieces(text, tags, 0))
  {
    var w := Weave(text, tags);
    PiecesRecorded(text, tags, 0);
    FoundAgain(Pieces(text, tags, 0), Texts(tags));
    if Undisturbed(Pieces(text, tags, 0)) {
      InterleaveThenSplit(Pieces(text, tags, 0), Texts(tags));
    }
    RecordedPieces(SplitTags(w), FindTags(w), CleanText(w), 0);
  }

  lemma {:induction false} BraceFreeUndisturbed(text: string, tags: seq<Tag>)
    requires Ordered(tags, 0, |text|) && '{' !in text
    ensures Undisturbed(Pieces(text, tags, 0))
  {
    PiecesRecorded(text, tags, 0);
  }

  // ---- restoration -----------------------------------------------------------------------------

  // sorted(tag_info, key=position): a stable sort.
  function InsertByPos(tag: Tag, sorted: seq<Tag>): (r: seq<Tag>)
    ensures |r| == |sorted| + 1
  {
    if sorted == [] || tag.pos <= sorted[0].pos then [tag] + sorted
    else [sorted[0]] + InsertByPos(tag, sorted[1..])
  }

  function SortByPos(tags: seq<Tag>): (sorted: seq<Tag>)
    ensures |sorted| == |tags|
  {
    if tags == [] then [] else InsertByPos(tags[0], SortByPos(tags[1..]))
  }

  predicate IsBoundary(text: string, i: int) {
    0 <= i <= |text| && (i == |text| || text[i] == ' ' || text[i] == '\\')
  }

  // First word boundary among at-3 .. at+3, trying from `offset` upwards; `at` when there is none.
  function Snap(text: string, at: nat, offset: int): int
    decreases 4 - offset
  {
    if offset > 3 then at
    else if IsBoundary(text, at + offset) then at + offset
    else Snap(text, at, offset + 1)
  }

  // int(pos / length * len(text)) with exact arithmetic
  function Scaled(pos: nat, length: nat, text: string): nat
    requires length > 0
  {
    pos * |text| / length
  }

  // Where a tag recorded at pos goes when everything before textPos is already written.
  function Landing(text: string, pos: nat, length: nat, textPos: nat): (p: nat)
    requires textPos <= |text|
    ensures textPos <= p <= |text|
  {
    var wanted :=
      if pos == 0 then 0
      else if length > 0 then Snap(text, Scaled(pos, length, text), -3)
      else Min(pos, |text|);
    Min(Max(wanted, textPos), |text|)
  }

  function Min(a: int, b: int): int { if a <= b then a else b }
  function Max(a: int, b: int): int { if a >= b then a else b }

  // The sorted tags moved to their landing positions.
  function Landed(text: string, sorted: seq<Tag>, length: nat, textPos: nat): (landed: seq<Tag>)
    requires textPos <= |text|
    ensures |landed| == |sorted|
  {
    if sorted == [] then []
    else
      var p := Landing(text, sorted[0].pos, length, textPos);
      [Tag(p, sorted[0].text)] + Landed(text, sorted[1..], length, p)
  }

  // `original_clean_length or trans_len`; a missing length is passed as 0
  function EffectiveLength(text: string, length: nat): nat {
    if length == 0 then |text| else length
  }

  function Placed(text: string, tagInfo: seq<Tag>, length: nat): seq<Tag> {
    Landed(text, SortByPos(tagInfo), EffectiveLength(text, length), 0)
  }

  lemma {:induction false} LandedOrdered(text: string, sorted: seq<Tag>, length: nat, textPos: nat)
    requires textPos <= |text|
    ensures Ordered(Landed(text, sorted, length, textPos), textPos, |text|)
    ensures Texts(Landed(text, sorted, length, textPos)) == Texts(sorted)
  {
    if sorted == [] {
    } else {
      var landed := Landed(text, sorted, length, textPos);
      LandedOrdered(text, sorted[1..], length, landed[0].pos);
      assert landed[1..] == Landed(text, sorted[1..], length, landed[0].pos);
      assert Texts(landed) == [sorted[0].text] + Texts(landed[1..]);
      assert Texts(sorted) == [sorted[0].text] + Texts(sorted[1..]);
    }
  }

  // Landing positions never go backwards and never leave the text; no tag is lost or reordered.
  function Restored(text: string, tagInfo: seq<Tag>, length: nat): string {
    LandedOrdered(text, SortByPos(tagInfo), EffectiveLength(text, length), 0);
    Weave(text, Placed(text, tagInfo, length))
  }

  // The restoration loop before its i-th tag: what is written and what is still to come make up the whole.
  ghost predicate Emitting(text: string, sorted: seq<Tag>, length: nat, landed: seq<Tag>, i: nat, textPos: nat,
      result: seq<string>)
  {
    && i <= |sorted| == |landed| && textPos <= |text|
    && landed[i..] == Landed(text, sorted[i..], length, textPos)
    && Ordered(landed, 0, |text|) && Ordered(landed[i..], textPos, |text|)
    && Concat(result) + WeaveFrom(text, landed[i..], textPos) == Weave(text, landed)
  }

  // One round of that loop: the text up to the landing position, then the tag.
  lemma {:induction false} EmitStep(text: string, sorted: seq<Tag>, length: nat, landed: seq<Tag>, i: nat, textPos: nat,
      before: seq<string>, after: seq<string>)
    requires Emitting(text, sorted, length, landed, i, textPos, before) && i < |sorted|
    requires var p := Landing(text, sorted[i].pos, length, textPos);
      Concat(after) == Concat(before) + text[textPos..p] + sorted[i].text
    ensures Emitting(text, sorted, length, landed, i + 1, Landing(text, sorted[i].pos, length, textPos), after)
  {
    assert sorted[i..][1..] == sorted[i + 1..] && landed[i..][1..] == landed[i + 1..];
    WeaveStep(text, landed[i..], textPos);
    Regroup(Concat(before), text[textPos..landed[i].pos], sorted[i].text,
      WeaveFrom(text, landed[i + 1..], landed[i].pos));
  }

  lemma {:induction false} EmitEnd(text: string, sorted: seq<Tag>, length: nat, landed: seq<Tag>, textPos: nat,
      result: seq<string>)
    requires Emitting(text, sorted, length, landed, |sorted|, textPos, result)
    ensures Concat(result) + text[textPos..] == Weave(text, landed)
  {
    assert landed[|sorted|..] == [];
  }

  lemma {:induction false} NothingToRestore(text: string, length: nat)
    ensures Restored(text, [], length) == text
  {
    assert Placed(text, [], length) == [] && Pieces(text, [], 0) == [text];
  }

  lemma Regroup(a: string, b: string, c: string, d: string)
    ensures a + (b + c + d) == a + b + c + d
  {
  }

  method SnapToBoundary(text: string, at: nat) returns (best: int)
    ensures best == Snap(text, at, -3)
  {
    best := at;
    for offset := -3 to 4
      invariant Snap(text, at, offset) == Snap(text, at, -3)
      invariant best == at
    {
      var check := at + offset;
      if 0 <= check <= |text| && (check == |text| || text[check] == ' ' || text[check] == '\\') {
        best := check;
        break;
      }
    }
  }

  method InsertPosition(text: string, pos: nat, origLen: nat, textPos: nat) returns (insertPos: nat)
    requires textPos <= |text|
    ensures insertPos == Landing(text, pos, origLen, textPos)
  {
    var wanted: int;
    if pos == 0 {
      wanted := 0;
    } else if origLen > 0 {
      wanted := SnapToBoundary(text, pos * |text| / origLen);
    } else {
      wanted := Min(pos, |text|);
    }
    // Never go backwards.
    wanted := Max(wanted, textPos);
    insertPos := Min(wanted, |text|);
  }

  method RestoreTags(translated: string, tagInfo: seq<Tag>, length: nat) returns (restored: string)
    ensures restored == Restored(translated, tagInfo, length)
  {
    hide SortByPos, Landed, WeaveFrom;
    if tagInfo == [] {
      NothingToRestore(translated, length);
      return translated;
    }
    var result: seq<string> := [];
    var textPos := 0;
    var transLen := |translated|;
    var origLen := if length == 0 then transLen else length;
    var sorted := SortByPos(tagInfo);
    ghost var landed := Placed(translated, tagInfo, length);
    LandedOrdered(translated, sorted, origLen, 0);
    assert sorted[0..] == sorted && landed[0..] == landed;
    for i := 0 to |sorted|
      invariant Emitting(translated, sorted, origLen, landed, i, textPos, result)
    {
      ghost var before, written := textPos, result;
      var insertPos := InsertPosition(translated, sorted[i].pos, origLen, textPos);
      if insertPos > textPos {
        ConcatAppend(result, translated[textPos..insertPos]);
        result := result + [translated[textPos..insertPos]];
        textPos := insertPos;
      }
      ConcatAppend(result, sorted[i].text);
      result := result + [sorted[i].text];
      EmitStep(translated, sorted, origLen, landed, i, before, written, result);
    }
    EmitEnd(translated, sorted, origLen, landed, textPos, result);
    if textPos < transLen {
      ConcatAppend(result, translated[textPos..]);
      result := result + [translated[textPos..]];
    }
    restored := Concat(result);
  }

  // ---- what restoration promises ---------------------------------------------------------------

  predicate SortedByPos(tags: seq<Tag>) {
    forall i, j :: 0 <= i < j < |tags| ==> tags[i].pos <= tags[j].pos
  }

  lemma {:induction false} SortKeepsTags(tags: seq<Tag>)
    ensures SortedByPos(SortByPos(tags))
    ensures multiset(SortByPos(tags)) == multiset(tags)
    ensures SortedByPos(tags) ==> SortByPos(tags) == tags
  {
    if tags == [] {
    } else {
      SortKeepsTags(tags[1..]);
      InsertKeepsTags(tags[0], SortByPos(tags[1..]));
      InsertPermutes(tags[0], SortByPos(tags[1..]));
      assert tags == [tags[0]] + tags[1..];
    }
  }

  lemma {:induction false} InsertKeepsTags(tag: Tag, sorted: seq<Tag>)
    requires SortedByPos(sorted)
    ensures SortedByPos(InsertByPos(tag, sorted))
  {
    if sorted != [] && tag.pos > sorted[0].pos {
      InsertKeepsTags(tag, sorted[1..]);
      InsertBounded(tag, sorted[1..], sorted[0].pos);
    }
  }

  lemma {:induction false} InsertBounded(tag: Tag, sorted: seq<Tag>, low: nat)
    requires low <= tag.pos && forall k :: 0 <= k < |sorted| ==> low <= sorted[k].pos
    ensures forall k :: 0 <= k < |InsertByPos(tag, sorted)| ==> low <= InsertByPos(tag, sorted)[k].pos
  {
    if sorted != [] && tag.pos > sorted[0].pos {
      InsertBounded(tag, sorted[1..], low);
    }
  }

  lemma {:induction false} InsertPermutes(tag: Tag, sorted: seq<Tag>)
    ensures multiset(InsertByPos(tag, sorted)) == multiset([tag] + sorted)
  {
    if sorted != [] && tag.pos > sorted[0].pos {
      InsertPermutes(tag, sorted[1..]);
      assert sorted == [sorted[0]] + sorted[1..];
    }
  }

  lemma {:induction false} ExtractedSorted(parts: seq<string>, tags: seq<string>, from: nat)
    requires |parts| == |tags| + 1
    ensures SortedByPos(Recorded(parts, tags, from))
    ensures forall k :: 0 <= k < |tags| ==> from <= Recorded(parts, tags, from)[k].pos
  {
    if tags != [] {
      ExtractedSorted(parts[1..], tags[1..], from + |parts[0]|);
    }
  }

  lemma SnapNear(text: string, at: nat, offset: int)
    requires -3 <= offset
    ensures at - 3 <= Snap(text, at, offset) <= at + 3
    decreases 4 - offset
  {
  }

  // Snapping takes the leftmost boundary within reach, and stays put only when there is none.
  lemma {:induction false} SnapLeftmost(text: string, at: nat, offset: int)
    requires -3 <= offset <= 4
    ensures var p := Snap(text, at, offset);
      if exists i :: at + offset <= i <= at + 3 && IsBoundary(text, i)
      then
        && at + offset <= p <= at + 3 && IsBoundary(text, p)
        && forall i :: at + offset <= i < p ==> !IsBoundary(text, i)
      else p == at
    decreases 4 - offset
  {
    if offset <= 3 {
      SnapLeftmost(text, at, offset + 1);
    }
  }

  function Distance(a: int, b: int): nat {
    if a <= b then b - a else a - b
  }

  ghost predicate IsNearest(text: string, at: nat, p: int) {
    IsBoundary(text, p) && forall i :: IsBoundary(text, i) ==> Distance(at, p) <= Distance(at, i)
  }

  // With a boundary in reach, the one that is taken is a nearest one, unless there is a boundary within three
  // characters to the left and another one behind it that is closer.
  lemma SnapNearestExactly(text: string, at: nat)
    requires exists i :: at - 3 <= i <= at + 3 && IsBoundary(text, i)
    ensures IsNearest(text, at, Snap(text, at, -3)) <==>
      !exists i, j :: at - 3 <= i < at && i < j < 2 * at - i && IsBoundary(text, i) && IsBoundary(text, j)
  {
    hide IsBoundary, Snap;
    SnapLeftmost(text, at, -3);
    var p := Snap(text, at, -3);
    assert IsBoundary(text, p) && at - 3 <= p <= at + 3;
    if i, j :| at - 3 <= i < at && i < j < 2 * at - i && IsBoundary(text, i) && IsBoundary(text, j) {
      assert p <= i && Distance(at, j) < Distance(at, p);
    } else {
      forall i | IsBoundary(text, i)
        ensures Distance(at, p) <= Distance(at, i)
      {
        assert i >= p || i < at - 3;
      }
    }
  }

  // That is not the nearest one: three characters are skipped back although the place itself is a boundary.
  lemma SnapNotNearest()
    ensures IsBoundary(" ab cd", 3) && Snap(" ab cd", 3, -3) == 0
  {
    assert IsBoundary(" ab cd", 0);
  }

  // The proportional position a tag aims at.
  function Target(text: string, pos: nat, length: nat): (t: nat)
    ensures t <= |text|
  {
    if pos == 0 || length == 0 then 0 else Min(Scaled(pos, length, text), |text|)
  }

  lemma {:induction false} TargetMonotone(text: string, p: nat, q: nat, length: nat)
    requires p <= q
    ensures Target(text, p, length) <= Target(text, q, length)
  {
    if p > 0 && length > 0 {
      ScaleMonotone(p, q, |text|, length);
    }
  }

  lemma ScaleMonotone(p: nat, q: nat, size: nat, length: nat)
    requires p <= q && length > 0
    ensures p * size / length <= q * size / length
  {
    MulMonotone(p, q, size);
    DivMonotone(p * size, q * size, length);
  }

  // Snapping and the never-go-backwards clamp together move a tag at most three characters away
  // from its proportional position, and a leading tag not at all.
  lemma {:induction false} LandsNear(text: string, sorted: seq<Tag>, length: nat, textPos: nat, k: nat)
    requires textPos <= |text| && k < |sorted| && SortedByPos(sorted)
    requires length > 0 || text == ""
    requires textPos <= Target(text, sorted[0].pos, length) + 3
    requires sorted[0].pos == 0 ==> textPos == 0
    ensures var p, t := Landed(text, sorted, length, textPos)[k].pos, Target(text, sorted[k].pos, length);
      t - 3 <= p <= t + 3 && (sorted[k].pos == 0 ==> p == 0)
  {
    var p := Landing(text, sorted[0].pos, length, textPos);
    if sorted[0].pos > 0 && length > 0 {
      SnapNear(text, Scaled(sorted[0].pos, length, text), -3);
    }
    if k == 0 {
    } else {
      TargetMonotone(text, sorted[0].pos, sorted[1].pos, length);
      LandsNear(text, sorted[1..], length, p, k - 1);
    }
  }

  lemma {:induction false} RestoredTagsLandNear(text: string, tagInfo: seq<Tag>, length: nat, k: nat)
    requires k < |tagInfo|
    ensures |Placed(text, tagInfo, length)| == |SortByPos(tagInfo)| == |tagInfo|
    ensures var p, tag := Placed(text, tagInfo, length)[k].pos, SortByPos(tagInfo)[k];
      var t := Target(text, tag.pos, EffectiveLength(text, length));
      t - 3 <= p <= t + 3 && (tag.pos == 0 ==> p == 0)
  {
    SortKeepsTags(tagInfo);
    LandsNear(text, SortByPos(tagInfo), EffectiveLength(text, length), 0, k);
  }

  lemma LandingExactly(text: string, pos: nat, length: nat, textPos: nat, at: nat, to: int)
    requires 0 < pos && 0 < length && textPos <= |text|
    requires at * length <= pos * |text| < (at + 1) * length
    requires if exists i :: at - 3 <= i <= at + 3 && IsBoundary(text, i)
      then at - 3 <= to <= at + 3 && IsBoundary(text, to) && forall i :: at - 3 <= i < to ==> !IsBoundary(text, i)
      else to == at
    ensures var p := Landing(text, pos, length, textPos);
      p == if to < textPos then textPos else if to <= |text| then to else |text|
  {
    hide IsBoundary, Snap;
    QuotientIs(pos * |text|, length, at);
    SnapLeftmost(text, at, -3);
  }

  // Restoration is proportional: a tag at pos of a clean text of that length lands less than four characters from
  // pos / length of the translation, clamps included; leading tags stay in front, and tags behind the text go to
  // its end. A missing length, passed as 0, is that of the translation.
  lemma {:induction false} TagsLandProportionally(text: string, tagInfo: seq<Tag>, length: nat, k: nat)
    requires k < |tagInfo|
    ensures |Placed(text, tagInfo, length)| == |SortByPos(tagInfo)| == |tagInfo|
    ensures var p, pos := Placed(text, tagInfo, length)[k].pos, SortByPos(tagInfo)[k].pos;
      var n, whole := |text|, if length == 0 then |text| else length;
      && (pos == 0 ==> p == 0)
      && (0 < whole && pos <= whole ==> (p - 3) * whole <= pos * n < (p + 4) * whole)
      && (pos >= whole ==> n - 3 <= p <= n)
  {
    hide Landed;
    var n, whole := |text|, EffectiveLength(text, length);
    RestoredTagsLandNear(text, tagInfo, length, k);
    LandedOrdered(text, SortByPos(tagInfo), whole, 0);
    OrderedInside(Placed(text, tagInfo, length), 0, n, k);
    var p: int := Placed(text, tagInfo, length)[k].pos;
    var pos := SortByPos(tagInfo)[k].pos;
    hide Target, Placed, SortByPos;
    if whole > 0 {
      TargetBetween(text, pos, whole);
      var t := Target(text, pos, whole);
      if pos <= whole {
        MulMonotoneInt(p - 3, t, whole);
        MulMonotoneInt(t + 1, p + 4, whole);
      }
    }
  }

  // A place behind a word: a blank or a backslash comes next, or nothing.
  predicate EndsWord(text: string, i: int) {
    (0 <= i < |text| && text[i] in " \\") || i == |text|
  }

  // The leftmost such place no more than three characters from `at`; `at` itself when there is none.
  predicate LeftmostInReach(text: string, at: int, to: int) {
    if exists i :: at - 3 <= i <= at + 3 && EndsWord(text, i)
    then at - 3 <= to <= at + 3 && EndsWord(text, to) && forall i :: at - 3 <= i < to ==> !EndsWord(text, i)
    else to == at
  }

  lemma BoundariesEndWords(text: string)
    ensures forall i :: IsBoundary(text, i) <==> EndsWord(text, i)
  {
  }

  lemma {:induction false} LandedAt(text: string, sorted: seq<Tag>, length: nat, textPos: nat, k: nat)
    requires textPos <= |text| && k < |sorted|
    ensures var landed := Landed(text, sorted, length, textPos);
      var before := if k == 0 then textPos else landed[k - 1].pos;
      before <= |text| && landed[k].pos == Landing(text, sorted[k].pos, length, before)
  {
    hide Landing;
    if k > 0 {
      LandedAt(text, sorted[1..], length, Landing(text, sorted[0].pos, length, textPos), k - 1);
    }
  }

  // Exactly: behind the tag before it, inside the text, and apart from that at the leftmost word boundary within
  // three characters of its proportional position `at`, or at `at` when there is none.
  lemma {:induction false} TagsLandExactly(text: string, tagInfo: seq<Tag>, length: nat, k: nat, at: nat, to: int)
    requires k < |tagInfo| && 0 < length && 0 < SortByPos(tagInfo)[k].pos
    requires at * length <= SortByPos(tagInfo)[k].pos * |text| < (at + 1) * length
    requires LeftmostInReach(text, at, to)
    ensures |Placed(text, tagInfo, length)| == |tagInfo|
    ensures var placed := Placed(text, tagInfo, length);
      var before := if k == 0 then 0 else placed[k - 1].pos;
      placed[k].pos == if to < before then before else if to <= |text| then to else |text|
  {
    BoundariesEndWords(text);
    hide Landed, Landing, SortByPos, IsBoundary, EndsWord;
    var sorted := SortByPos(tagInfo);
    LandedAt(text, sorted, length, 0, k);
    LandingExactly(text, sorted[k].pos, length, if k == 0 then 0 else Placed(text, tagInfo, length)[k - 1].pos, at, to);
  }

  lemma MulMonotoneInt(x: int, y: int, d: nat)
    requires x <= y
    ensures x * d <= y * d
  {
  }

  lemma TargetBetween(text: string, pos: nat, length: nat)
    requires length > 0
    ensures var t, n := Target(text, pos, length), |text|;
      && (pos <= length ==> t * length <= pos * n < (t + 1) * length)
      && (pos >= length ==> t == n)
  {
    var n := |text|;
    QuotientBounds(pos * n, length);
    if pos <= length {
      ScaleMonotone(pos, length, n, length);
      DivideProduct(n, length);
    } else {
      ScaleMonotone(length, pos, n, length);
      DivideProduct(n, length);
    }
  }

  lemma {:induction false} OrderedInside(tags: seq<Tag>, from: nat, n: nat, k: nat)
    requires Ordered(tags, from, n) && k < |tags|
    ensures from <= tags[k].pos <= n
  {
    if k > 0 {
      OrderedInside(tags[1..], tags[0].pos, n, k - 1);
    }
  }

  // The centre of the design: tags taken from any line and restored into a translation come out
  // again unchanged and in order, at their landing positions, around exactly that translation --
  // if and only if no brace of the translation itself opens in front of a landing tag or forms a
  // tag behind the last one.
  lemma {:induction false} RestoreThenExtract(line: string, translated: string, length: nat)
    ensures var placed := Placed(translated, TagInfo(line), length);
      var restored := Restored(translated, TagInfo(line), length);
      && Ordered(placed, 0, |translated|)
      && Texts(placed) == FindTags(line)
      && (CleanText(restored) == translated && TagInfo(restored) == placed
          <==> Undisturbed(Pieces(translated, placed, 0)))
      && ('{' !in translated ==> Undisturbed(Pieces(translated, placed, 0)))
  {
    var tags := TagInfo(line);
    var placed := Placed(translated, tags, length);
    ExtractedSorted(SplitTags(line), FindTags(line), 0);
    SortKeepsTags(tags);
    RecordedPieces(SplitTags(line), FindTags(line), CleanText(line), 0);
    FoundAreTags(line);
    LandedOrdered(translated, tags, EffectiveLength(translated, length), 0);
    WeaveThenExtract(translated, placed);
    if '{' !in translated {
      BraceFreeUndisturbed(translated, placed);
    }
  }

  // No word boundary in the three characters in front of a position, and none behind it unless it is one itself.
  predicate Anchored(text: string, pos: nat) {
    && (forall i :: pos - 3 <= i < pos ==> !IsBoundary(text, i))
    && (IsBoundary(text, pos) || forall i :: pos < i <= pos + 3 ==> !IsBoundary(text, i))
  }

  predicate AllAnchored(text: string, tags: seq<Tag>) {
    forall k :: 0 <= k < |tags| ==> tags[k].pos == 0 || Anchored(text, tags[k].pos)
  }

  lemma AnchoredStays(text: string, pos: nat)
    ensures Snap(text, pos, -3) == pos <==> Anchored(text, pos)
  {
    SnapLeftmost(text, pos, -3);
  }

  lemma LandsHomeFirst(text: string, pos: nat, textPos: nat)
    requires textPos <= pos <= |text| && (textPos == 0 || Anchored(text, textPos))
    ensures Landing(text, pos, |text|, textPos) == pos <==> pos == 0 || Anchored(text, pos)
  {
    hide Snap, Anchored;
    AnchoredStays(text, pos);
    SnapLeftmost(text, pos, -3);
    if pos > 0 {
      DivideProduct(pos, |text|);
    }
  }

  lemma {:induction false} LandsHome(text: string, sorted: seq<Tag>, textPos: nat)
    requires Ordered(sorted, textPos, |text|) && textPos <= |text| && (textPos == 0 || Anchored(text, textPos))
    ensures Landed(text, sorted, |text|, textPos) == sorted <==> AllAnchored(text, sorted)
  {
    hide Anchored, Landing;
    if sorted != [] {
      LandsHomeFirst(text, sorted[0].pos, textPos);
      HeadAndTail(sorted);
      if sorted[0].pos == 0 || Anchored(text, sorted[0].pos) {
        LandsHome(text, sorted[1..], sorted[0].pos);
      }
    }
  }

  // Without a translation: the tags of a line, restored into its own clean text, give the line back exactly when
  // each of them is at the start or is anchored in that text.
  lemma {:induction false} RestoreOwnTags(line: string)
    ensures var text := CleanText(line);
      Restored(text, TagInfo(line), |text|) == line <==> AllAnchored(text, TagInfo(line))
  {
    hide AllAnchored, Landed, SplitTags, FindTags, Recorded, Undisturbed;
    var text, tags := CleanText(line), TagInfo(line);
    var placed := Placed(text, tags, |text|);
    ExtractThenWeave(line);
    ExtractedSorted(SplitTags(line), FindTags(line), 0);
    SortKeepsTags(tags);
    LandsHome(text, tags, 0);
    LandedOrdered(text, tags, |text|, 0);
    if Restored(text, tags, |text|) == line {
      RecordedPieces(SplitTags(line), FindTags(line), text, 0);
      FoundAgain(Pieces(text, placed, 0), Texts(placed));
      WeaveThenExtract(text, placed);
    }
  }

  // A stray opening brace in the translation does break it: the tag of the line `x{i}`, restored into the
  // translation `{`, comes out as a longer tag around no text at all.
  lemma {:induction false} StrayBraceSwallows()
    ensures TagInfo("x{i}") == [Tag(1, "{i}")] && CleanText("x{i}") == "x"
    ensures Restored("{", TagInfo("x{i}"), 1) == "{{i}"
    ensures CleanText("{{i}") == "" && TagInfo("{{i}") == [Tag(0, "{{i}")]
    ensures !Undisturbed(Pieces("{", Placed("{", TagInfo("x{i}"), 1), 0))
  {
    hide Placed, Pieces, SplitTags, FindTags, Recorded, Concat, Snap, SortByPos, Landed, HasTag;
    OneTag("x", "{i}");
    OneTag("", "{{i}");
    assert "x" + "{i}" == "x{i}" && "" + "{{i}" == "{{i}";
    StrayBracePlaced();
    StrayBraceWoven();
  }

  lemma StrayBraceWoven()
    ensures var placed := [Tag(1, "{i}")];
      && Ordered(placed, 0, 1) && Weave("{", placed) == "{{i}" && !Undisturbed(Pieces("{", placed, 0))
  {
    var placed := [Tag(1, "{i}")];
    var parts := Pieces("{", placed, 0);
    var text := "{";
    assert text[0..1] == text && text[1..] == "";
    assert placed[1..] == [] && Pieces(text, [], 1) == [text[1..]];
    assert Pieces(text, placed, 0) == [text[0..1]] + Pieces(text, [], 1);
    assert Texts(placed) == ["{i}"];
    assert parts[1..] == [""] && ["{i}"][1..] == [];
    assert parts[..1][0] == "{";
  }

  lemma OneTag(part: string, tag: string)
    requires '{' !in part && IsTagText(tag)
    ensures CleanText(part + tag) == part && TagInfo(part + tag) == [Tag(|part|, tag)]
  {
    FirstMatch(part, tag, "");
    assert part + tag + "" == part + tag;
    assert SplitTags("") == [""] && FindTags("") == [];
    assert ([part] + [""])[1..] == [""] && ([tag] + [])[1..] == [];
    assert Concat([""]) == "" + Concat([]);
  }

  lemma StrayBracePlaced()
    ensures Placed("{", [Tag(1, "{i}")], 1) == [Tag(1, "{i}")]
  {
    var tags := [Tag(1, "{i}")];
    assert Snap("{", 1, -3) == Snap("{", 1, -2) == Snap("{", 1, -1) == Snap("{", 1, 0) == 1;
    assert SortByPos(tags) == InsertByPos(tags[0], SortByPos([])) == tags;
    assert Landed("{", tags, 1, 0) == [Tag(1, "{i}")] + Landed("{", [], 1, 1);
  }
}

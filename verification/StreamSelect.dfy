/** Which embedded subtitle stream is used: a cascade of searches, and the one ranking it amounts to. */
module StreamSpec {
  import opened PyText

  // What ffprobe reports about a stream, texts in lower case and missing ones empty.
  datatype Stream = Stream(index: int, isSubtitle: bool, codec: string, title: string, language: string, lang: string)

  datatype Filter = AnyFormat | OnlyAss | OnlySrt

  datatype Format = Ass | Srt

  datatype Tags = Tags(source: set<string>, target: set<string>)

  datatype Info = Info(subIndex: nat, streamIndex: int, title: string, language: string, format: Format)

  // ---- candidates ------------------------------------------------------------------------------

  // How many subtitle streams come before the i-th stream.
  function SubtitlesBefore(streams: seq<Stream>, i: nat): nat
    requires i <= |streams|
  {
    if i == 0 then 0 else SubtitlesBefore(streams, i - 1) + if streams[i - 1].isSubtitle then 1 else 0
  }

  predicate HasFormat(stream: Stream, filter: Filter, format: Format) {
    stream.isSubtitle
    && match format
       case Ass => stream.codec in ["ass", "ssa"] && filter != OnlySrt
       case Srt => stream.codec in ["subrip", "srt", "mov_text", "webvtt", "text", "microdvd"] && filter != OnlyAss
  }

  function InfoAt(streams: seq<Stream>, i: nat, format: Format): Info
    requires i < |streams|
  {
    var s := streams[i];
    Info(SubtitlesBefore(streams, i), s.index, s.title, s.language, format)
  }

  // The infos of all streams of the format among the first n, in order.
  function Listed(streams: seq<Stream>, filter: Filter, format: Format, n: nat): seq<Info>
    requires n <= |streams|
  {
    if n == 0 then []
    else if HasFormat(streams[n - 1], filter, format) then
      Listed(streams, filter, format, n - 1) + [InfoAt(streams, n - 1, format)]
    else Listed(streams, filter, format, n - 1)
  }

  lemma {:induction false} CountsUp(streams: seq<Stream>, i: nat, j: nat)
    requires i <= j <= |streams|
    ensures SubtitlesBefore(streams, i) <= SubtitlesBefore(streams, j)
    ensures i < j && streams[i].isSubtitle ==> SubtitlesBefore(streams, i) < SubtitlesBefore(streams, j)
  {
    if i < j {
      CountsUp(streams, i, j - 1);
    }
  }

  // The number of earlier subtitle streams tells subtitle streams apart and orders them.
  lemma SubIndexOrders(streams: seq<Stream>, i: nat, j: nat)
    requires i < |streams| && j < |streams| && streams[i].isSubtitle && streams[j].isSubtitle
    ensures SubtitlesBefore(streams, i) < SubtitlesBefore(streams, j) <==> i < j
    ensures SubtitlesBefore(streams, i) == SubtitlesBefore(streams, j) <==> i == j
  {
    if i < j {
      CountsUp(streams, i, j);
    } else {
      CountsUp(streams, j, i);
    }
  }

  // The k-th listed info describes a stream of the format that comes before the later listed ones.
  lemma {:induction false} ListedAt(streams: seq<Stream>, filter: Filter, format: Format, n: nat, k: nat)
    returns (i: nat)
    requires n <= |streams| && k < |Listed(streams, filter, format, n)|
    ensures i < n && HasFormat(streams[i], filter, format)
    ensures Listed(streams, filter, format, n)[k] == InfoAt(streams, i, format)
    ensures Listed(streams, filter, format, i) == Listed(streams, filter, format, n)[..k]
  {
    var shorter := Listed(streams, filter, format, n - 1);
    i := n - 1;
    if k < |shorter| {
      i := ListedAt(streams, filter, format, n - 1, k);
    }
  }

  // Every stream of the format is listed, after as many as are listed before it.
  lemma {:induction false} ListedFinds(streams: seq<Stream>, filter: Filter, format: Format, n: nat, i: nat)
    requires i < n <= |streams| && HasFormat(streams[i], filter, format)
    ensures var k := |Listed(streams, filter, format, i)|;
      && k < |Listed(streams, filter, format, n)|
      && Listed(streams, filter, format, n)[k] == InfoAt(streams, i, format)
  {
    if i < n - 1 {
      ListedFinds(streams, filter, format, n - 1, i);
    }
  }

  // ---- the ranking -----------------------------------------------------------------------------

  // Neither signs nor songs.
  predicate IsDialogue(info: Info) {
    !Contains(info.title, "sign") && !Contains(info.title, "song")
  }

  predicate IsFull(info: Info) {
    Contains(info.title, "full") && IsDialogue(info)
  }

  predicate InSource(tags: Tags, info: Info) {
    info.language in tags.source
  }

  predicate InTarget(tags: Tags, info: Info) {
    info.language in tags.target
  }

  function Rank(tags: Tags, info: Info): (rank: nat)
    ensures rank < 8
    ensures info.format == Srt <==> rank in {4, 5, 6}
  {
    match info.format
    case Ass =>
      if IsFull(info) then 0
      else if InSource(tags, info) && IsDialogue(info) then 1
      else if InSource(tags, info) then 2
      else if !InTarget(tags, info) && IsDialogue(info) then 3
      else 7
    case Srt =>
      if InSource(tags, info) then 4
      else if !InTarget(tags, info) then 5
      else 6
  }

  predicate IsCandidate(streams: seq<Stream>, filter: Filter, i: nat, format: Format)
    requires i < |streams|
  {
    HasFormat(streams[i], filter, format)
  }

  function RankAt(streams: seq<Stream>, tags: Tags, i: nat, format: Format): nat
    requires i < |streams|
  {
    Rank(tags, InfoAt(streams, i, format))
  }

  // Stream k in this format has the least (rank, position) of all streams that pass the filter.
  ghost predicate IsLeast(streams: seq<Stream>, filter: Filter, tags: Tags, k: nat, format: Format)
    requires k < |streams|
  {
    && IsCandidate(streams, filter, k, format)
    && forall i, other: Format :: 0 <= i < |streams| && IsCandidate(streams, filter, i, other) ==>
        RankAt(streams, tags, k, format) < RankAt(streams, tags, i, other)
        || (RankAt(streams, tags, k, format) == RankAt(streams, tags, i, other) && k <= i)
  }

  // Nothing is chosen when nothing passes the filter, and the least stream otherwise.
  ghost predicate IsBestChoice(streams: seq<Stream>, filter: Filter, tags: Tags, choice: Option<Info>) {
    match choice
    case None => forall i, format: Format :: 0 <= i < |streams| ==> !IsCandidate(streams, filter, i, format)
    case Some(info) =>
      exists k :: 0 <= k < |streams| && IsLeast(streams, filter, tags, k, info.format)
        && info == InfoAt(streams, k, info.format)
  }

  // A stream is chosen exactly when one passes the filter.
  lemma ChosenIfAny(streams: seq<Stream>, filter: Filter, tags: Tags, choice: Option<Info>)
    requires IsBestChoice(streams, filter, tags, choice)
    ensures choice.Some? <==> exists i, format: Format :: 0 <= i < |streams| && IsCandidate(streams, filter, i, format)
  {
    if choice.Some? {
      var k :| 0 <= k < |streams| && IsLeast(streams, filter, tags, k, choice.value.format);
      assert IsCandidate(streams, filter, k, choice.value.format);
    }
  }

  // There is only one best choice, so the ranking says everything about the cascade.
  lemma BestChoiceUnique(streams: seq<Stream>, filter: Filter, tags: Tags, a: Option<Info>, b: Option<Info>)
    requires IsBestChoice(streams, filter, tags, a) && IsBestChoice(streams, filter, tags, b)
    ensures a == b
  {
    hide Rank, InfoAt, HasFormat;
    ChosenIfAny(streams, filter, tags, a);
    ChosenIfAny(streams, filter, tags, b);
    if a.Some? {
      var x, y := a.value, b.value;
      var i :| 0 <= i < |streams| && IsLeast(streams, filter, tags, i, x.format) && x == InfoAt(streams, i, x.format);
      var j :| 0 <= j < |streams| && IsLeast(streams, filter, tags, j, y.format) && y == InfoAt(streams, j, y.format);
      assert i == j;
      OneFormat(streams[i], filter, x.format, y.format);
    }
  }

  lemma OneFormat(stream: Stream, filter: Filter, a: Format, b: Format)
    requires HasFormat(stream, filter, a) && HasFormat(stream, filter, b)
    ensures a == b
  {
  }

  // ---- one stage of the cascade ----------------------------------------------------------------

  // r is the k-th info, the first one that is wanted.
  ghost predicate IsFirst(infos: seq<Info>, wanted: Info -> bool, k: nat) {
    k < |infos| && wanted(infos[k]) && forall j :: 0 <= j < k ==> !wanted(infos[j])
  }

  predicate AllAtLeast(tags: Tags, infos: seq<Info>, rank: nat) {
    forall k :: 0 <= k < |infos| ==> Rank(tags, infos[k]) >= rank
  }

  // Within the better ranks excluded, the stage wants exactly the infos of one rank.
  ghost predicate WantsRank(tags: Tags, infos: seq<Info>, wanted: Info -> bool, rank: nat) {
    forall k :: 0 <= k < |infos| ==> (wanted(infos[k]) <==> Rank(tags, infos[k]) == rank)
  }

  lemma NextRank(tags: Tags, infos: seq<Info>, wanted: Info -> bool, rank: nat)
    requires AllAtLeast(tags, infos, rank) && WantsRank(tags, infos, wanted, rank)
    requires forall k :: 0 <= k < |infos| ==> !wanted(infos[k])
    ensures AllAtLeast(tags, infos, rank + 1)
  {
  }

  // The first info of the best rank is the best choice.
  lemma FirstIsBest(streams: seq<Stream>, filter: Filter, tags: Tags, format: Format, other: Format,
      wanted: Info -> bool, k: nat, rank: nat)
    requires var infos := Listed(streams, filter, format, |streams|);
      && IsFirst(infos, wanted, k) && AllAtLeast(tags, infos, rank) && WantsRank(tags, infos, wanted, rank)
    requires format != other && AllAtLeast(tags, Listed(streams, filter, other, |streams|), rank + 1)
    ensures IsBestChoice(streams, filter, tags, Some(Listed(streams, filter, format, |streams|)[k]))
  {
    hide Rank, InfoAt, HasFormat, Listed;
    var infos := Listed(streams, filter, format, |streams|);
    var at := ListedAt(streams, filter, format, |streams|, k);
    forall i, f: Format | 0 <= i < |streams| && IsCandidate(streams, filter, i, f)
      ensures rank < RankAt(streams, tags, i, f) || (rank == RankAt(streams, tags, i, f) && at <= i)
    {
      ListedFinds(streams, filter, f, |streams|, i);
      var j := |Listed(streams, filter, f, i)|;
      if f == format && j < k {
        assert !wanted(infos[j]);
      } else if f == format && i < at {
        ListedShorter(streams, filter, format, i, at);
      }
    }
    FormatOfInfo(streams, at, format);
  }

  lemma FormatOfInfo(streams: seq<Stream>, i: nat, format: Format)
    requires i < |streams|
    ensures InfoAt(streams, i, format).format == format
  {
  }

  lemma {:induction false} ListedShorter(streams: seq<Stream>, filter: Filter, format: Format, i: nat, n: nat)
    requires i < n <= |streams| && HasFormat(streams[i], filter, format)
    ensures |Listed(streams, filter, format, i)| < |Listed(streams, filter, format, n)|
  {
    ListedFinds(streams, filter, format, n, i);
  }

  lemma NothingListed(streams: seq<Stream>, filter: Filter, tags: Tags)
    requires forall format: Format :: Listed(streams, filter, format, |streams|) == []
    ensures IsBestChoice(streams, filter, tags, None)
  {
    forall i, format: Format | 0 <= i < |streams|
      ensures !IsCandidate(streams, filter, i, format)
    {
      if IsCandidate(streams, filter, i, format) {
        ListedFinds(streams, filter, format, |streams|, i);
      }
    }
  }

  // ---- what the choice means -------------------------------------------------------------------

  // When some ASS stream is in the source language, the chosen one is too, unless it is a full ASS stream.
  lemma ForeignOnlyIfFull(streams: seq<Stream>, filter: Filter, tags: Tags, info: Info, i: nat)
    requires IsBestChoice(streams, filter, tags, Some(info))
    requires i < |streams| && IsCandidate(streams, filter, i, Ass) && InSource(tags, InfoAt(streams, i, Ass))
    ensures info.format == Ass && (InSource(tags, info) || IsFull(info))
  {
    hide IsFull, IsDialogue;
    var k :| 0 <= k < |streams| && IsLeast(streams, filter, tags, k, info.format)
      && info == InfoAt(streams, k, info.format);
    assert RankAt(streams, tags, i, Ass) <= 2;
  }

  predicate IsFullAss(streams: seq<Stream>, filter: Filter, i: nat)
    requires i < |streams|
  {
    IsCandidate(streams, filter, i, Ass) && IsFull(InfoAt(streams, i, Ass))
  }

  predicate IsFirstFullAss(streams: seq<Stream>, filter: Filter, i: nat)
    requires i < |streams|
  {
    IsFullAss(streams, filter, i) && forall j :: 0 <= j < i ==> !IsFullAss(streams, filter, j)
  }

  lemma FirstFullExists(streams: seq<Stream>, filter: Filter, i: nat) returns (k: nat)
    requires i < |streams| && IsFullAss(streams, filter, i)
    ensures k <= i && IsFirstFullAss(streams, filter, k)
  {
    hide IsFullAss;
    k := i;
    if j :| 0 <= j < i && IsFullAss(streams, filter, j) {
      k := FirstFullExists(streams, filter, j);
    }
  }

  // A full ASS stream is chosen whenever there is one, and it is the first.
  lemma FirstFullChosen(streams: seq<Stream>, filter: Filter, tags: Tags, info: Info, i: nat)
    requires IsBestChoice(streams, filter, tags, Some(info))
    requires i < |streams| && IsFirstFullAss(streams, filter, i)
    ensures info == InfoAt(streams, i, Ass)
  {
    hide IsFull, HasFormat;
    var k :| 0 <= k < |streams| && IsLeast(streams, filter, tags, k, info.format)
      && info == InfoAt(streams, k, info.format);
    assert RankAt(streams, tags, i, Ass) == 0;
    assert RankAt(streams, tags, k, info.format) == 0 && k <= i;
    assert info.format == Ass && IsFullAss(streams, filter, k);
  }

  // When some ASS stream is in the source language, the chosen one is too if and only if there is no full ASS
  // stream, or the first of them is in the source language.
  lemma SourceChosenExactly(streams: seq<Stream>, filter: Filter, tags: Tags, info: Info, i: nat)
    requires IsBestChoice(streams, filter, tags, Some(info))
    requires i < |streams| && IsCandidate(streams, filter, i, Ass) && InSource(tags, InfoAt(streams, i, Ass))
    ensures InSource(tags, info) <==>
      forall k :: 0 <= k < |streams| && IsFirstFullAss(streams, filter, k) ==> InSource(tags, InfoAt(streams, k, Ass))
  {
    hide IsFull, IsDialogue, HasFormat, Rank;
    ForeignOnlyIfFull(streams, filter, tags, info, i);
    forall k | 0 <= k < |streams| && IsFirstFullAss(streams, filter, k)
      ensures info == InfoAt(streams, k, Ass)
    {
      FirstFullChosen(streams, filter, tags, info, k);
    }
    if IsFull(info) {
      var chosen :| 0 <= chosen < |streams| && IsLeast(streams, filter, tags, chosen, info.format)
        && info == InfoAt(streams, chosen, info.format);
      var k := FirstFullExists(streams, filter, chosen);
    }
  }

  // ---- what can be chosen, and how it is numbered ------------------------------------------------

  // The subtitle streams in front of the i-th stream.
  ghost function SubtitlePositions(streams: seq<Stream>, i: nat): set<nat>
    requires i <= |streams|
  {
    set j: nat | j < i && streams[j].isSubtitle
  }

  lemma {:induction false} SubIndexCounts(streams: seq<Stream>, i: nat)
    requires i <= |streams|
    ensures SubtitlesBefore(streams, i) == |SubtitlePositions(streams, i)|
  {
    if i == 0 {
      assert SubtitlePositions(streams, 0) == {};
    } else {
      SubIndexCounts(streams, i - 1);
      PositionsGrow(streams, i);
      hide SubtitlePositions;
    }
  }

  lemma PositionsGrow(streams: seq<Stream>, i: nat)
    requires 0 < i <= |streams|
    ensures i - 1 !in SubtitlePositions(streams, i - 1)
    ensures SubtitlePositions(streams, i)
      == SubtitlePositions(streams, i - 1) + if streams[i - 1].isSubtitle then {(i - 1) as nat} else {}
  {
  }

  // A stream that the client can use, as far as the filter lets it.
  predicate IsUsable(s: Stream, filter: Filter) {
    s.isSubtitle &&
      if s.codec == "ass" || s.codec == "ssa" then filter != OnlySrt
      else s.codec in ["subrip", "srt", "mov_text", "webvtt", "text", "microdvd"] && filter != OnlyAss
  }

  ghost predicate Describes(streams: seq<Stream>, k: nat, info: Info)
    requires k < |streams|
  {
    && info.subIndex == |SubtitlePositions(streams, k)| && info.streamIndex == streams[k].index
    && info.title == streams[k].title && info.language == streams[k].language
    && (info.format == Ass <==> streams[k].codec == "ass" || streams[k].codec == "ssa")
  }

  // A choice is made exactly when some stream is usable. It is then such a stream, described by its own data, and
  // numbered by the subtitle streams in front of it; it counts as ASS exactly when its codec is ASS or SSA.
  lemma ChoiceDescribes(streams: seq<Stream>, filter: Filter, tags: Tags, choice: Option<Info>)
    requires IsBestChoice(streams, filter, tags, choice)
    ensures choice.Some? <==> exists s :: s in streams && IsUsable(s, filter)
    ensures choice.Some? ==>
      exists k: nat :: k < |streams| && IsUsable(streams[k], filter) && Describes(streams, k, choice.value)
  {
    ChosenIfAny(streams, filter, tags, choice);
    forall i, format: Format | 0 <= i < |streams| && IsCandidate(streams, filter, i, format)
      ensures streams[i] in streams && IsUsable(streams[i], filter)
      ensures format == Ass <==> streams[i].codec == "ass" || streams[i].codec == "ssa"
    {
    }
    forall s | s in streams && IsUsable(s, filter)
      ensures exists i, format: Format :: 0 <= i < |streams| && IsCandidate(streams, filter, i, format)
    {
      var i :| 0 <= i < |streams| && streams[i] == s;
      assert IsCandidate(streams, filter, i, if s.codec == "ass" || s.codec == "ssa" then Ass else Srt);
    }
    if choice.Some? {
      var k: nat :| k < |streams| && IsLeast(streams, filter, tags, k, choice.value.format)
        && choice.value == InfoAt(streams, k, choice.value.format);
      assert IsCandidate(streams, filter, k, choice.value.format);
      SubIndexCounts(streams, k);
      assert Describes(streams, k, choice.value);
    }
  }

  // ---- the priorities in order -------------------------------------------------------------------

  const STAGES := 8

  function StageFormat(stage: nat): Format {
    if stage < 4 || stage == 7 then Ass else Srt
  }

  // What each stage looks for, in terms of title and language.
  predicate Wanted(tags: Tags, stage: nat, s: Stream) {
    match stage
    case 0 => Contains(s.title, "full") && !Contains(s.title, "sign") && !Contains(s.title, "song")
    case 1 => s.language in tags.source && !Contains(s.title, "sign") && !Contains(s.title, "song")
    case 2 => s.language in tags.source
    case 3 => s.language !in tags.target && !Contains(s.title, "sign") && !Contains(s.title, "song")
    case 4 => s.language in tags.source
    case 5 => s.language !in tags.target
    case _ => true
  }

  predicate MeetsStage(streams: seq<Stream>, filter: Filter, tags: Tags, stage: nat, i: nat)
    requires i < |streams|
  {
    HasFormat(streams[i], filter, StageFormat(stage)) && Wanted(tags, stage, streams[i])
  }

  ghost predicate Offers(streams: seq<Stream>, filter: Filter, tags: Tags, stage: nat) {
    exists i :: 0 <= i < |streams| && MeetsStage(streams, filter, tags, stage, i)
  }

  ghost predicate IsFirstOf(streams: seq<Stream>, filter: Filter, tags: Tags, stage: nat, info: Info) {
    exists k :: 0 <= k < |streams| && MeetsStage(streams, filter, tags, stage, k)
      && info == InfoAt(streams, k, StageFormat(stage))
      && forall i :: 0 <= i < k ==> !MeetsStage(streams, filter, tags, stage, i)
  }

  // A stream that no earlier stage wants has the rank of a stage exactly when that stage wants it.
  lemma RankIsStage(streams: seq<Stream>, filter: Filter, tags: Tags, stage: nat, i: nat, format: Format)
    requires stage < STAGES && i < |streams| && HasFormat(streams[i], filter, format)
    requires forall earlier: nat :: earlier < stage ==> !MeetsStage(streams, filter, tags, earlier, i)
    ensures RankAt(streams, tags, i, format) >= stage
    ensures RankAt(streams, tags, i, format) == stage <==>
      format == StageFormat(stage) && MeetsStage(streams, filter, tags, stage, i)
  {
    hide HasFormat, Contains;
    OneFormatOnly(streams[i], filter, format);
    assert forall earlier: nat {:trigger Wanted(tags, earlier, streams[i])} ::
      earlier < stage && format == StageFormat(earlier) ==> !Wanted(tags, earlier, streams[i]) by {
      forall earlier: nat | earlier < stage && format == StageFormat(earlier)
        ensures !Wanted(tags, earlier, streams[i])
      {
        assert !MeetsStage(streams, filter, tags, earlier, i);
      }
    }
    RankFromStages(tags, streams[i], InfoAt(streams, i, format), stage);
  }

  lemma OneFormatOnly(stream: Stream, filter: Filter, format: Format)
    requires HasFormat(stream, filter, format)
    ensures forall other: Format :: HasFormat(stream, filter, other) ==> other == format
  {
  }

  lemma RankFromStages(tags: Tags, s: Stream, info: Info, stage: nat)
    requires stage < STAGES && info.title == s.title && info.language == s.language
    requires forall earlier: nat {:trigger Wanted(tags, earlier, s)} ::
      earlier < stage && info.format == StageFormat(earlier) ==> !Wanted(tags, earlier, s)
    ensures Rank(tags, info) >= stage
    ensures Rank(tags, info) == stage <==> info.format == StageFormat(stage) && Wanted(tags, stage, s)
  {
    hide Contains;
    var r := Rank(tags, info);
    assert info.format == StageFormat(r) && Wanted(tags, r, s);
    if r > stage && info.format == StageFormat(stage) {
      NotWantedBefore(tags, s, info, stage);
    }
  }

  lemma NotWantedBefore(tags: Tags, s: Stream, info: Info, stage: nat)
    requires info.title == s.title && info.language == s.language
    requires stage < Rank(tags, info) && info.format == StageFormat(stage)
    ensures !Wanted(tags, stage, s)
  {
    hide Contains;
  }

  // The priorities, each with its own search: the choice is the first stream that is wanted by the first stage
  // that any stream meets.
  lemma StagesInOrder(streams: seq<Stream>, filter: Filter, tags: Tags, info: Info, stage: nat)
    requires IsBestChoice(streams, filter, tags, Some(info))
    requires stage < STAGES && Offers(streams, filter, tags, stage)
    requires forall earlier: nat :: earlier < stage ==> !Offers(streams, filter, tags, earlier)
    ensures IsFirstOf(streams, filter, tags, stage, info)
  {
    hide Rank, HasFormat, Wanted, InfoAt;
    var k :| 0 <= k < |streams| && IsLeast(streams, filter, tags, k, info.format)
      && info == InfoAt(streams, k, info.format);
    var i :| 0 <= i < |streams| && MeetsStage(streams, filter, tags, stage, i);
    NoEarlier(streams, filter, tags, stage, i);
    NoEarlier(streams, filter, tags, stage, k);
    RankIsStage(streams, filter, tags, stage, i, StageFormat(stage));
    RankIsStage(streams, filter, tags, stage, k, info.format);
    assert forall j, f: Format :: 0 <= j < |streams| && HasFormat(streams[j], filter, f) ==>
      IsCandidate(streams, filter, j, f);
    forall j | 0 <= j < k
      ensures !MeetsStage(streams, filter, tags, stage, j)
    {
      if MeetsStage(streams, filter, tags, stage, j) {
        NoEarlier(streams, filter, tags, stage, j);
        RankIsStage(streams, filter, tags, stage, j, StageFormat(stage));
      }
    }
  }

  lemma NoEarlier(streams: seq<Stream>, filter: Filter, tags: Tags, stage: nat, i: nat)
    requires i < |streams| && forall earlier: nat :: earlier < stage ==> !Offers(streams, filter, tags, earlier)
    ensures forall earlier: nat :: earlier < stage ==> !MeetsStage(streams, filter, tags, earlier, i)
  {
    forall earlier: nat | earlier < stage
      ensures !MeetsStage(streams, filter, tags, earlier, i)
    {
      if MeetsStage(streams, filter, tags, earlier, i) {
        assert Offers(streams, filter, tags, earlier);
        assert false;
      }
    }
  }

  // When a stream passes the filter, one of the stages is met.
  lemma SomeStageOffers(streams: seq<Stream>, filter: Filter, tags: Tags, i: nat, format: Format)
    requires i < |streams| && IsCandidate(streams, filter, i, format)
    ensures Offers(streams, filter, tags, if format == Ass then 7 else 6)
  {
    assert MeetsStage(streams, filter, tags, if format == Ass then 7 else 6, i);
  }

  // The first priority does not look at the language: a full stream in the target language wins over one in
  // the source language.
  lemma FullTargetWins()
    ensures var tags := Tags({"en"}, {"de"});
      var streams := [Stream(2, true, "ass", "", "en", ""), Stream(3, true, "ass", "full", "de", "")];
      IsBestChoice(streams, AnyFormat, tags, Some(InfoAt(streams, 1, Ass)))
  {
    var tags := Tags({"en"}, {"de"});
    var streams := [Stream(2, true, "ass", "", "en", ""), Stream(3, true, "ass", "full", "de", "")];
    assert "full" <= "full"[0..];
    NotContained("full", "sign");
    NotContained("full", "song");
    assert Rank(tags, InfoAt(streams, 1, Ass)) == 0;
    NotContained("", "full");
    assert IsLeast(streams, AnyFormat, tags, 1, Ass);
  }

  lemma NotContained(s: string, needle: string)
    requires needle != "" && needle[0] !in s
    ensures !Contains(s, needle)
  {
    forall i | 0 <= i <= |s|
      ensures !(needle <= s[i..])
    {
      if i < |s| {
        assert s[i..][0] == s[i];
      }
    }
  }

  // ---- the embedded provider -------------------------------------------------------------------

  datatype Track = Track(streamIndex: int, subIndex: nat, language: string, codec: string)

  // The language of a stream in two letters; None when unknown or not asked for.
  function LanguageOf(stream: Stream, normalize: string -> Option<string>, requested: set<string>): Option<string> {
    var tag := if stream.language != "" then stream.language else stream.lang;
    var iso := if tag == "" then None else normalize(tag);
    if iso.Some? && (requested == {} || iso.value in requested) then iso else None
  }

  function Tracks(streams: seq<Stream>, normalize: string -> Option<string>, requested: set<string>, n: nat)
    : seq<Track>
    requires n <= |streams|
  {
    if n == 0 then []
    else
      var s := streams[n - 1];
      var language := LanguageOf(s, normalize, requested);
      Tracks(streams, normalize, requested, n - 1) + (
        if s.isSubtitle && language.Some? then
          [Track(s.index, SubtitlesBefore(streams, n - 1), language.value, s.codec)]
        else [])
  }

  lemma {:induction false} TrackAt(streams: seq<Stream>, normalize: string -> Option<string>,
      requested: set<string>, n: nat, t: Track) returns (i: nat)
    requires n <= |streams| && t in Tracks(streams, normalize, requested, n)
    ensures i < n && streams[i].isSubtitle
    ensures t.streamIndex == streams[i].index && t.subIndex == SubtitlesBefore(streams, i)
  {
    i := n - 1;
    if t in Tracks(streams, normalize, requested, n - 1) {
      i := TrackAt(streams, normalize, requested, n - 1, t);
    }
  }

  // The tracks of the provider: one for each subtitle stream whose tag, of language or else of lang, is known, and
  // asked for if anything is; numbered by the subtitle streams in front of it.
  lemma {:induction false} TracksExactly(streams: seq<Stream>, normalize: string -> Option<string>,
      requested: set<string>, n: nat)
    requires n <= |streams|
    ensures forall t: Track :: t in Tracks(streams, normalize, requested, n) <==>
      exists i: nat :: i < n && IsTrackOf(streams, normalize, requested, i, t)
  {
    if n == 0 {
    } else {
      TracksExactly(streams, normalize, requested, n - 1);
      TrackOfLast(streams, normalize, requested, n);
      hide IsTrackOf, LanguageOf;
    }
  }

  predicate IsTrackOf(streams: seq<Stream>, normalize: string -> Option<string>, requested: set<string>, i: nat,
      t: Track)
    requires i < |streams|
  {
    var s := streams[i];
    && s.isSubtitle && t.streamIndex == s.index && t.codec == s.codec && t.subIndex == SubtitlesBefore(streams, i)
    && (s.language != "" || s.lang != "")
    && normalize(if s.language == "" then s.lang else s.language) == Some(t.language)
    && (requested != {} ==> t.language in requested)
  }

  lemma TrackOfLast(streams: seq<Stream>, normalize: string -> Option<string>, requested: set<string>, n: nat)
    requires 0 < n <= |streams|
    ensures forall t: Track :: t in Tracks(streams, normalize, requested, n) <==>
      t in Tracks(streams, normalize, requested, n - 1) || IsTrackOf(streams, normalize, requested, n - 1, t)
  {
  }

  // The selection and the provider number streams alike: a chosen stream and a track have the same number
  // exactly when they are the same stream of the file.
  lemma NumberingsAgree(streams: seq<Stream>, filter: Filter, tags: Tags, info: Info,
      normalize: string -> Option<string>, requested: set<string>, t: Track)
    requires forall i, j :: 0 <= i < j < |streams| ==> streams[i].index != streams[j].index
    requires IsBestChoice(streams, filter, tags, Some(info))
    requires t in Tracks(streams, normalize, requested, |streams|)
    ensures t.subIndex == info.subIndex <==> t.streamIndex == info.streamIndex
  {
    var k :| 0 <= k < |streams| && IsLeast(streams, filter, tags, k, info.format)
      && info == InfoAt(streams, k, info.format);
    var i := TrackAt(streams, normalize, requested, |streams|, t);
    SubIndexOrders(streams, i, k);
  }
}

/** The cascade and the provider's walk over the streams. */
module StreamSelection {
  import opened PyText
  import opened StreamSpec

  method CollectStreams(streams: seq<Stream>, filter: Filter) returns (ass: seq<Info>, srt: seq<Info>)
    ensures ass == Listed(streams, filter, Ass, |streams|)
    ensures srt == Listed(streams, filter, Srt, |streams|)
  {
    ass, srt := [], [];
    var subIndex := 0;
    for i := 0 to |streams|
      invariant subIndex == SubtitlesBefore(streams, i)
      invariant ass == Listed(streams, filter, Ass, i) && srt == Listed(streams, filter, Srt, i)
    {
      var s := streams[i];
      if s.isSubtitle {
        if s.codec in ["ass", "ssa"] && filter != OnlySrt {
          ass := ass + [Info(subIndex, s.index, s.title, s.language, Ass)];
        } else if s.codec in ["subrip", "srt", "mov_text", "webvtt", "text", "microdvd"] && filter != OnlyAss {
          srt := srt + [Info(subIndex, s.index, s.title, s.language, Srt)];
        }
        subIndex := subIndex + 1;
      }
    }
  }

  // The position of the first wanted info, or the length of the list.
  method FindFirst(infos: seq<Info>, wanted: Info -> bool) returns (k: nat)
    ensures k <= |infos|
    ensures k < |infos| ==> IsFirst(infos, wanted, k)
    ensures k == |infos| ==> forall j :: 0 <= j < |infos| ==> !wanted(infos[j])
  {
    k := 0;
    while k < |infos|
      invariant k <= |infos|
      invariant forall j :: 0 <= j < k ==> !wanted(infos[j])
    {
      if wanted(infos[k]) {
        return;
      }
      k := k + 1;
    }
  }

  // One stage: the first wanted info, if any, is the best choice; otherwise the rank is used up.
  method Stage(streams: seq<Stream>, filter: Filter, tags: Tags, infos: seq<Info>, wanted: Info -> bool,
      ghost format: Format, ghost rank: nat) returns (choice: Option<Info>)
    requires infos == Listed(streams, filter, format, |streams|)
    requires AllAtLeast(tags, infos, rank) && WantsRank(tags, infos, wanted, rank)
    requires AllAtLeast(tags, Listed(streams, filter, if format == Ass then Srt else Ass, |streams|), rank + 1)
    ensures choice.Some? ==> IsBestChoice(streams, filter, tags, choice)
    ensures choice.None? ==> AllAtLeast(tags, infos, rank + 1)
  {
    hide IsBestChoice, Listed, Rank;
    var k := FindFirst(infos, wanted);
    if k < |infos| {
      FirstIsBest(streams, filter, tags, format, if format == Ass then Srt else Ass, wanted, k, rank);
      choice := Some(infos[k]);
    } else {
      choice := None;
      NextRank(tags, infos, wanted, rank);
    }
  }

  lemma FreshRanks(streams: seq<Stream>, filter: Filter, tags: Tags)
    ensures AllAtLeast(tags, Listed(streams, filter, Ass, |streams|), 0)
    ensures AllAtLeast(tags, Listed(streams, filter, Srt, |streams|), 4)
  {
    var srt := Listed(streams, filter, Srt, |streams|);
    forall k | 0 <= k < |srt|
      ensures Rank(tags, srt[k]) >= 4
    {
      var i := ListedAt(streams, filter, Srt, |streams|, k);
    }
  }

  // The formats of the listed infos are those they were listed for.
  lemma ListedFormats(streams: seq<Stream>, filter: Filter, format: Format)
    ensures forall k :: 0 <= k < |Listed(streams, filter, format, |streams|)| ==>
      Listed(streams, filter, format, |streams|)[k].format == format
  {
    forall k | 0 <= k < |Listed(streams, filter, format, |streams|)|
      ensures Listed(streams, filter, format, |streams|)[k].format == format
    {
      var i := ListedAt(streams, filter, format, |streams|, k);
    }
  }

  // The cascade of searches picks the stream of the best rank, and of those the first.
  method SelectBest(streams: seq<Stream>, filter: Filter, tags: Tags) returns (choice: Option<Info>)
    ensures IsBestChoice(streams, filter, tags, choice)
  {
    hide Listed, IsBestChoice, IsFull, IsDialogue;
    var ass, srt := CollectStreams(streams, filter);
    FreshRanks(streams, filter, tags);
    ListedFormats(streams, filter, Ass);
    ListedFormats(streams, filter, Srt);
    choice := SelectAss(streams, filter, tags, ass, srt);
    if choice.None? {
      choice := SelectSrt(streams, filter, tags, ass, srt);
    }
    if choice.None? {
      choice := Stage(streams, filter, tags, ass, s => true, Ass, 7);
    }
    if choice.None? {
      NothingLeft(streams, filter, tags);
    }
  }

  lemma RanksEnd(tags: Tags, infos: seq<Info>)
    requires infos != []
    ensures !AllAtLeast(tags, infos, 8)
  {
    assert Rank(tags, infos[0]) < 8;
  }

  lemma NothingLeft(streams: seq<Stream>, filter: Filter, tags: Tags)
    requires AllAtLeast(tags, Listed(streams, filter, Ass, |streams|), 8)
    requires AllAtLeast(tags, Listed(streams, filter, Srt, |streams|), 8)
    ensures IsBestChoice(streams, filter, tags, None)
  {
    forall format: Format
      ensures Listed(streams, filter, format, |streams|) == []
    {
      var infos := Listed(streams, filter, format, |streams|);
      if infos != [] {
        RanksEnd(tags, infos);
      }
      match format
      case Ass =>
      case Srt =>
    }
    NothingListed(streams, filter, tags);
  }

  // Full, then source-language dialogue, then any source language, then other dialogue.
  method SelectAss(streams: seq<Stream>, filter: Filter, tags: Tags, ass: seq<Info>, ghost srt: seq<Info>)
    returns (choice: Option<Info>)
    requires ass == Listed(streams, filter, Ass, |streams|) && srt == Listed(streams, filter, Srt, |streams|)
    requires AllAtLeast(tags, srt, 4)
    requires forall k :: 0 <= k < |ass| ==> ass[k].format == Ass
    ensures choice.Some? ==> IsBestChoice(streams, filter, tags, choice)
    ensures choice.None? ==> AllAtLeast(tags, ass, 7)
  {
    hide Listed, IsBestChoice;
    choice := Stage(streams, filter, tags, ass, s => IsFull(s), Ass, 0);
    if choice.Some? { return; }
    choice := Stage(streams, filter, tags, ass, s => InSource(tags, s) && IsDialogue(s), Ass, 1);
    if choice.Some? { return; }
    choice := Stage(streams, filter, tags, ass, s => InSource(tags, s), Ass, 2);
    if choice.Some? { return; }
    choice := Stage(streams, filter, tags, ass, s => !InTarget(tags, s) && IsDialogue(s), Ass, 3);
  }

  // Source language, then anything but the target language, then the target language.
  method SelectSrt(streams: seq<Stream>, filter: Filter, tags: Tags, ghost ass: seq<Info>, srt: seq<Info>)
    returns (choice: Option<Info>)
    requires ass == Listed(streams, filter, Ass, |streams|) && srt == Listed(streams, filter, Srt, |streams|)
    requires AllAtLeast(tags, ass, 7) && AllAtLeast(tags, srt, 4)
    requires forall k :: 0 <= k < |srt| ==> srt[k].format == Srt
    ensures choice.Some? ==> IsBestChoice(streams, filter, tags, choice)
    ensures choice.None? ==> AllAtLeast(tags, srt, 8)
  {
    hide Listed, IsBestChoice;
    choice := Stage(streams, filter, tags, srt, s => InSource(tags, s), Srt, 4);
    if choice.Some? { return; }
    choice := Stage(streams, filter, tags, srt, s => !InTarget(tags, s), Srt, 5);
    if choice.Some? { return; }
    choice := Stage(streams, filter, tags, srt, s => InTarget(tags, s), Srt, 6);
  }

  // The provider walks over the same streams with a counter of its own.
  method SearchEmbedded(streams: seq<Stream>, normalize: string -> Option<string>, requested: set<string>)
    returns (results: seq<Track>)
    ensures results == Tracks(streams, normalize, requested, |streams|)
  {
    results := [];
    var subIndex := 0;
    for i := 0 to |streams|
      invariant subIndex == SubtitlesBefore(streams, i)
      invariant results == Tracks(streams, normalize, requested, i)
    {
      var s := streams[i];
      if s.isSubtitle {
        var tag := if s.language != "" then s.language else s.lang;
        var iso := if tag == "" then None else normalize(tag);
        if iso.Some? && (requested == {} || iso.value in requested) {
          results := results + [Track(s.index, subIndex, iso.value, s.codec)];
        }
        subIndex := subIndex + 1;
      }
    }
  }
}

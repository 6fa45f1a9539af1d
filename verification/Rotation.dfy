/** Which backup files a rotation deletes. */
module RotationSpec {
  import opened PyText

  // ---- file names in order ---------------------------------------------------------------------

  // The order in which names sort.
  predicate Less(a: string, b: string) {
    if b == "" then false
    else if a == "" then true
    else if a[0] != b[0] then a[0] < b[0]
    else Less(a[1..], b[1..])
  }

  lemma {:induction false} LessTotal(a: string, b: string)
    ensures Less(a, b) || Less(b, a) || a == b
    ensures !(Less(a, b) && Less(b, a))
  {
    if a != "" && b != "" {
      LessTotal(a[1..], b[1..]);
      assert a[0] == b[0] && a[1..] == b[1..] ==> a == [a[0]] + a[1..] == [b[0]] + b[1..] == b;
    }
  }

  lemma {:induction false} LessTransitive(a: string, b: string, c: string)
    requires Less(a, b) && Less(b, c)
    ensures Less(a, c)
  {
    if a != "" && a[0] == b[0] == c[0] {
      LessTransitive(a[1..], b[1..], c[1..]);
    }
  }

  // A common beginning does not matter.
  lemma {:induction false} LessAfterPrefix(prefix: string, a: string, b: string)
    ensures Less(prefix + a, prefix + b) <==> Less(a, b)
  {
    if prefix == "" {
      assert prefix + a == a && prefix + b == b;
    } else {
      assert (prefix + a)[1..] == prefix[1..] + a && (prefix + b)[1..] == prefix[1..] + b;
      LessAfterPrefix(prefix[1..], a, b);
    }
  }

  // Of two parts of the same length the first decides, unless they are equal.
  lemma {:induction false} LessByFirst(a: string, x: string, b: string, y: string)
    requires |a| == |b|
    ensures Less(a + x, b + y) <==> Less(a, b) || (a == b && Less(x, y))
  {
    if a == "" {
      assert a + x == x && b + y == y;
    } else {
      assert (a + x)[1..] == a[1..] + x && (b + y)[1..] == b[1..] + y;
      LessByFirst(a[1..], x, b[1..], y);
      assert a == [a[0]] + a[1..] && b == [b[0]] + b[1..];
    }
  }

  // ---- names of backups ------------------------------------------------------------------------

  datatype Bucket = Daily | Weekly | Monthly | Manual

  function BucketText(bucket: Bucket): string {
    match bucket
    case Daily => "daily"
    case Weekly => "weekly"
    case Monthly => "monthly"
    case Manual => "manual"
  }

  predicate IsTimestamp(s: string) {
    |s| == 15 && s[8] == '_' && forall i :: 0 <= i < 15 && i != 8 ==> '0' <= s[i] <= '9'
  }

  // The end of the pattern also accepts a final newline.
  predicate IsSuffix(s: string) {
    s in [".db", ".pgdump", ".db\n", ".pgdump\n"]
  }

  function Prefix(bucket: Bucket): string {
    "sublarr_" + BucketText(bucket) + "_"
  }

  function Timestamp(name: string, bucket: Bucket): string
    requires Prefix(bucket) <= name && |name| >= |Prefix(bucket)| + 15
  {
    name[|Prefix(bucket)|..|Prefix(bucket)| + 15]
  }

  predicate IsBackup(name: string, bucket: Bucket) {
    var p := |Prefix(bucket)|;
    Prefix(bucket) <= name && |name| >= p + 15 && IsTimestamp(name[p..p + 15]) && IsSuffix(name[p + 15..])
  }

  // A name has one bucket at most.
  lemma OneBucket(name: string, a: Bucket, b: Bucket)
    requires IsBackup(name, a) && IsBackup(name, b)
    ensures a == b
  {
    assert Prefix(a)[8] == name[8] == Prefix(b)[8];
    if {a, b} == {Monthly, Manual} {
      assert Prefix(a)[9] == name[9] == Prefix(b)[9];
    }
  }

  // Within a bucket, a name that sorts later is not older.
  lemma NamesSortByTime(a: string, b: string, bucket: Bucket)
    requires IsBackup(a, bucket) && IsBackup(b, bucket) && Less(a, b)
    ensures !Less(Timestamp(b, bucket), Timestamp(a, bucket))
  {
    hide Less, IsTimestamp, IsSuffix;
    var p := |Prefix(bucket)|;
    assert a == Prefix(bucket) + a[p..] && b == Prefix(bucket) + b[p..];
    LessAfterPrefix(Prefix(bucket), a[p..], b[p..]);
    assert a[p..] == a[p..p + 15] + a[p + 15..] && b[p..] == b[p..p + 15] + b[p + 15..];
    LessByFirst(a[p..p + 15], a[p + 15..], b[p..p + 15], b[p + 15..]);
    LessTotal(a[p..p + 15], b[p..p + 15]);
  }

  datatype Backend = Sqlite | Postgresql

  datatype Backup = Backup(filename: string, bucket: Bucket, timestamp: string, backend: Backend)

  function BackendOf(suffix: string): Backend {
    if suffix in [".pgdump", ".pgdump\n"] then Postgresql else Sqlite
  }

  function BackupIn(name: string, bucket: Bucket): Option<Backup> {
    if IsBackup(name, bucket) then
      Some(Backup(name, bucket, Timestamp(name, bucket), BackendOf(name[|Prefix(bucket)| + 15..])))
    else None
  }

  // The alternatives of the pattern; no name matches two of them.
  function Recognized(name: string): Option<Backup> {
    if IsBackup(name, Daily) then BackupIn(name, Daily)
    else if IsBackup(name, Weekly) then BackupIn(name, Weekly)
    else if IsBackup(name, Monthly) then BackupIn(name, Monthly)
    else BackupIn(name, Manual)
  }

  // The listing: every recognised name, in the order of the names.
  function AllRecognized(names: seq<string>): seq<Backup> {
    if names == [] then []
    else
      var n := |names| - 1;
      match Recognized(names[n])
      case None => AllRecognized(names[..n])
      case Some(backup) => AllRecognized(names[..n]) + [backup]
  }

  lemma RecognizedExactly(name: string, bucket: Bucket)
    ensures IsBackup(name, bucket) <==> Recognized(name).Some? && Recognized(name).value.bucket == bucket
    ensures IsBackup(name, bucket) ==> Recognized(name) == BackupIn(name, bucket)
  {
    hide IsBackup, Timestamp;
    forall a: Bucket, b: Bucket | IsBackup(name, a) && IsBackup(name, b)
      ensures a == b
    {
      OneBucket(name, a, b);
    }
  }

  function NameOf(bucket: Bucket, timestamp: string, suffix: string): string {
    Prefix(bucket) + (timestamp + suffix)
  }

  lemma NamesAreBackups(bucket: Bucket, timestamp: string, suffix: string)
    requires IsTimestamp(timestamp) && IsSuffix(suffix)
    ensures IsBackup(NameOf(bucket, timestamp, suffix), bucket)
  {
    hide IsTimestamp, IsSuffix;
    var name, p := NameOf(bucket, timestamp, suffix), |Prefix(bucket)|;
    assert |timestamp| == 15 by {
      FifteenLong(timestamp);
    }
    assert name[p..] == timestamp + suffix;
    assert name[p..p + 15] == timestamp && name[p + 15..] == suffix;
  }

  lemma FifteenLong(timestamp: string)
    requires IsTimestamp(timestamp)
    ensures |timestamp| == 15
  {
  }

  // Eight digits, an underscore, six digits.
  predicate IsMoment(s: string) {
    |s| == 15 && forall i :: 0 <= i < 15 ==> if i == 8 then s[i] == '_' else IsDigit(s[i])
  }

  lemma NameRecognized(bucket: Bucket, timestamp: string, extension: string)
    requires IsMoment(timestamp) && extension in [".db", ".pgdump"]
    ensures var name := NameOf(bucket, timestamp, extension);
      Recognized(name)
        == Some(Backup(name, bucket, timestamp, if extension == ".db" then Sqlite else Postgresql))
  {
    var name, p := NameOf(bucket, timestamp, extension), |Prefix(bucket)|;
    NamesAreBackups(bucket, timestamp, extension);
    assert name[p..] == timestamp + extension;
    assert name[p..p + 15] == timestamp && name[p + 15..] == extension;
    hide IsBackup, Prefix, NameOf;
    RecognizedExactly(name, bucket);
  }

  lemma Prefixes()
    ensures Prefix(Daily) == "sublarr_daily_" && Prefix(Weekly) == "sublarr_weekly_"
    ensures Prefix(Monthly) == "sublarr_monthly_" && Prefix(Manual) == "sublarr_manual_"
  {
    assert "sublarr_" + "daily" + "_" == "sublarr_daily_" && "sublarr_" + "weekly" + "_" == "sublarr_weekly_";
    assert "sublarr_" + "monthly" + "_" == "sublarr_monthly_" && "sublarr_" + "manual" + "_" == "sublarr_manual_";
  }

  // What backups are called when they are made is what is listed: the four labels, the moment and the extension come
  // out again.
  lemma BackupsAreListed(timestamp: string, extension: string)
    requires IsMoment(timestamp) && extension in [".db", ".pgdump"]
    ensures var backend := if extension == ".db" then Sqlite else Postgresql;
      var daily, weekly := "sublarr_daily_" + timestamp + extension, "sublarr_weekly_" + timestamp + extension;
      var monthly, manual := "sublarr_monthly_" + timestamp + extension, "sublarr_manual_" + timestamp + extension;
      && Recognized(daily) == Some(Backup(daily, Daily, timestamp, backend))
      && Recognized(weekly) == Some(Backup(weekly, Weekly, timestamp, backend))
      && Recognized(monthly) == Some(Backup(monthly, Monthly, timestamp, backend))
      && Recognized(manual) == Some(Backup(manual, Manual, timestamp, backend))
  {
    Prefixes();
    hide Recognized, IsMoment, Prefix;
    var rest := timestamp + extension;
    NameRecognized(Daily, timestamp, extension);
    NameRecognized(Weekly, timestamp, extension);
    NameRecognized(Monthly, timestamp, extension);
    NameRecognized(Manual, timestamp, extension);
    assert "sublarr_daily_" + timestamp + extension == "sublarr_daily_" + rest;
    assert "sublarr_weekly_" + timestamp + extension == "sublarr_weekly_" + rest;
    assert "sublarr_monthly_" + timestamp + extension == "sublarr_monthly_" + rest;
    assert "sublarr_manual_" + timestamp + extension == "sublarr_manual_" + rest;
  }

  // The name of such a backup, or that name with a newline behind it.
  predicate IsNameOf(name: string, word: string, backup: Backup) {
    var made := "sublarr_" + word + "_" + (backup.timestamp + if backup.backend == Sqlite then ".db" else ".pgdump");
    name == made || name == made + "\n"
  }

  // And nothing else is listed.
  lemma OnlyBackupsAreListed(name: string)
    requires Recognized(name).Some?
    ensures var backup := Recognized(name).value;
      && backup.filename == name && IsMoment(backup.timestamp)
      && exists word :: word in ["daily", "weekly", "monthly", "manual"] && IsNameOf(name, word, backup)
  {
    hide IsBackup, BackupIn, IsMoment, IsNameOf, BucketText;
    var bucket := RecognizedBucket(name);
    RecognizedExactly(name, bucket);
    NameParts(name, bucket);
    FourLabels(bucket);
  }

  lemma RecognizedBucket(name: string) returns (bucket: Bucket)
    requires Recognized(name).Some?
    ensures IsBackup(name, bucket)
  {
    hide IsBackup;
    bucket := if IsBackup(name, Daily) then Daily else if IsBackup(name, Weekly) then Weekly
      else if IsBackup(name, Monthly) then Monthly else Manual;
  }

  lemma NameParts(name: string, bucket: Bucket)
    requires IsBackup(name, bucket)
    ensures var backup := BackupIn(name, bucket).value;
      backup.filename == name && IsMoment(backup.timestamp) && IsNameOf(name, BucketText(bucket), backup)
  {
    hide BucketText;
    var backup, p := BackupIn(name, bucket).value, |Prefix(bucket)|;
    var suffix, extension := name[p + 15..], if backup.backend == Sqlite then ".db" else ".pgdump";
    SuffixParts(suffix, extension);
    assert name == Prefix(bucket) + (backup.timestamp + suffix);
    NewlineBehind(backup.timestamp, extension);
    NewlineBehind(Prefix(bucket), backup.timestamp + extension);
  }

  lemma SuffixParts(suffix: string, extension: string)
    requires IsSuffix(suffix) && extension == if BackendOf(suffix) == Sqlite then ".db" else ".pgdump"
    ensures suffix == extension || suffix == extension + "\n"
  {
    assert ".db" + "\n" == ".db\n" && ".pgdump" + "\n" == ".pgdump\n";
  }

  lemma NewlineBehind(a: string, b: string)
    ensures a + (b + "\n") == a + b + "\n"
  {
  }

  lemma FourLabels(bucket: Bucket)
    ensures BucketText(bucket) in ["daily", "weekly", "monthly", "manual"]
  {
  }

  // ---- a directory in descending order ---------------------------------------------------------

  predicate Distinct(names: seq<string>) {
    forall i, j :: 0 <= i < j < |names| ==> names[i] != names[j]
  }

  predicate Descending(names: seq<string>) {
    forall i, j :: 0 <= i < j < |names| ==> Less(names[j], names[i])
  }

  function Insert(sorted: seq<string>, name: string): seq<string> {
    if sorted == [] || Less(sorted[0], name) then [name] + sorted else [sorted[0]] + Insert(sorted[1..], name)
  }

  // sorted(names, reverse=True)
  function SortDown(names: seq<string>): seq<string> {
    if names == [] then [] else Insert(SortDown(names[1..]), names[0])
  }

  lemma {:induction false} InsertMembers(sorted: seq<string>, name: string)
    ensures |Insert(sorted, name)| == |sorted| + 1
    ensures forall x :: x in Insert(sorted, name) <==> x in sorted || x == name
  {
    if sorted != [] && !Less(sorted[0], name) {
      InsertMembers(sorted[1..], name);
      assert sorted == [sorted[0]] + sorted[1..];
    }
  }

  lemma {:induction false} InsertDescends(sorted: seq<string>, name: string)
    requires Descending(sorted) && name !in sorted
    ensures Descending(Insert(sorted, name))
  {
    hide Less;
    if sorted == [] {
    } else {
      var head := sorted[0];
      if Less(head, name) {
        forall j | 0 <= j < |sorted|
          ensures Less(sorted[j], name)
        {
          if j > 0 {
            LessTransitive(sorted[j], head, name);
          }
        }
      } else {
        LessTotal(head, name);
        InsertDescends(sorted[1..], name);
        var rest := Insert(sorted[1..], name);
        InsertMembers(sorted[1..], name);
        forall j | 0 <= j < |rest|
          ensures Less(rest[j], head)
        {
          assert rest[j] in rest;
        }
      }
    }
  }

  lemma {:induction false} SortDownSorts(names: seq<string>)
    requires Distinct(names)
    ensures Descending(SortDown(names)) && |SortDown(names)| == |names|
    ensures forall x :: x in SortDown(names) <==> x in names
  {
    if names == [] {
    } else {
      SortDownSorts(names[1..]);
      assert names[0] !in names[1..];
      assert names == [names[0]] + names[1..];
      InsertMembers(SortDown(names[1..]), names[0]);
      InsertDescends(SortDown(names[1..]), names[0]);
    }
  }

  // ---- removing names --------------------------------------------------------------------------

  function Without(names: seq<string>, gone: seq<string>): seq<string> {
    if names == [] then []
    else
      var n := |names| - 1;
      if names[n] in gone then Without(names[..n], gone) else Without(names[..n], gone) + [names[n]]
  }

  lemma {:induction false} WithoutMembers(names: seq<string>, gone: seq<string>)
    ensures forall x :: x in Without(names, gone) <==> x in names && x !in gone
    ensures Distinct(names) ==> Distinct(Without(names, gone))
  {
    if names == [] {
    } else {
      var n := |names| - 1;
      WithoutMembers(names[..n], gone);
      assert names == names[..n] + [names[n]];
    }
  }

  lemma {:induction false} WithoutNone(names: seq<string>, gone: seq<string>)
    requires forall x :: x in names ==> x !in gone
    ensures Without(names, gone) == names
  {
    if names == [] {
    } else {
      var n := |names| - 1;
      WithoutNone(names[..n], gone);
      assert names[n] in names && names == names[..n] + [names[n]];
    }
  }

  lemma {:induction false} WithoutAll(names: seq<string>, gone: seq<string>)
    requires forall x :: x in names ==> x in gone
    ensures Without(names, gone) == []
  {
    if names == [] {
    } else {
      var n := |names| - 1;
      WithoutAll(names[..n], gone);
      assert names[n] in names;
    }
  }

  lemma {:induction false} WithoutConcat(a: seq<string>, b: seq<string>, gone: seq<string>)
    ensures Without(a + b, gone) == Without(a, gone) + Without(b, gone)
  {
    if b == [] {
      assert a + b == a;
    } else {
      var n := |b| - 1;
      WithoutConcat(a, b[..n], gone);
      assert (a + b)[..|a| + n] == a + b[..n];
    }
  }

  lemma {:induction false} WithoutTwice(names: seq<string>, gone: seq<string>, more: seq<string>)
    ensures Without(Without(names, gone), more) == Without(names, gone + more)
  {
    if names == [] {
    } else {
      var n := |names| - 1;
      WithoutTwice(names[..n], gone, more);
      WithoutConcat(Without(names[..n], gone), [names[n]], more);
    }
  }

  lemma {:induction false} InsertWithout(sorted: seq<string>, name: string, gone: seq<string>)
    requires Descending(sorted)
    ensures Without(Insert(sorted, name), gone)
      == if name in gone then Without(sorted, gone) else Insert(Without(sorted, gone), name)
  {
    hide Less;
    if sorted == [] {
      KeepOne(name, gone);
    } else if Less(sorted[0], name) {
      hide Without;
      WithoutConcat([name], sorted, gone);
      KeepOne(name, gone);
      InsertFirst(sorted, name, gone);
      assert [] + Without(sorted, gone) == Without(sorted, gone);
    } else {
      hide Without, Insert;
      InsertWithout(sorted[1..], name, gone);
      assert sorted == [sorted[0]] + sorted[1..];
      InsertBehind(sorted[0], sorted[1..], name, gone);
    }
  }

  // A name that is not larger than the head leaves it where it is.
  lemma InsertBehind(head: string, tail: seq<string>, name: string, gone: seq<string>)
    requires !Less(head, name)
    requires Without(Insert(tail, name), gone)
      == if name in gone then Without(tail, gone) else Insert(Without(tail, gone), name)
    ensures Without(Insert([head] + tail, name), gone)
      == if name in gone then Without([head] + tail, gone) else Insert(Without([head] + tail, gone), name)
  {
    hide Less, Without, Insert;
    InsertAfter(head, tail, name);
    InsertAfter(head, Without(tail, gone), name);
    WithoutConcat([head], tail, gone);
    WithoutConcat([head], Insert(tail, name), gone);
    KeepOne(head, gone);
    assert [] + Without(tail, gone) == Without(tail, gone);
    assert [] + Without(Insert(tail, name), gone) == Without(Insert(tail, name), gone);
  }

  lemma InsertAfter(head: string, rest: seq<string>, name: string)
    requires !Less(head, name)
    ensures Insert([head] + rest, name) == [head] + Insert(rest, name)
  {
    assert ([head] + rest)[1..] == rest;
  }

  // A name larger than the head goes in front of whatever is left.
  lemma InsertFirst(sorted: seq<string>, name: string, gone: seq<string>)
    requires sorted != [] && Descending(sorted) && Less(sorted[0], name)
    ensures Insert(Without(sorted, gone), name) == [name] + Without(sorted, gone)
  {
    hide Less;
    var left := Without(sorted, gone);
    WithoutMembers(sorted, gone);
    if left != [] {
      assert left[0] in left;
      var i :| 0 <= i < |sorted| && sorted[i] == left[0];
      if i > 0 {
        LessTransitive(sorted[i], sorted[0], name);
      }
    }
  }

  lemma KeepOne(head: string, gone: seq<string>)
    ensures Without([head], gone) == if head in gone then [] else [head]
  {
    assert [head][..0] == [];
  }

  // The remaining directory sorts to what remains of the sorted directory.
  lemma {:induction false} SortWithout(names: seq<string>, gone: seq<string>)
    requires Distinct(names)
    ensures SortDown(Without(names, gone)) == Without(SortDown(names), gone)
  {
    if names == [] {
    } else {
      var head, tail := names[0], names[1..];
      assert names == [head] + tail;
      SortWithout(tail, gone);
      SortDownSorts(tail);
      InsertWithout(SortDown(tail), head, gone);
      WithoutConcat([head], tail, gone);
      KeepOne(head, gone);
      assert ([head] + Without(tail, gone))[1..] == Without(tail, gone);
      assert [] + Without(tail, gone) == Without(tail, gone);
    }
  }

  // ---- what a rotation deletes -----------------------------------------------------------------

  function Only(names: seq<string>, bucket: Bucket): seq<string> {
    if names == [] then []
    else
      var n := |names| - 1;
      if IsBackup(names[n], bucket) then Only(names[..n], bucket) + [names[n]] else Only(names[..n], bucket)
  }

  // The backups of a bucket, newest first.
  function Listing(names: seq<string>, bucket: Bucket): seq<string> {
    Only(SortDown(names), bucket)
  }

  // Where the slice [limit:] of n elements starts; a negative limit counts from the end.
  function Cut(limit: int, n: nat): (cut: nat)
    ensures cut <= n
  {
    if limit > n then n else if limit >= 0 then limit else if n + limit >= 0 then n + limit else 0
  }

  function Excess(names: seq<string>, bucket: Bucket, limit: int): seq<string> {
    var listing := Listing(names, bucket);
    listing[Cut(limit, |listing|)..]
  }

  // Retention limits; manual backups have none.
  datatype Limits = Limits(daily: int, weekly: int, monthly: int)

  function LimitOf(limits: Limits, bucket: Bucket): Option<int> {
    match bucket
    case Daily => Some(limits.daily)
    case Weekly => Some(limits.weekly)
    case Monthly => Some(limits.monthly)
    case Manual => None
  }

  function AllExcess(names: seq<string>, limits: Limits): seq<string> {
    Excess(names, Daily, limits.daily) + Excess(names, Weekly, limits.weekly) + Excess(names, Monthly, limits.monthly)
  }

  // What can be deleted of the excess; `stuck` are the files that cannot.
  function Gone(names: seq<string>, limits: Limits, stuck: seq<string>): seq<string> {
    Without(AllExcess(names, limits), stuck)
  }

  function Rotated(names: seq<string>, limits: Limits, stuck: seq<string>): seq<string> {
    Without(names, Gone(names, limits, stuck))
  }

  lemma {:induction false} OnlyMembers(names: seq<string>, bucket: Bucket)
    ensures forall x :: x in Only(names, bucket) <==> x in names && IsBackup(x, bucket)
    ensures Descending(names) ==> Descending(Only(names, bucket))
  {
    hide IsBackup, Less;
    if names == [] {
    } else {
      var n := |names| - 1;
      var rest := Only(names[..n], bucket);
      OnlyMembers(names[..n], bucket);
      assert names == names[..n] + [names[n]];
      if Descending(names) {
        BelowAll(names, rest);
      }
    }
  }

  lemma BelowAll(names: seq<string>, rest: seq<string>)
    requires names != [] && Descending(names) && forall x :: x in rest ==> x in names[..|names| - 1]
    ensures forall i :: 0 <= i < |rest| ==> Less(names[|names| - 1], rest[i])
  {
    hide Less;
    forall i | 0 <= i < |rest|
      ensures Less(names[|names| - 1], rest[i])
    {
      assert rest[i] in rest;
    }
  }

  lemma {:induction false} OnlyWithout(names: seq<string>, gone: seq<string>, bucket: Bucket)
    ensures Only(Without(names, gone), bucket) == Without(Only(names, bucket), gone)
  {
    hide IsBackup;
    if names == [] {
    } else {
      var n := |names| - 1;
      OnlyWithout(names[..n], gone, bucket);
      var rest := Without(names[..n], gone);
      assert (rest + [names[n]])[..|rest|] == rest;
      var only := Only(names[..n], bucket);
      assert (only + [names[n]])[..|only|] == only;
    }
  }

  lemma DescendingDistinct(names: seq<string>, i: nat, j: nat)
    requires Descending(names) && i < j < |names|
    ensures names[i] != names[j]
  {
    LessTotal(names[i], names[j]);
  }

  // The backups of a bucket in the directory, each once, newest first.
  lemma {:induction false} ListingExact(names: seq<string>, bucket: Bucket)
    requires Distinct(names)
    ensures Descending(Listing(names, bucket)) && Distinct(Listing(names, bucket))
    ensures forall x :: x in Listing(names, bucket) <==> x in names && IsBackup(x, bucket)
  {
    hide IsBackup, Less;
    SortDownSorts(names);
    OnlyMembers(SortDown(names), bucket);
    var listing := Listing(names, bucket);
    forall i, j | 0 <= i < j < |listing|
      ensures listing[i] != listing[j]
    {
      DescendingDistinct(listing, i, j);
    }
  }

  // Of a bucket's backups exactly those past the limit are excess.
  lemma {:induction false} ExcessExact(names: seq<string>, limits: Limits, bucket: Bucket, x: string)
    requires Distinct(names) && x in names && IsBackup(x, bucket)
    ensures var listing := Listing(names, bucket);
      match LimitOf(limits, bucket)
      case None => x !in AllExcess(names, limits)
      case Some(limit) =>
        var cut := Cut(limit, |listing|);
        && (x in AllExcess(names, limits) <==> x in listing[cut..])
        && (x in AllExcess(names, limits) <==> x !in listing[..cut])
  {
    hide IsBackup, Less, Listing;
    forall b: Bucket | x in Listing(names, b)
      ensures b == bucket
    {
      ListingExact(names, b);
      OneBucket(x, b, bucket);
    }
    ListingExact(names, bucket);
    var listing := Listing(names, bucket);
    assert x in listing;
  }

  lemma {:induction false} ExcessAreBackups(names: seq<string>, limits: Limits, x: string)
    requires Distinct(names) && x in AllExcess(names, limits)
    ensures x in names && exists b: Bucket :: IsBackup(x, b) && LimitOf(limits, b).Some?
  {
    hide IsBackup, Less, Listing;
    ListingExact(names, Daily);
    ListingExact(names, Weekly);
    ListingExact(names, Monthly);
  }

  // Where a bucket's listing is cut.
  function CutOf(limits: Limits, bucket: Bucket, count: nat): nat {
    match LimitOf(limits, bucket) case None => count case Some(limit) => Cut(limit, count)
  }

  // The elements of names that are stuck, in order.
  function Among(names: seq<string>, stuck: seq<string>): seq<string> {
    Without(names, Without(names, stuck))
  }

  // After a rotation each bucket holds exactly its newest backups up to the limit, and behind them those it could
  // not delete.
  lemma {:induction false} NewestKept(names: seq<string>, limits: Limits, stuck: seq<string>, bucket: Bucket)
    requires Distinct(names)
    ensures var listing := Listing(names, bucket);
      var cut := CutOf(limits, bucket, |listing|);
      Listing(Rotated(names, limits, stuck), bucket) == listing[..cut] + Among(listing[cut..], stuck)
  {
    hide IsBackup, Less, AllExcess, SortDown, Only, Without, CutOf;
    var gone, listing := Gone(names, limits, stuck), Listing(names, bucket);
    var cut := CutOf(limits, bucket, |listing|);
    assert cut <= |listing| by { CutInside(limits, bucket, |listing|); }
    SortWithout(names, gone);
    OnlyWithout(SortDown(names), gone, bucket);
    forall x | x in listing
      ensures x in listing[..cut] ==> x !in gone
      ensures x in listing[cut..] ==> (x in gone <==> x in Without(listing[cut..], stuck))
    {
      GoneExact(names, limits, stuck, bucket, x);
    }
    assert listing == listing[..cut] + listing[cut..];
    WithoutConcat(listing[..cut], listing[cut..], gone);
    WithoutNone(listing[..cut], gone);
    WithoutSame(listing[cut..], gone, Without(listing[cut..], stuck));
  }

  lemma CutInside(limits: Limits, bucket: Bucket, count: nat)
    ensures CutOf(limits, bucket, count) <= count
  {
  }

  // Of a bucket's backups exactly those past the cut that are not stuck go.
  lemma GoneExact(names: seq<string>, limits: Limits, stuck: seq<string>, bucket: Bucket, x: string)
    requires Distinct(names) && x in Listing(names, bucket)
    ensures var listing := Listing(names, bucket);
      var cut := CutOf(limits, bucket, |listing|);
      && cut <= |listing|
      && (x in listing[..cut] ==> x !in Gone(names, limits, stuck))
      && (x in listing[cut..] ==> (x in Gone(names, limits, stuck) <==> x in Without(listing[cut..], stuck)))
  {
    hide IsBackup, Less, AllExcess, Listing, Without;
    var listing := Listing(names, bucket);
    ListingExact(names, bucket);
    ExcessExact(names, limits, bucket, x);
    WithoutMembers(AllExcess(names, limits), stuck);
    WithoutMembers(listing[CutOf(limits, bucket, |listing|)..], stuck);
  }

  // Only which of its own elements are dropped matters to a list.
  lemma {:induction false} WithoutSame(names: seq<string>, gone: seq<string>, also: seq<string>)
    requires forall x :: x in names ==> (x in gone <==> x in also)
    ensures Without(names, gone) == Without(names, also)
  {
    if names != [] {
      var n := |names| - 1;
      assert forall x :: x in names[..n] ==> x in names;
      WithoutSame(names[..n], gone, also);
      assert names[n] in names;
    }
  }

  // Everything else stays: manual backups, files that are no backups, and files that cannot be deleted.
  lemma {:induction false} OthersUntouched(names: seq<string>, limits: Limits, stuck: seq<string>, x: string)
    requires Distinct(names) && x in names
    requires x in stuck || IsBackup(x, Manual) || forall b: Bucket :: !IsBackup(x, b)
    ensures x in Rotated(names, limits, stuck)
  {
    hide IsBackup, AllExcess;
    var excess := AllExcess(names, limits);
    WithoutMembers(excess, stuck);
    WithoutMembers(names, Gone(names, limits, stuck));
    if x in excess {
      ExcessAreBackups(names, limits, x);
      if IsBackup(x, Manual) {
        ExcessExact(names, limits, Manual, x);
      }
    }
  }

  // No backup that is kept without being stuck is older than a deleted one of the same bucket.
  lemma {:induction false} KeptAreNewer(names: seq<string>, limits: Limits, stuck: seq<string>, bucket: Bucket,
      kept: string, dropped: string)
    requires Distinct(names) && IsBackup(kept, bucket) && IsBackup(dropped, bucket)
    requires kept in Rotated(names, limits, stuck) && kept !in stuck
    requires dropped in names && dropped !in Rotated(names, limits, stuck)
    ensures !Less(Timestamp(kept, bucket), Timestamp(dropped, bucket))
  {
    hide IsBackup, Less, AllExcess, Timestamp, Without, Listing;
    var excess, listing := AllExcess(names, limits), Listing(names, bucket);
    WithoutMembers(excess, stuck);
    WithoutMembers(names, Gone(names, limits, stuck));
    ExcessExact(names, limits, bucket, kept);
    ExcessExact(names, limits, bucket, dropped);
    ListingExact(names, bucket);
    var cut := Cut(LimitOf(limits, bucket).value, |listing|);
    assert kept in listing[..cut] && dropped in listing[cut..];
    var i :| 0 <= i < cut && listing[i] == kept;
    var j :| cut <= j < |listing| && listing[j] == dropped;
    NamesSortByTime(dropped, kept, bucket);
  }

  lemma AmongStuck(names: seq<string>, stuck: seq<string>)
    ensures forall x :: x in Among(names, stuck) <==> x in names && x in stuck
    ensures Among(names, []) == []
  {
    hide Without;
    WithoutMembers(names, stuck);
    WithoutMembers(names, Without(names, stuck));
    WithoutNone(names, []);
    WithoutAll(names, names);
  }

  // When no deletion fails, a second rotation finds nothing to delete in a bucket exactly when its limit is not
  // negative, or the first one already deleted all of it.
  lemma {:induction false} SecondRotation(names: seq<string>, limits: Limits, bucket: Bucket)
    requires Distinct(names) && LimitOf(limits, bucket).Some?
    ensures var limit := LimitOf(limits, bucket).value;
      (Excess(Rotated(names, limits, []), bucket, limit) == [])
        <==> (limit >= 0 || |Listing(names, bucket)| <= -limit)
  {
    hide Listing, Rotated, Among;
    NewestKept(names, limits, [], bucket);
    var listing := Listing(names, bucket);
    AmongStuck(listing[CutOf(limits, bucket, |listing|)..], []);
  }

  // With a limit that is not negative, what exceeds it after a rotation is what could not be deleted.
  lemma {:induction false} OnlyStuckExceeds(names: seq<string>, limits: Limits, stuck: seq<string>, bucket: Bucket)
    requires Distinct(names) && LimitOf(limits, bucket).Some? && LimitOf(limits, bucket).value >= 0
    ensures var limit, listing := LimitOf(limits, bucket).value, Listing(names, bucket);
      Excess(Rotated(names, limits, stuck), bucket, limit) == Among(listing[Cut(limit, |listing|)..], stuck)
  {
    hide Listing, Rotated;
    NewestKept(names, limits, stuck, bucket);
    var listing := Listing(names, bucket);
    if LimitOf(limits, bucket).value >= |listing| {
      assert listing[|listing|..] == [] && Among([], stuck) == [];
    }
  }

  // So a second rotation that cannot delete the same files changes nothing.
  lemma {:induction false} RotationSettles(names: seq<string>, limits: Limits, stuck: seq<string>)
    requires Distinct(names) && limits.daily >= 0 && limits.weekly >= 0 && limits.monthly >= 0
    ensures var rotated := Rotated(names, limits, stuck);
      Gone(rotated, limits, stuck) == [] && Rotated(rotated, limits, stuck) == rotated
  {
    hide Listing, Excess, Rotated, Among, Without;
    var rotated := Rotated(names, limits, stuck);
    forall bucket: Bucket | LimitOf(limits, bucket).Some?
      ensures forall x :: x in Excess(rotated, bucket, LimitOf(limits, bucket).value) ==> x in stuck
    {
      OnlyStuckExceeds(names, limits, stuck, bucket);
      var listing := Listing(names, bucket);
      AmongStuck(listing[Cut(LimitOf(limits, bucket).value, |listing|)..], stuck);
    }
    assert LimitOf(limits, Daily).Some? && LimitOf(limits, Weekly).Some? && LimitOf(limits, Monthly).Some?;
    WithoutAll(AllExcess(rotated, limits), stuck);
    NothingGone(rotated, limits, stuck);
  }

  lemma NothingGone(names: seq<string>, limits: Limits, stuck: seq<string>)
    requires Gone(names, limits, stuck) == []
    ensures Rotated(names, limits, stuck) == names
  {
    hide Gone, Without;
    WithoutNone(names, []);
  }

  // With two backups and a limit of -1 the first rotation deletes one of them, and so does the second.
  lemma NegativeLimitGoesOn(limits: Limits)
    requires limits.daily == -1
    ensures var names := [NameOf(Daily, "20260101_030000", ".db"), NameOf(Daily, "20260102_030000", ".db")];
      Excess(names, Daily, -1) != [] && Excess(Rotated(names, limits, []), Daily, -1) != []
  {
    var a, b := "20260101_030000", "20260102_030000";
    assert a[7] != b[7];
    NamesAreBackups(Daily, a, ".db");
    NamesAreBackups(Daily, b, ".db");
    TwoGoOn(NameOf(Daily, a, ".db"), NameOf(Daily, b, ".db"), |Prefix(Daily)| + 7, limits);
  }

  lemma TwoGoOn(older: string, newer: string, at: nat, limits: Limits)
    requires IsBackup(older, Daily) && IsBackup(newer, Daily) && limits.daily == -1
    requires at < |older| && at < |newer| && older[at] != newer[at]
    ensures Excess([older, newer], Daily, -1) != [] && Excess(Rotated([older, newer], limits, []), Daily, -1) != []
  {
    hide IsBackup, Rotated, Listing;
    var names := [older, newer];
    ListingExact(names, Daily);
    var listing := Listing(names, Daily);
    assert older in listing && newer in listing;
    SecondRotation(names, limits, Daily);
  }

  // The number of backups a bucket keeps.
  lemma {:induction false} KeptCount(names: seq<string>, limits: Limits, bucket: Bucket)
    requires Distinct(names) && LimitOf(limits, bucket).Some? && LimitOf(limits, bucket).value >= 0
    ensures var limit, count := LimitOf(limits, bucket).value, |Listing(names, bucket)|;
      |Listing(Rotated(names, limits, []), bucket)| == if limit < count then limit else count
  {
    hide Listing, Rotated, Among;
    NewestKept(names, limits, [], bucket);
    var listing := Listing(names, bucket);
    AmongStuck(listing[CutOf(limits, bucket, |listing|)..], []);
  }
}

/** The backup directory and its rotation. */
module DatabaseBackups {
  import opened RotationSpec

  class DatabaseBackup {
    // the files in the backup directory, in no particular order
    var files: seq<string>
    const limits: Limits

    constructor (files: seq<string>, limits: Limits)
      ensures this.files == files && this.limits == limits
    {
      this.files := files;
      this.limits := limits;
    }

    // All backups, with their bucket, timestamp and backend, in descending order of their names.
    method ListBackups() returns (backups: seq<Backup>)
      ensures backups == AllRecognized(SortDown(files))
    {
      hide SortDown, Recognized;
      backups := [];
      var names := SortDown(files);
      for i := 0 to |names|
        invariant backups == AllRecognized(names[..i])
      {
        assert names[..i + 1][..i] == names[..i];
        var found := Recognized(names[i]);
        if found.Some? {
          backups := backups + [found.value];
        }
      }
      assert names[..|names|] == names;
    }

    // Deletes what exceeds the limits, bucket after bucket, and counts what could be deleted.
    method Rotate(stuck: seq<string>) returns (deleted: nat)
      modifies this
      ensures files == Rotated(old(files), limits, stuck)
      ensures deleted == |Gone(old(files), limits, stuck)|
    {
      hide IsBackup, FilenamesOf, SortDown, Only, AllRecognized;
      var backups := ListBackups();
      FilenamesListed(SortDown(files), Daily);
      FilenamesListed(SortDown(files), Weekly);
      FilenamesListed(SortDown(files), Monthly);
      var d := RotateBucket(FilenamesOf(backups, Daily), limits.daily, stuck);
      var w := RotateBucket(FilenamesOf(backups, Weekly), limits.weekly, stuck);
      var m := RotateBucket(FilenamesOf(backups, Monthly), limits.monthly, stuck);
      deleted := d + w + m;
      ghost var names := old(files);
      ghost var daily, weekly := Excess(names, Daily, limits.daily), Excess(names, Weekly, limits.weekly);
      ghost var monthly := Excess(names, Monthly, limits.monthly);
      WithoutConcat(daily + weekly, monthly, stuck);
      WithoutConcat(daily, weekly, stuck);
      WithoutTwice(names, Without(daily, stuck), Without(weekly, stuck));
      WithoutTwice(names, Without(daily, stuck) + Without(weekly, stuck), Without(monthly, stuck));
    }

    method RotateBucket(listed: seq<string>, limit: int, stuck: seq<string>) returns (deleted: nat)
      modifies this
      ensures var excess := listed[Cut(limit, |listed|)..];
        files == Without(old(files), Without(excess, stuck)) && deleted == |Without(excess, stuck)|
    {
      var excess := listed[Cut(limit, |listed|)..];
      deleted := 0;
      WithoutNone(files, []);
      for i := 0 to |excess|
        invariant files == Without(old(files), Without(excess[..i], stuck))
        invariant deleted == |Without(excess[..i], stuck)|
      {
        assert excess[..i + 1][..i] == excess[..i];
        if excess[i] !in stuck {
          WithoutTwice(old(files), Without(excess[..i], stuck), [excess[i]]);
          files := Without(files, [excess[i]]);
          deleted := deleted + 1;
        }
      }
      assert excess[..|excess|] == excess;
    }
  }

  function FilenamesOf(backups: seq<Backup>, bucket: Bucket): seq<string> {
    if backups == [] then []
    else
      var n := |backups| - 1;
      if backups[n].bucket == bucket then FilenamesOf(backups[..n], bucket) + [backups[n].filename]
      else FilenamesOf(backups[..n], bucket)
  }

  // The filenames of a bucket in the list are those names of the bucket.
  lemma {:induction false} FilenamesListed(names: seq<string>, bucket: Bucket)
    ensures FilenamesOf(AllRecognized(names), bucket) == Only(names, bucket)
  {
    hide Recognized, IsBackup;
    if names == [] {
    } else {
      var n := |names| - 1;
      var front := AllRecognized(names[..n]);
      FilenamesListed(names[..n], bucket);
      RecognizedExactly(names[n], bucket);
      RecognizedName(names[n]);
      if Recognized(names[n]).Some? {
        assert (front + [Recognized(names[n]).value])[..|front|] == front;
      }
    }
  }

  lemma RecognizedName(name: string)
    ensures Recognized(name).Some? ==> Recognized(name).value.filename == name
  {
  }
}

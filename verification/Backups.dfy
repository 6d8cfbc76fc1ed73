/**
 Backup records and their files (backend/services/backup_service.py). A file is its path and the
 checksum of its content; a dump, a compression or an upload is a step that succeeds or fails.
 */
module Backups {
  import opened Results
  import opened Sorting

  datatype Status = Waiting | Running | Completed | Failed | Verified

  datatype Category = Daily | Weekly | Monthly

  datatype Meta = Meta(
    id: string, status: Status, createdAt: int, encrypted: bool, category: Category, checksum: Option<int>)

  /** The JSON list, absent until something is saved, and the backup directory. */
  datatype Store = Store(list: Option<seq<Meta>>, files: map<string, int>)

  datatype Error = NotFound | NoMetadataFile | BackupFailed

  function Quota(c: Category): nat {
    match c
    case Daily => 7
    case Weekly => 4
    case Monthly => 12
  }

  /** First of the month, Sunday (weekday 6), any other day. */
  function DetermineRetentionCategory(day: int, weekday: int): Category {
    if day == 1 then Monthly else if weekday == 6 then Weekly else Daily
  }

  /** The first of a month is monthly, any other Sunday weekly, the rest daily. */
  lemma CategoryMeans(day: int, weekday: int)
    ensures DetermineRetentionCategory(day, weekday) == Monthly <==> day == 1
    ensures DetermineRetentionCategory(day, weekday) == Weekly <==> weekday == 6 && day != 1
    ensures DetermineRetentionCategory(day, weekday) == Daily <==> weekday != 6 && day != 1
  {
  }

  predicate Good(m: Meta) {
    m.status == Completed || m.status == Verified
  }

  // ---------- file names ----------

  function DumpName(id: string): string { "backup_" + id + ".sql" }

  function PlainName(id: string): string { "backup_" + id + ".tar.gz" }

  function EncryptedName(id: string): string { "backup_" + id + ".tar.gz.enc" }

  function FileName(m: Meta): string {
    if m.encrypted then EncryptedName(m.id) else PlainName(m.id)
  }

  /** The names a backup run may write. */
  function Names(id: string): set<string> {
    {DumpName(id), PlainName(id), EncryptedName(id)}
  }

  lemma MiddleIsDetermined(pre: string, a: string, b: string, post: string)
    requires pre + a + post == pre + b + post
    ensures a == b
  {
    assert |a| == |b| by {
      assert |pre + a + post| == |pre| + |a| + |post| && |pre + b + post| == |pre| + |b| + |post|;
    }
    assert a == (pre + a + post)[|pre|..|pre| + |a|];
    assert b == (pre + b + post)[|pre|..|pre| + |b|];
  }

  lemma LastChars(id: string)
    ensures var n := DumpName(id); n[|n| - 1] == 'l'
    ensures var n := PlainName(id); n[|n| - 1] == 'z'
    ensures var n := EncryptedName(id); n[|n| - 1] == 'c'
  {
  }

  lemma NamesAreApart(a: string, b: string)
    requires a != b
    ensures Names(a) !! Names(b)
  {
    LastChars(a);
    LastChars(b);
    if DumpName(a) == DumpName(b) {
      MiddleIsDetermined("backup_", a, b, ".sql");
    }
    if PlainName(a) == PlainName(b) {
      MiddleIsDetermined("backup_", a, b, ".tar.gz");
    }
    if EncryptedName(a) == EncryptedName(b) {
      MiddleIsDetermined("backup_", a, b, ".tar.gz.enc");
    }
  }

  // ---------- saving, creating, verifying ----------

  function Loaded(list: Option<seq<Meta>>): seq<Meta> {
    if list.Some? then list.value else []
  }

  /** Any entry with the same id goes; the new one comes last. */
  function Save(list: seq<Meta>, m: Meta): seq<Meta> {
    Filter(list, (x: Meta) => x.id != m.id) + [m]
  }

  /**
   How a run ends: with its file in place; with an exception before the file is finished, leaving any of
   its own files behind; or with an exception in the upload or the notification, the file finished.
   */
  datatype Outcome = Finishes(content: int) | BreaksOff(left: map<string, int>) | FailsLate(content: int)

  /** The directory once the dump, and with encryption the plain archive, has been removed again. */
  function Tidied(files: map<string, int>, id: string, encrypt: bool): map<string, int> {
    files - ({DumpName(id)} + if encrypt then {PlainName(id)} else {})
  }

  predicate LeavesOwnFiles(id: string, o: Outcome) {
    o.BreaksOff? ==> o.left.Keys <= Names(id)
  }

  function Create(s: Store, id: string, at: int, encrypt: bool, c: Category, o: Outcome): (Store, Result<Meta, Error>) {
    match o
    case Finishes(content) =>
      var m := Meta(id, Completed, at, encrypt, c, Some(content));
      (Store(Some(Save(Loaded(s.list), m)), Tidied(s.files, id, encrypt)[FileName(m) := content]), Ok(m))
    case BreaksOff(left) =>
      (Store(Some(Save(Loaded(s.list), Meta(id, Failed, at, encrypt, c, None))), s.files - Names(id) + left),
       Err(BackupFailed))
    case FailsLate(content) =>
      var m := Meta(id, Failed, at, encrypt, c, Some(content));
      (Store(Some(Save(Loaded(s.list), m)), Tidied(s.files, id, encrypt)[FileName(m) := content]), Err(BackupFailed))
  }

  function Find(list: seq<Meta>, id: string): Option<Meta> {
    if list == [] then None else if list[0].id == id then Some(list[0]) else Find(list[1..], id)
  }

  function Verify(s: Store, id: string): (Store, Result<bool, Error>) {
    match Find(Loaded(s.list), id)
    case None => (s, Err(NotFound))
    case Some(m) =>
      if FileName(m) !in s.files || m.checksum != Some(s.files[FileName(m)]) then (s, Ok(false))
      else (Store(Some(Save(Loaded(s.list), m.(status := Verified))), s.files), Ok(true))
  }

  // ---------- pruning ----------

  function OfCategory(list: seq<Meta>, c: Category): seq<Meta> {
    Filter(list, (m: Meta) => Good(m) && m.category == c)
  }

  function NewestFirst(list: seq<Meta>, c: Category): seq<Meta> {
    SortDesc(OfCategory(list, c), (m: Meta) => m.createdAt)
  }

  function Beyond<T>(s: seq<T>, n: nat): seq<T> {
    if |s| <= n then [] else s[n..]
  }

  function Within<T>(s: seq<T>, n: nat): seq<T> {
    if |s| <= n then s else s[..n]
  }

  /** What a category holds beyond its quota. */
  function Excess(list: seq<Meta>, c: Category): seq<Meta> {
    Beyond(NewestFirst(list, c), Quota(c))
  }

  function ToDelete(list: seq<Meta>): seq<Meta> {
    Excess(list, Daily) + Excess(list, Weekly) + Excess(list, Monthly)
  }

  function Ids(list: seq<Meta>): set<string> {
    if list == [] then {} else {list[0].id} + Ids(list[1..])
  }

  function FileNames(list: seq<Meta>): set<string> {
    if list == [] then {} else {FileName(list[0])} + FileNames(list[1..])
  }

  /** Entries stay by id: those of the records not marked for deletion. */
  function Remaining(list: seq<Meta>): seq<Meta> {
    var deleted := ToDelete(list);
    var ids := Ids(Filter(list, (m: Meta) => m !in deleted));
    Filter(list, (m: Meta) => m.id in ids)
  }

  function Prune(s: Store): (Store, Result<nat, Error>) {
    if s.list == None then (s, Err(NoMetadataFile))
    else
      var deleted := ToDelete(s.list.value);
      (Store(Some(Remaining(s.list.value)), s.files - FileNames(deleted)), Ok(|deleted|))
  }

  // ---------- the service ----------

  class BackupService {
    var list: Option<seq<Meta>>
    var files: map<string, int>

    constructor ()
      ensures View() == Store(None, map[])
    {
      list, files := None, map[];
    }

    function View(): Store
      reads this
    {
      Store(list, files)
    }

    method SaveMetadata(m: Meta)
      modifies this`list
      ensures list == Some(Save(Loaded(old(list)), m))
    {
      var all := Loaded(list);
      var kept := [];
      for i := 0 to |all|
        invariant kept == Filter(all[..i], (x: Meta) => x.id != m.id)
      {
        FilterConcat(all[..i], [all[i]], (x: Meta) => x.id != m.id);
        assert all[..i + 1] == all[..i] + [all[i]];
        if all[i].id != m.id {
          kept := kept + [all[i]];
        }
      }
      assert all[..|all|] == all;
      list := Some(kept + [m]);
    }

    method CreateBackup(id: string, at: int, day: int, weekday: int, encrypt: bool, o: Outcome) returns (r: Result<Meta, Error>)
      requires LeavesOwnFiles(id, o)
      modifies this
      ensures (View(), r) == Create(old(View()), id, at, encrypt, DetermineRetentionCategory(day, weekday), o)
    {
      var m := Meta(id, Running, at, encrypt, DetermineRetentionCategory(day, weekday), None);
      if o.BreaksOff? {
        files := files - Names(id) + o.left;
        SaveMetadata(m.(status := Failed));
        return Err(BackupFailed);
      }
      files := Tidied(files, id, encrypt)[FileName(m) := o.content];
      m := m.(checksum := Some(o.content), status := Completed);
      if o.FailsLate? {
        SaveMetadata(m.(status := Failed));
        return Err(BackupFailed);
      }
      SaveMetadata(m);
      return Ok(m);
    }

    method VerifyBackup(id: string) returns (r: Result<bool, Error>)
      modifies this
      ensures (View(), r) == Verify(old(View()), id)
    {
      var found := Find(Loaded(list), id);
      if found.None? {
        return Err(NotFound);
      }
      var m := found.value;
      if FileName(m) !in files {
        return Ok(false);
      }
      if m.checksum != Some(files[FileName(m)]) {
        return Ok(false);
      }
      SaveMetadata(m.(status := Verified));
      return Ok(true);
    }

    method PruneBackups() returns (r: Result<nat, Error>)
      modifies this
      ensures (View(), r) == Prune(old(View()))
    {
      if list == None {
        return Err(NoMetadataFile);
      }
      var all := list.value;
      var deleted, remaining := Select(all);
      files := Unlink(files, deleted);
      list := Some(remaining);
      return Ok(|deleted|);
    }
  }

  /** Groups the good records by category, sorts each group newest first and marks what exceeds its quota. */
  method Select(all: seq<Meta>) returns (deleted: seq<Meta>, remaining: seq<Meta>)
    ensures deleted == ToDelete(all) && remaining == Remaining(all)
  {
    var daily, weekly, monthly := [], [], [];
    for i := 0 to |all|
      invariant daily == OfCategory(all[..i], Daily)
      invariant weekly == OfCategory(all[..i], Weekly)
      invariant monthly == OfCategory(all[..i], Monthly)
    {
      var m := all[i];
      OfCategoryAppend(all[..i], m, Daily);
      OfCategoryAppend(all[..i], m, Weekly);
      OfCategoryAppend(all[..i], m, Monthly);
      assert all[..i + 1] == all[..i] + [m];
      if Good(m) {
        match m.category
        case Daily => daily := daily + [m];
        case Weekly => weekly := weekly + [m];
        case Monthly => monthly := monthly + [m];
      }
    }
    assert all[..|all|] == all;
    daily := SortDesc(daily, (m: Meta) => m.createdAt);
    weekly := SortDesc(weekly, (m: Meta) => m.createdAt);
    monthly := SortDesc(monthly, (m: Meta) => m.createdAt);
    deleted := Beyond(daily, Quota(Daily)) + Beyond(weekly, Quota(Weekly)) + Beyond(monthly, Quota(Monthly));
    remaining := Remaining(all);
  }

  lemma OfCategoryAppend(list: seq<Meta>, m: Meta, c: Category)
    ensures OfCategory(list + [m], c) == OfCategory(list, c) + if Good(m) && m.category == c then [m] else []
  {
    FilterConcat(list, [m], (m: Meta) => Good(m) && m.category == c);
  }

  method Unlink(files: map<string, int>, deleted: seq<Meta>) returns (left: map<string, int>)
    ensures left == files - FileNames(deleted)
  {
    left := files;
    for i := 0 to |deleted|
      invariant left == files - FileNames(deleted[..i])
    {
      FileNamesConcat(deleted[..i], [deleted[i]]);
      assert deleted[..i + 1] == deleted[..i] + [deleted[i]];
      if FileName(deleted[i]) in left {
        left := left - {FileName(deleted[i])};
      }
    }
    assert deleted[..|deleted|] == deleted;
  }

  lemma {:induction false} FileNamesConcat(s: seq<Meta>, t: seq<Meta>)
    ensures FileNames(s + t) == FileNames(s) + FileNames(t)
  {
    if s == [] {
      assert s + t == t;
    } else {
      FileNamesConcat(s[1..], t);
      FileNamesCons(s[0], s[1..] + t);
      FileNamesCons(s[0], s[1..]);
      assert s + t == [s[0]] + (s[1..] + t) && s == [s[0]] + s[1..];
    }
  }

  lemma FileNamesCons(m: Meta, s: seq<Meta>)
    ensures FileNames([m] + s) == {FileName(m)} + FileNames(s)
  {
    assert ([m] + s)[1..] == s;
  }

  // ---------- what pruning leaves ----------

  ghost predicate UniqueIds(list: seq<Meta>) {
    forall i, j :: 0 <= i < j < |list| ==> list[i].id != list[j].id
  }

  lemma {:induction false} UniqueIdsFilter(list: seq<Meta>, p: Meta -> bool)
    requires UniqueIds(list)
    ensures UniqueIds(Filter(list, p))
  {
    if list != [] {
      UniqueIdsFilter(list[1..], p);
      FilterMembers(list[1..], p);
      forall m | m in Filter(list[1..], p) ensures m.id != list[0].id {
        var k :| 0 <= k < |list[1..]| && list[1..][k] == m;
        assert list[k + 1] == m;
      }
    }
  }

  lemma SameIdSameEntry(list: seq<Meta>, a: Meta, b: Meta)
    requires UniqueIds(list) && a in list && b in list && a.id == b.id
    ensures a == b
  {
  }

  lemma {:induction false} IdsMember(list: seq<Meta>, id: string)
    ensures id in Ids(list) <==> exists m :: m in list && m.id == id
  {
    if list != [] {
      IdsMember(list[1..], id);
      assert list == [list[0]] + list[1..];
    }
  }

  lemma {:induction false} FileNamesMember(list: seq<Meta>, name: string)
    ensures name in FileNames(list) <==> exists m :: m in list && FileName(m) == name
  {
    if list != [] {
      FileNamesMember(list[1..], name);
      assert list == [list[0]] + list[1..];
    }
  }

  /** The sorted records of a category are good members of the list, each listed once. */
  lemma NewestFirstMembers(list: seq<Meta>, c: Category)
    requires UniqueIds(list)
    ensures forall m :: m in NewestFirst(list, c) <==> m in list && Good(m) && m.category == c
    ensures forall i, j :: 0 <= i < j < |NewestFirst(list, c)| ==> NewestFirst(list, c)[i] != NewestFirst(list, c)[j]
  {
    var mine, sorted, key := OfCategory(list, c), NewestFirst(list, c), (m: Meta) => m.createdAt;
    FilterMembers(list, (m: Meta) => Good(m) && m.category == c);
    UniqueIdsFilter(list, (m: Meta) => Good(m) && m.category == c);
    SortSorts(mine, key);
    forall m ensures m in sorted <==> m in mine {
      assert m in sorted <==> m in multiset(sorted);
      assert m in mine <==> m in multiset(mine);
    }
    SameMultisetDistinct(mine, sorted);
  }

  lemma {:induction false} DistinctIffOnce<T>(s: seq<T>)
    ensures (forall i, j :: 0 <= i < j < |s| ==> s[i] != s[j]) <==> forall x :: multiset(s)[x] <= 1
  {
    if s != [] {
      DistinctIffOnce(s[1..]);
      assert s == [s[0]] + s[1..];
      assert forall x :: multiset(s)[x] == multiset(s[1..])[x] + if x == s[0] then 1 else 0;
      if forall i, j :: 0 <= i < j < |s| ==> s[i] != s[j] {
        assert s[0] !in s[1..];
      }
      if forall x :: multiset(s)[x] <= 1 {
        assert s[0] !in multiset(s[1..]);
        assert s[0] !in s[1..];
      }
    }
  }

  lemma SameMultisetDistinct<T>(s: seq<T>, t: seq<T>)
    requires multiset(s) == multiset(t)
    requires forall i, j :: 0 <= i < j < |s| ==> s[i] != s[j]
    ensures forall i, j :: 0 <= i < j < |t| ==> t[i] != t[j]
  {
    DistinctIffOnce(s);
    DistinctIffOnce(t);
  }

  lemma BeyondMembers<T>(s: seq<T>, n: nat, x: T)
    requires x in Beyond(s, n)
    ensures x in s
  {
  }

  lemma ExcessIsOfCategory(list: seq<Meta>, c: Category, m: Meta)
    requires UniqueIds(list) && m in Excess(list, c)
    ensures m.category == c && m in list && Good(m)
  {
    BeyondMembers(NewestFirst(list, c), Quota(c), m);
    NewestFirstMembers(list, c);
  }

  lemma ToDeleteMembers(list: seq<Meta>, m: Meta)
    ensures m in ToDelete(list) <==> m in Excess(list, Daily) || m in Excess(list, Weekly) || m in Excess(list, Monthly)
  {
  }

  /** A record can go only for the quota of its own category. */
  lemma ToDeleteMember(list: seq<Meta>, m: Meta)
    requires UniqueIds(list)
    ensures m in ToDelete(list) <==> m in Excess(list, m.category)
  {
    ToDeleteMembers(list, m);
    forall c | m in Excess(list, c) ensures c == m.category {
      ExcessIsOfCategory(list, c, m);
    }
    match m.category
    case Daily =>
    case Weekly =>
    case Monthly =>
  }

  lemma RemainingIsTheRest(list: seq<Meta>)
    requires UniqueIds(list)
    ensures Remaining(list) == Filter(list, (m: Meta) => m !in ToDelete(list))
  {
    var deleted := ToDelete(list);
    var stay := (m: Meta) => m !in deleted;
    var ids := Ids(Filter(list, stay));
    FilterMembers(list, stay);
    forall m | m in list ensures m.id in ids <==> stay(m) {
      IdsMember(Filter(list, stay), m.id);
      if b :| b in Filter(list, stay) && b.id == m.id {
        SameIdSameEntry(list, b, m);
      }
    }
    FilterAgrees(list, (m: Meta) => m.id in ids, stay);
  }

  lemma {:induction false} FilterAgrees<T>(s: seq<T>, p: T -> bool, q: T -> bool)
    requires forall x :: x in s ==> (p(x) <==> q(x))
    ensures Filter(s, p) == Filter(s, q)
  {
    if s != [] {
      FilterAgrees(s[1..], p, q);
    }
  }

  lemma SplitAtQuota<T>(s: seq<T>, n: nat)
    ensures s == Within(s, n) + Beyond(s, n)
  {
  }

  lemma WithinIsNotBeyond<T>(s: seq<T>, n: nat, x: T)
    requires forall i, j :: 0 <= i < j < |s| ==> s[i] != s[j]
    requires x in Within(s, n)
    ensures x !in Beyond(s, n)
  {
    var i :| 0 <= i < |Within(s, n)| && Within(s, n)[i] == x;
    assert s[i] == x;
    forall j | 0 <= j < |Beyond(s, n)| ensures Beyond(s, n)[j] != x {
      assert Beyond(s, n)[j] == s[n + j];
    }
  }

  lemma WithinStays(list: seq<Meta>, c: Category, m: Meta)
    requires UniqueIds(list) && m in Within(NewestFirst(list, c), Quota(c))
    ensures m !in ToDelete(list)
  {
    NewestFirstMembers(list, c);
    WithinIsNotBeyond(NewestFirst(list, c), Quota(c), m);
    assert m in NewestFirst(list, c);
    ToDeleteMember(list, m);
  }

  lemma BeyondGoes(list: seq<Meta>, c: Category, m: Meta)
    requires UniqueIds(list) && m in Excess(list, c)
    ensures m in ToDelete(list)
  {
    ExcessIsOfCategory(list, c, m);
    ToDeleteMember(list, m);
  }

  /**
   Pruning leaves of every category exactly its newest good records, as many as the quota allows, in
   the same order.
   */
  lemma PruneKeepsTheNewest(list: seq<Meta>, c: Category)
    requires UniqueIds(list)
    ensures NewestFirst(Remaining(list), c) == Within(NewestFirst(list, c), Quota(c))
  {
    var deleted, sorted, q := ToDelete(list), NewestFirst(list, c), Quota(c);
    var stay := (m: Meta) => m !in deleted;
    var mine, key := (m: Meta) => Good(m) && m.category == c, (m: Meta) => m.createdAt;
    var both := (m: Meta) => Good(m) && m.category == c && m !in deleted;
    RemainingIsTheRest(list);
    FilterFilter(list, stay, mine, both);
    FilterFilter(list, mine, stay, both);
    FilterSort(OfCategory(list, c), key, stay);
    assert NewestFirst(Remaining(list), c) == Filter(sorted, stay);
    SplitAtQuota(sorted, q);
    FilterConcat(Within(sorted, q), Beyond(sorted, q), stay);
    forall i | 0 <= i < |Within(sorted, q)| ensures stay(Within(sorted, q)[i]) {
      WithinStays(list, c, Within(sorted, q)[i]);
    }
    forall i | 0 <= i < |Beyond(sorted, q)| ensures !stay(Beyond(sorted, q)[i]) {
      BeyondGoes(list, c, Beyond(sorted, q)[i]);
    }
    FilterAll(Within(sorted, q), stay);
    FilterNone(Beyond(sorted, q), stay);
  }

  function Min(a: int, b: int): int { if a <= b then a else b }

  /** The good records of a category, counted without the sort. */
  function CountGood(list: seq<Meta>, c: Category): nat {
    if list == [] then 0
    else CountGood(list[1..], c)
         + if list[0].category == c && (list[0].status == Completed || list[0].status == Verified) then 1 else 0
  }

  lemma {:induction false} CountGoodIsLength(list: seq<Meta>, c: Category)
    ensures CountGood(list, c) == |OfCategory(list, c)| == |NewestFirst(list, c)|
  {
    if list != [] {
      CountGoodIsLength(list[1..], c);
    }
  }

  /** Pruning leaves seven daily, four weekly and twelve monthly backups, or all there are. */
  lemma QuotasAreKept(list: seq<Meta>)
    requires UniqueIds(list)
    ensures CountGood(Remaining(list), Daily) == Min(CountGood(list, Daily), 7)
    ensures CountGood(Remaining(list), Weekly) == Min(CountGood(list, Weekly), 4)
    ensures CountGood(Remaining(list), Monthly) == Min(CountGood(list, Monthly), 12)
  {
    forall c: Category ensures CountGood(Remaining(list), c) == Min(CountGood(list, c), Quota(c)) {
      PruneKeepsTheNewest(list, c);
      CountGoodIsLength(list, c);
      CountGoodIsLength(Remaining(list), c);
    }
  }

  /** Records that are not good stay, and nothing that was not there appears. */
  lemma OthersStay(list: seq<Meta>, m: Meta)
    requires UniqueIds(list)
    ensures m in Remaining(list) ==> m in list
    ensures m in list && m.status != Completed && m.status != Verified ==> m in Remaining(list)
  {
    RemainingIsTheRest(list);
    FilterMembers(list, (x: Meta) => x !in ToDelete(list));
    if m in ToDelete(list) {
      ToDeleteMember(list, m);
      ExcessIsOfCategory(list, m.category, m);
    }
  }

  /** No good record that stays is older than one of its category that goes. */
  lemma NothingOlderStays(list: seq<Meta>, kept: Meta, gone: Meta)
    requires UniqueIds(list) && kept in Remaining(list) && Good(kept) && gone in list && gone !in Remaining(list)
    requires kept.category == gone.category
    ensures kept.createdAt >= gone.createdAt
  {
    var c := kept.category;
    var key := (m: Meta) => m.createdAt;
    RemainingIsTheRest(list);
    FilterMembers(list, (m: Meta) => m !in ToDelete(list));
    NewestFirstMembers(list, c);
    SortSorts(OfCategory(list, c), key);
    ToDeleteMember(list, kept);
    ToDeleteMember(list, gone);
    WithinBeforeBeyond(NewestFirst(list, c), Quota(c), key, kept, gone);
  }

  lemma WithinBeforeBeyond<T>(s: seq<T>, n: nat, key: T -> int, x: T, y: T)
    requires Descending(s, key) && x in s && x !in Beyond(s, n) && y in Beyond(s, n)
    ensures key(x) >= key(y)
  {
    SplitAtQuota(s, n);
    var i :| 0 <= i < |Within(s, n)| && Within(s, n)[i] == x;
    var j :| 0 <= j < |Beyond(s, n)| && Beyond(s, n)[j] == y;
    assert s[i] == x && s[n + j] == y;
  }

  /** The good records of the same category that are newer, or at least as new. */
  function Newer(list: seq<Meta>, m: Meta): seq<Meta> {
    Filter(OfCategory(list, m.category), (x: Meta) => x.createdAt > m.createdAt)
  }

  function AtLeastAsNew(list: seq<Meta>, m: Meta): seq<Meta> {
    Filter(OfCategory(list, m.category), (x: Meta) => x.createdAt >= m.createdAt)
  }

  /** In a descending list the elements with a larger key than the one at p lie before it, and all up to it have at least its key. */
  lemma DescendingPosition<T>(s: seq<T>, key: T -> int, p: nat, more: T -> bool, least: T -> bool)
    requires Descending(s, key) && p < |s|
    requires forall i :: 0 <= i < |s| ==> (more(s[i]) <==> key(s[i]) > key(s[p])) && (least(s[i]) <==> key(s[i]) >= key(s[p]))
    ensures |Filter(s, more)| <= p < |Filter(s, least)|
  {
    assert s == s[..p] + s[p..] && s == s[..p + 1] + s[p + 1..];
    FilterConcat(s[..p], s[p..], more);
    FilterNone(s[p..], more);
    FilterMembers(s[..p], more);
    FilterConcat(s[..p + 1], s[p + 1..], least);
    FilterAll(s[..p + 1], least);
  }

  lemma PositionAmongNewest(list: seq<Meta>, m: Meta, p: nat)
    requires p < |NewestFirst(list, m.category)| && NewestFirst(list, m.category)[p] == m
    ensures |Newer(list, m)| <= p < |AtLeastAsNew(list, m)|
  {
    var mine, key := OfCategory(list, m.category), (x: Meta) => x.createdAt;
    var more, least := (x: Meta) => x.createdAt > m.createdAt, (x: Meta) => x.createdAt >= m.createdAt;
    SortSorts(mine, key);
    DescendingPosition(SortDesc(mine, key), key, p, more, least);
    FilterSort(mine, key, more);
    FilterSort(mine, key, least);
  }

  lemma BeyondFrom<T>(s: seq<T>, n: nat, p: nat)
    requires (forall i, j :: 0 <= i < j < |s| ==> s[i] != s[j]) && p < |s|
    ensures s[p] in Beyond(s, n) <==> p >= n
  {
    if p >= n {
      assert Beyond(s, n)[p - n] == s[p];
    } else {
      assert Within(s, n)[p] == s[p];
      WithinIsNotBeyond(s, n, s[p]);
    }
  }

  /**
   A good record is deleted when its category holds a full quota of newer good ones, and only when it holds
   more than a quota of good ones at least as new, itself among them. Without equal times the two agree.
   */
  lemma DeletedWhenQuotaIsNewer(list: seq<Meta>, m: Meta)
    requires UniqueIds(list) && m in list && Good(m)
    ensures |Newer(list, m)| >= Quota(m.category) ==> m in ToDelete(list)
    ensures m in ToDelete(list) ==> |AtLeastAsNew(list, m)| > Quota(m.category)
  {
    var sorted, q := NewestFirst(list, m.category), Quota(m.category);
    NewestFirstMembers(list, m.category);
    ToDeleteMember(list, m);
    var p :| 0 <= p < |sorted| && sorted[p] == m;
    PositionAmongNewest(list, m, p);
    BeyondFrom(sorted, q, p);
  }

  /** If there is a good record at all, one as new as any good one stays. */
  lemma NewestGoodStays(list: seq<Meta>, some: Meta) returns (newest: Meta)
    requires UniqueIds(list) && some in list && Good(some)
    ensures newest in Remaining(list) && Good(newest)
    ensures forall m :: m in list && Good(m) ==> newest.createdAt >= m.createdAt
  {
    newest := LatestGood(list, some);
    var c := newest.category;
    var sorted := NewestFirst(list, c);
    NewestFirstMembers(list, c);
    SortSorts(OfCategory(list, c), (m: Meta) => m.createdAt);
    assert newest in sorted;
    var i :| 0 <= i < |sorted| && sorted[i] == newest;
    newest := sorted[0];
    WithinStays(list, c, newest);
    RemainingIsTheRest(list);
    FilterMembers(list, (m: Meta) => m !in ToDelete(list));
  }

  lemma {:induction false} LatestGood(list: seq<Meta>, some: Meta) returns (latest: Meta)
    requires some in list && Good(some)
    ensures latest in list && Good(latest)
    ensures forall m :: m in list && Good(m) ==> latest.createdAt >= m.createdAt
  {
    assert list == [list[0]] + list[1..];
    if rest :| rest in list[1..] && Good(rest) {
      latest := LatestGood(list[1..], rest);
      if Good(list[0]) && list[0].createdAt > latest.createdAt {
        latest := list[0];
      }
    } else {
      latest := list[0];
    }
  }

  /** Pruning again changes nothing. */
  lemma PruneIsIdempotent(list: seq<Meta>)
    requires UniqueIds(list)
    ensures ToDelete(Remaining(list)) == [] && Remaining(Remaining(list)) == Remaining(list)
  {
    PruneKeepsTheNewest(list, Daily);
    PruneKeepsTheNewest(list, Weekly);
    PruneKeepsTheNewest(list, Monthly);
    var rest := Remaining(list);
    RemainingIsTheRest(list);
    UniqueIdsFilter(list, (m: Meta) => m !in ToDelete(list));
    assert ToDelete(rest) == [];
    RemainingIsTheRest(rest);
    FilterAll(rest, (m: Meta) => m !in ToDelete(rest));
  }

  // ---------- what every run keeps ----------

  /** Ids are unique and every good record has its file, with the content its checksum records. */
  ghost predicate Inv(s: Store) {
    && UniqueIds(Loaded(s.list))
    && forall m :: m in Loaded(s.list) && Good(m) ==> FileName(m) in s.files && m.checksum == Some(s.files[FileName(m)])
  }

  lemma SaveKeepsUniqueIds(list: seq<Meta>, m: Meta)
    requires UniqueIds(list)
    ensures UniqueIds(Save(list, m))
    ensures forall x :: x in Save(list, m) <==> x == m || (x in list && x.id != m.id)
  {
    var p := (x: Meta) => x.id != m.id;
    UniqueIdsFilter(list, p);
    FilterMembers(list, p);
  }

  lemma FileNamesApart(a: Meta, b: Meta)
    requires a.id != b.id
    ensures FileName(a) != FileName(b) && FileName(a) !in Names(b.id)
  {
    NamesAreApart(a.id, b.id);
  }

  lemma CreateKeepsInv(s: Store, id: string, at: int, encrypt: bool, c: Category, o: Outcome)
    requires Inv(s) && LeavesOwnFiles(id, o)
    ensures Inv(Create(s, id, at, encrypt, c, o).0)
  {
    var s' := Create(s, id, at, encrypt, c, o).0;
    var m := s'.list.value[|s'.list.value| - 1];
    SaveKeepsUniqueIds(Loaded(s.list), m);
    forall x | x in s'.list.value && Good(x) ensures FileName(x) in s'.files && x.checksum == Some(s'.files[FileName(x)]) {
      if x != m {
        FileNamesApart(x, m);
      }
    }
  }

  lemma {:induction false} FindFinds(list: seq<Meta>, id: string)
    ensures match Find(list, id)
            case None => forall m :: m in list ==> m.id != id
            case Some(m) => m in list && m.id == id
  {
    if list != [] {
      FindFinds(list[1..], id);
      assert list == [list[0]] + list[1..];
    }
  }

  lemma VerifyKeepsInv(s: Store, id: string)
    requires Inv(s)
    ensures Inv(Verify(s, id).0)
  {
    FindFinds(Loaded(s.list), id);
    var found := Find(Loaded(s.list), id);
    if found.Some? {
      SaveKeepsUniqueIds(Loaded(s.list), found.value.(status := Verified));
    }
  }

  lemma PruneKeepsInv(s: Store)
    requires Inv(s)
    ensures Inv(Prune(s).0)
  {
    if s.list.Some? {
      var list, s' := s.list.value, Prune(s).0;
      var deleted := ToDelete(list);
      RemainingIsTheRest(list);
      UniqueIdsFilter(list, (m: Meta) => m !in deleted);
      FilterMembers(list, (m: Meta) => m !in deleted);
      forall m | m in Remaining(list) && Good(m) ensures FileName(m) in s'.files {
        FileNamesMember(deleted, FileName(m));
        if gone :| gone in deleted && FileName(gone) == FileName(m) {
          ToDeleteMember(list, gone);
          ExcessIsOfCategory(list, gone.category, gone);
          if gone.id == m.id {
            SameIdSameEntry(list, gone, m);
          } else {
            FileNamesApart(gone, m);
          }
        }
      }
    }
  }

  /** The files of the deleted records are gone. */
  lemma DeletedFilesAreGone(s: Store, m: Meta)
    requires s.list.Some? && m in ToDelete(s.list.value)
    ensures FileName(m) !in Prune(s).0.files
  {
    FileNamesMember(ToDelete(s.list.value), FileName(m));
  }

  datatype Op =
    | DoCreate(id: string, at: int, encrypt: bool, category: Category, outcome: Outcome)
    | DoVerify(id: string)
    | DoPrune

  ghost predicate Possible(op: Op) {
    op.DoCreate? ==> LeavesOwnFiles(op.id, op.outcome)
  }

  ghost function Do(s: Store, op: Op): Store {
    match op
    case DoCreate(id, at, encrypt, c, o) => Create(s, id, at, encrypt, c, o).0
    case DoVerify(id) => Verify(s, id).0
    case DoPrune => Prune(s).0
  }

  ghost function Run(s: Store, ops: seq<Op>): Store {
    if ops == [] then s else Do(Run(s, ops[..|ops| - 1]), ops[|ops| - 1])
  }

  /** In every run of create, verify and prune, also when ids repeat. */
  lemma {:induction false} RunKeepsInv(ops: seq<Op>)
    requires forall i :: 0 <= i < |ops| ==> Possible(ops[i])
    ensures Inv(Run(Store(None, map[]), ops))
  {
    if ops != [] {
      var s, op := Run(Store(None, map[]), ops[..|ops| - 1]), ops[|ops| - 1];
      RunKeepsInv(ops[..|ops| - 1]);
      assert Possible(op);
      match op
      case DoCreate(id, at, encrypt, c, o) => CreateKeepsInv(s, id, at, encrypt, c, o);
      case DoVerify(id) => VerifyKeepsInv(s, id);
      case DoPrune => PruneKeepsInv(s);
    }
  }

  /**
   A finished backup leaves one file of its own behind: the encrypted archive and no plain one if encryption
   was asked for, else the plain archive; other backups' files are untouched.
   */
  lemma FinishedBackupFiles(s: Store, id: string, at: int, encrypt: bool, c: Category, content: int)
    ensures var files := Create(s, id, at, encrypt, c, Finishes(content)).0.files;
            && "backup_" + id + ".sql" !in files
            && (encrypt ==> "backup_" + id + ".tar.gz" !in files
                            && "backup_" + id + ".tar.gz.enc" in files && files["backup_" + id + ".tar.gz.enc"] == content)
            && (!encrypt ==> "backup_" + id + ".tar.gz" in files && files["backup_" + id + ".tar.gz"] == content)
            && forall name :: name !in Names(id) ==>
                 (name in files <==> name in s.files) && (name in files ==> files[name] == s.files[name])
  {
    LastChars(id);
  }

  /** Verification changes nothing but the status of a record that passes, which moves to the end of the list. */
  lemma VerifyChanges(s: Store, id: string)
    requires UniqueIds(Loaded(s.list))
    ensures var (s', r) := Verify(s, id);
            && (r != Ok(true) ==> s' == s)
            && (r == Err(NotFound) <==> forall m :: m in Loaded(s.list) ==> m.id != id)
            && s'.files == s.files
            && (r == Ok(true) ==>
                  exists m :: m in Loaded(s.list) && m.id == id
                              && s'.list == Some(Filter(Loaded(s.list), (x: Meta) => x.id != id) + [m.(status := Verified)]))
  {
    FindFinds(Loaded(s.list), id);
  }

  /** A creation puts one record at the end, completed or failed, with the checksum once the file was finished. */
  lemma CreateRecords(s: Store, id: string, at: int, encrypt: bool, c: Category, o: Outcome)
    ensures var (s', r) := Create(s, id, at, encrypt, c, o);
            var m := Meta(id, if o.Finishes? then Completed else Failed, at, encrypt, c,
                          if o.BreaksOff? then None else Some(o.content));
            && s'.list == Some(Filter(Loaded(s.list), (x: Meta) => x.id != id) + [m])
            && r == if o.Finishes? then Ok(m) else Err(BackupFailed)
  {
  }

  /** A good record whose file is untouched since verifies again, and verification asks for nothing else: not even success. */
  lemma VerifiesIff(s: Store, id: string)
    requires UniqueIds(Loaded(s.list))
    ensures Verify(s, id).1 == Ok(true)
       <==> exists m :: m in Loaded(s.list) && m.id == id && FileName(m) in s.files
                        && m.checksum == Some(s.files[FileName(m)])
  {
    FindFinds(Loaded(s.list), id);
  }

  /** A run that failed after its file was finished is promoted to verified, and then competes for the quota. */
  lemma FailedBackupCanBeVerified(s: Store, id: string, at: int, encrypt: bool, c: Category, content: int)
    requires Inv(s)
    ensures var failed := Create(s, id, at, encrypt, c, FailsLate(content)).0;
            var (verified, r) := Verify(failed, id);
            && Meta(id, Failed, at, encrypt, c, Some(content)) in Loaded(failed.list)
            && r == Ok(true) && Meta(id, Verified, at, encrypt, c, Some(content)) in Loaded(verified.list)
  {
    var m := Meta(id, Failed, at, encrypt, c, Some(content));
    var failed := Create(s, id, at, encrypt, c, FailsLate(content)).0;
    SaveKeepsUniqueIds(Loaded(s.list), m);
    FindFinds(Loaded(failed.list), id);
    assert m in Loaded(failed.list);
    SaveKeepsUniqueIds(Loaded(failed.list), m.(status := Verified));
  }
}

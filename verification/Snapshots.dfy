/** Comparison of two system snapshots (backend/services/snapshot_service.py). */
module Snapshots {
  import opened Results

  datatype Package = Package(name: string, version: string)

  datatype Service = Service(name: string, state: string, enabled: bool)

  datatype Snapshot = Snapshot(
    packages: seq<Package>, configs: map<string, string>, services: seq<Service>, kernel: Option<string>)

  datatype Kind = Added | Removed | Updated

  /** One entry of the package or the configuration list. */
  datatype Change = Change(key: string, before: Option<string>, after: Option<string>, kind: Kind)

  datatype ServiceChange = ServiceChange(key: string, before: Option<string>, after: Option<string>, stateChanged: bool)

  datatype Report = Report(
    packages: seq<Change>, configs: seq<Change>, services: seq<ServiceChange>, kernelChanged: bool)

  function Get<V>(m: map<string, V>, k: string): Option<V> {
    if k in m then Some(m[k]) else None
  }

  /** Python's truth test on a string or None. */
  predicate Falsy(v: Option<string>) {
    v == None || v == Some("")
  }

  function KindOf(before: Option<string>, after: Option<string>): Kind {
    if Falsy(before) then Added else if Falsy(after) then Removed else Updated
  }

  // ---------- what a list of changes means ----------

  ghost predicate HasKey(cs: seq<Change>, k: string) {
    exists i :: 0 <= i < |cs| && cs[i].key == k
  }

  /** The entries tell the truth about both sides and cover every key on which the sides differ. */
  ghost predicate Covers(pre: map<string, string>, post: map<string, string>, cs: seq<Change>) {
    && (forall i :: 0 <= i < |cs| ==> cs[i].before == Get(pre, cs[i].key) && cs[i].after == Get(post, cs[i].key))
    && (forall k :: Get(pre, k) != Get(post, k) ==> HasKey(cs, k))
  }

  /** The entry for a key on which the sides differ. */
  ghost predicate IsEntry(pre: map<string, string>, post: map<string, string>, c: Change) {
    && c.before == Get(pre, c.key) && c.after == Get(post, c.key)
    && c.before != c.after && c.kind == KindOf(c.before, c.after)
  }

  /** Exactly the keys on which the sides differ, each once, but for those left out. */
  ghost predicate IsDiffBut(pre: map<string, string>, post: map<string, string>, cs: seq<Change>, left: set<string>) {
    && (forall i :: 0 <= i < |cs| ==> cs[i].key !in left && IsEntry(pre, post, cs[i]))
    && (forall i, j :: 0 <= i < j < |cs| ==> cs[i].key != cs[j].key)
    && (forall k :: k !in left && Get(pre, k) != Get(post, k) ==> HasKey(cs, k))
  }

  /** Exactly the keys on which the sides differ, each once. */
  ghost predicate IsDiff(pre: map<string, string>, post: map<string, string>, cs: seq<Change>) {
    IsDiffBut(pre, post, cs, {})
  }

  function Put(m: map<string, string>, k: string, v: Option<string>): map<string, string> {
    if v.Some? then m[k := v.value] else m - {k}
  }

  /** Carries the changes out, one after the other. */
  function Apply(m: map<string, string>, cs: seq<Change>): map<string, string> {
    if cs == [] then m
    else Put(Apply(m, cs[..|cs| - 1]), cs[|cs| - 1].key, cs[|cs| - 1].after)
  }

  /** The same changes backwards. */
  function Undone(cs: seq<Change>): (r: seq<Change>)
    ensures |r| == |cs|
    ensures forall i :: 0 <= i < |cs| ==> r[i].key == cs[i].key && r[i].before == cs[i].after && r[i].after == cs[i].before
  {
    if cs == [] then []
    else
      var c := cs[|cs| - 1];
      Undone(cs[..|cs| - 1]) + [Change(c.key, c.after, c.before, KindOf(c.after, c.before))]
  }

  /** After the changes a key has its last entry's value, or its old one if it has no entry. */
  lemma {:induction false} ApplyAt(m: map<string, string>, post: map<string, string>, cs: seq<Change>, k: string)
    requires forall i :: 0 <= i < |cs| ==> cs[i].after == Get(post, cs[i].key)
    ensures Get(Apply(m, cs), k) == if HasKey(cs, k) then Get(post, k) else Get(m, k)
  {
    if cs != [] {
      var n := |cs| - 1;
      ApplyAt(m, post, cs[..n], k);
      if cs[n].key != k && exists i :: 0 <= i < |cs| && cs[i].key == k {
        var i :| 0 <= i < |cs| && cs[i].key == k;
        assert cs[..n][i].key == k;
      }
    }
  }

  lemma SameEverywhere(a: map<string, string>, b: map<string, string>)
    requires forall k :: Get(a, k) == Get(b, k)
    ensures a == b
  {
    forall k ensures k in a <==> k in b {
      assert Get(a, k) == Get(b, k);
    }
    forall k | k in a ensures a[k] == b[k] {
      assert Get(a, k) == Get(b, k);
    }
  }

  /** The recorded after-values turn the earlier side into the later one. */
  lemma ApplyGivesPost(pre: map<string, string>, post: map<string, string>, cs: seq<Change>)
    requires Covers(pre, post, cs)
    ensures Apply(pre, cs) == post
  {
    forall k ensures Get(Apply(pre, cs), k) == Get(post, k) {
      ApplyAt(pre, post, cs, k);
    }
    SameEverywhere(Apply(pre, cs), post);
  }

  /** The recorded before-values turn the later side back into the earlier one. */
  lemma UndoGivesPre(pre: map<string, string>, post: map<string, string>, cs: seq<Change>)
    requires Covers(pre, post, cs)
    ensures Apply(post, Undone(cs)) == pre
  {
    assert Covers(post, pre, Undone(cs)) by {
      forall k | Get(post, k) != Get(pre, k) ensures HasKey(Undone(cs), k) {
        var i :| 0 <= i < |cs| && cs[i].key == k;
        assert Undone(cs)[i].key == k;
      }
    }
    ApplyGivesPost(post, pre, Undone(cs));
  }

  lemma DiffIsEmptyIff(pre: map<string, string>, post: map<string, string>, cs: seq<Change>)
    requires IsDiff(pre, post, cs)
    ensures cs == [] <==> pre == post
  {
    if cs == [] {
      ApplyGivesPost(pre, post, cs);
    } else {
      assert cs[0].before != cs[0].after;
    }
  }

  /** Comparing the other way round reports the same keys with before and after exchanged. */
  lemma SwappedDiff(pre: map<string, string>, post: map<string, string>, cs: seq<Change>, ds: seq<Change>, i: nat)
    requires IsDiff(pre, post, cs) && IsDiff(post, pre, ds) && i < |cs|
    ensures Change(cs[i].key, cs[i].after, cs[i].before, KindOf(cs[i].after, cs[i].before)) in ds
  {
    assert Get(post, cs[i].key) != Get(pre, cs[i].key);
    var j :| 0 <= j < |ds| && ds[j].key == cs[i].key;
    assert ds[j] == Change(cs[i].key, cs[i].after, cs[i].before, KindOf(cs[i].after, cs[i].before));
  }

  function Opposite(k: Kind): Kind {
    match k
    case Added => Removed
    case Removed => Added
    case Updated => Updated
  }

  /** Added and removed change places, except between a missing entry and an empty string: both ways "added". */
  lemma SwapIff(before: Option<string>, after: Option<string>)
    requires before != after
    ensures KindOf(after, before) == Opposite(KindOf(before, after)) <==> !(Falsy(before) && Falsy(after))
  {
  }

  /** What the label claims about the two sides. */
  predicate LabelIsTrue(c: Change) {
    match c.kind
    case Added => c.before == None
    case Removed => c.before.Some? && c.after == None
    case Updated => c.before.Some? && c.after.Some?
  }

  /** A label lies exactly about empty strings, which the code takes for missing entries. */
  lemma LabelIsTrueIff(pre: map<string, string>, post: map<string, string>, cs: seq<Change>, i: nat)
    requires IsDiff(pre, post, cs) && i < |cs|
    ensures LabelIsTrue(cs[i]) <==> cs[i].before != Some("") && (cs[i].before == None || cs[i].after != Some(""))
  {
    assert cs[i].kind == KindOf(cs[i].before, cs[i].after);
  }

  // ---------- the comparison loops ----------

  /** Later entries win. */
  function Versions(ps: seq<Package>): map<string, string> {
    if ps == [] then map[] else Versions(ps[..|ps| - 1])[ps[|ps| - 1].name := ps[|ps| - 1].version]
  }

  function ByName(ss: seq<Service>): map<string, Service> {
    if ss == [] then map[] else ByName(ss[..|ss| - 1])[ss[|ss| - 1].name := ss[|ss| - 1]]
  }

  lemma HasKeyAppend(cs: seq<Change>, c: Change, k: string)
    ensures HasKey(cs, k) || c.key == k ==> HasKey(cs + [c], k)
  {
    if c.key == k {
      assert (cs + [c])[|cs|].key == k;
    } else if i :| 0 <= i < |cs| && cs[i].key == k {
      assert (cs + [c])[i].key == k;
    }
  }

  lemma AddEntry(pre: map<string, string>, post: map<string, string>, cs: seq<Change>, left: set<string>, c: Change)
    requires IsDiffBut(pre, post, cs, left) && c.key in left && IsEntry(pre, post, c)
    ensures IsDiffBut(pre, post, cs + [c], left - {c.key})
  {
    forall k | k !in left - {c.key} && Get(pre, k) != Get(post, k) ensures HasKey(cs + [c], k) {
      HasKeyAppend(cs, c, k);
    }
  }

  lemma SkipKey(pre: map<string, string>, post: map<string, string>, cs: seq<Change>, left: set<string>, k: string)
    requires IsDiffBut(pre, post, cs, left) && Get(pre, k) == Get(post, k)
    ensures IsDiffBut(pre, post, cs, left - {k})
  {
  }

  lemma NoKeyYet(pre: map<string, string>, post: map<string, string>)
    ensures IsDiffBut(pre, post, [], pre.Keys + post.Keys)
  {
  }

  method CompareMaps(pre: map<string, string>, post: map<string, string>) returns (cs: seq<Change>)
    ensures IsDiff(pre, post, cs)
  {
    cs := [];
    var names := pre.Keys + post.Keys;
    NoKeyYet(pre, post);
    while names != {}
      invariant IsDiffBut(pre, post, cs, names)
      decreases |names|
    {
      var name :| name in names;
      var change := EntryFor(pre, post, name);
      if change.None? {
        SkipKey(pre, post, cs, names, name);
      } else {
        AddEntry(pre, post, cs, names, change.value);
        cs := cs + [change.value];
      }
      names := names - {name};
    }
  }

  /** The loop body's entry for one key, if its values differ. */
  method EntryFor(pre: map<string, string>, post: map<string, string>, name: string) returns (change: Option<Change>)
    ensures change.None? ==> Get(pre, name) == Get(post, name)
    ensures change.Some? ==> change.value.key == name && IsEntry(pre, post, change.value)
  {
    var before, after := Get(pre, name), Get(post, name);
    change := if before != after then Some(Change(name, before, after, KindOf(before, after))) else None;
  }

  function StateOf(s: Option<Service>): Option<string> {
    if s.Some? then Some(s.value.state) else None
  }

  ghost predicate IsServiceEntry(pre: map<string, Service>, post: map<string, Service>, c: ServiceChange) {
    && c.before == StateOf(Get(pre, c.key)) && c.after == StateOf(Get(post, c.key))
    && (c.stateChanged <==> c.before != c.after) && Get(pre, c.key) != Get(post, c.key)
  }

  ghost predicate HasService(cs: seq<ServiceChange>, k: string) {
    exists i :: 0 <= i < |cs| && cs[i].key == k
  }

  ghost predicate IsServiceDiffBut(pre: map<string, Service>, post: map<string, Service>, cs: seq<ServiceChange>,
                                   left: set<string>) {
    && (forall i :: 0 <= i < |cs| ==> cs[i].key !in left && IsServiceEntry(pre, post, cs[i]))
    && (forall i, j :: 0 <= i < j < |cs| ==> cs[i].key != cs[j].key)
    && (forall k :: k !in left && Get(pre, k) != Get(post, k) ==> HasService(cs, k))
  }

  /** Exactly the services that differ in any field, each once, with the two states only. */
  ghost predicate IsServiceDiff(pre: map<string, Service>, post: map<string, Service>, cs: seq<ServiceChange>) {
    IsServiceDiffBut(pre, post, cs, {})
  }

  lemma HasServiceAppend(cs: seq<ServiceChange>, c: ServiceChange, k: string)
    ensures HasService(cs, k) || c.key == k ==> HasService(cs + [c], k)
  {
    if c.key == k {
      assert (cs + [c])[|cs|].key == k;
    } else if i :| 0 <= i < |cs| && cs[i].key == k {
      assert (cs + [c])[i].key == k;
    }
  }

  lemma AddServiceEntry(pre: map<string, Service>, post: map<string, Service>, cs: seq<ServiceChange>,
                        left: set<string>, c: ServiceChange)
    requires IsServiceDiffBut(pre, post, cs, left) && c.key in left && IsServiceEntry(pre, post, c)
    ensures IsServiceDiffBut(pre, post, cs + [c], left - {c.key})
  {
    forall k | k !in left - {c.key} && Get(pre, k) != Get(post, k) ensures HasService(cs + [c], k) {
      HasServiceAppend(cs, c, k);
    }
  }

  lemma SkipService(pre: map<string, Service>, post: map<string, Service>, cs: seq<ServiceChange>, left: set<string>, k: string)
    requires IsServiceDiffBut(pre, post, cs, left) && Get(pre, k) == Get(post, k)
    ensures IsServiceDiffBut(pre, post, cs, left - {k})
  {
  }

  lemma NoServiceYet(pre: map<string, Service>, post: map<string, Service>)
    ensures IsServiceDiffBut(pre, post, [], pre.Keys + post.Keys)
  {
  }

  method CompareServices(pre: map<string, Service>, post: map<string, Service>) returns (cs: seq<ServiceChange>)
    ensures IsServiceDiff(pre, post, cs)
  {
    cs := [];
    var names := pre.Keys + post.Keys;
    NoServiceYet(pre, post);
    while names != {}
      invariant IsServiceDiffBut(pre, post, cs, names)
      decreases |names|
    {
      var name :| name in names;
      var change := ServiceEntryFor(pre, post, name);
      if change.None? {
        SkipService(pre, post, cs, names, name);
      } else {
        AddServiceEntry(pre, post, cs, names, change.value);
        cs := cs + [change.value];
      }
      names := names - {name};
    }
  }

  method ServiceEntryFor(pre: map<string, Service>, post: map<string, Service>, name: string)
    returns (change: Option<ServiceChange>)
    ensures change.None? ==> Get(pre, name) == Get(post, name)
    ensures change.Some? ==> change.value.key == name && IsServiceEntry(pre, post, change.value)
  {
    if Get(pre, name) == Get(post, name) {
      return None;
    }
    var before, after := StateOf(Get(pre, name)), StateOf(Get(post, name));
    return Some(ServiceChange(name, before, after, before != after));
  }

  // ---------- the report in terms of the captured lists ----------

  /** The version of the last package of this name in the list, or None without one. */
  ghost predicate LastVersion(ps: seq<Package>, name: string, v: Option<string>) {
    match v
    case None => forall i :: 0 <= i < |ps| ==> ps[i].name != name
    case Some(x) =>
      exists i :: 0 <= i < |ps| && ps[i].name == name && ps[i].version == x
                  && forall j :: i < j < |ps| ==> ps[j].name != name
  }

  /** The last service of this name in the list. */
  ghost predicate LastService(ss: seq<Service>, name: string, s: Option<Service>) {
    match s
    case None => forall i :: 0 <= i < |ss| ==> ss[i].name != name
    case Some(x) => exists i :: 0 <= i < |ss| && ss[i] == x && x.name == name && forall j :: i < j < |ss| ==> ss[j].name != name
  }

  lemma {:induction false} VersionsAreLast(ps: seq<Package>, name: string, v: Option<string>)
    ensures LastVersion(ps, name, v) <==> v == Get(Versions(ps), name)
  {
    if ps != [] {
      var n := |ps| - 1;
      var init := ps[..n];
      VersionsAreLast(init, name, v);
      if ps[n].name == name {
        assert LastVersion(ps, name, Some(ps[n].version));
      } else {
        LastVersionOfInit(ps, name, v);
      }
    }
  }

  lemma LastVersionOfInit(ps: seq<Package>, name: string, v: Option<string>)
    requires ps != [] && ps[|ps| - 1].name != name
    ensures LastVersion(ps, name, v) <==> LastVersion(ps[..|ps| - 1], name, v)
  {
    var init := ps[..|ps| - 1];
    assert forall i :: 0 <= i < |init| ==> init[i] == ps[i];
    if LastVersion(ps, name, v) && v.Some? {
      var i :| 0 <= i < |ps| && ps[i].name == name && ps[i].version == v.value
               && forall j :: i < j < |ps| ==> ps[j].name != name;
      assert init[i].name == name;
    }
    if LastVersion(init, name, v) && v.Some? {
      var i :| 0 <= i < |init| && init[i].name == name && init[i].version == v.value
               && forall j :: i < j < |init| ==> init[j].name != name;
      assert ps[i].name == name;
    }
  }

  lemma {:induction false} ServicesAreLast(ss: seq<Service>, name: string, s: Option<Service>)
    ensures LastService(ss, name, s) <==> s == Get(ByName(ss), name)
  {
    if ss != [] {
      var n := |ss| - 1;
      var init := ss[..n];
      ServicesAreLast(init, name, s);
      if ss[n].name == name {
        assert LastService(ss, name, Some(ss[n]));
      } else {
        LastServiceOfInit(ss, name, s);
      }
    }
  }

  lemma LastServiceOfInit(ss: seq<Service>, name: string, s: Option<Service>)
    requires ss != [] && ss[|ss| - 1].name != name
    ensures LastService(ss, name, s) <==> LastService(ss[..|ss| - 1], name, s)
  {
    var init := ss[..|ss| - 1];
    assert forall i :: 0 <= i < |init| ==> init[i] == ss[i];
    if LastService(ss, name, s) && s.Some? {
      var i :| 0 <= i < |ss| && ss[i] == s.value && forall j :: i < j < |ss| ==> ss[j].name != name;
      assert init[i] == s.value;
    }
    if LastService(init, name, s) && s.Some? {
      var i :| 0 <= i < |init| && init[i] == s.value && forall j :: i < j < |init| ==> init[j].name != name;
      assert ss[i] == s.value;
    }
  }

  /** Each name whose last version differs has one entry, with exactly those versions, and no other name has any. */
  ghost predicate ReportsPackages(pre: seq<Package>, post: seq<Package>, cs: seq<Change>) {
    && (forall i :: 0 <= i < |cs| ==>
          && LastVersion(pre, cs[i].key, cs[i].before) && LastVersion(post, cs[i].key, cs[i].after)
          && cs[i].before != cs[i].after)
    && (forall i, j :: 0 <= i < j < |cs| ==> cs[i].key != cs[j].key)
    && (forall name, a, b :: LastVersion(pre, name, a) && LastVersion(post, name, b) && a != b ==> HasKey(cs, name))
  }

  /** The entry of a service that is a on the earlier and b on the later side. */
  ghost predicate ReportsService(pre: seq<Service>, post: seq<Service>, c: ServiceChange, a: Option<Service>, b: Option<Service>) {
    && LastService(pre, c.key, a) && LastService(post, c.key, b) && a != b
    && c.before == (if a.Some? then Some(a.value.state) else None)
    && c.after == (if b.Some? then Some(b.value.state) else None)
    && (c.stateChanged <==> c.before != c.after)
  }

  ghost predicate ReportsSomeService(pre: seq<Service>, post: seq<Service>, c: ServiceChange) {
    exists a, b :: ReportsService(pre, post, c, a, b)
  }

  /** Each service that differs has one entry, with its two states, and no other has any. */
  ghost predicate ReportsServices(pre: seq<Service>, post: seq<Service>, cs: seq<ServiceChange>) {
    && (forall i :: 0 <= i < |cs| ==> ReportsSomeService(pre, post, cs[i]))
    && (forall i, j :: 0 <= i < j < |cs| ==> cs[i].key != cs[j].key)
    && (forall name, a, b :: LastService(pre, name, a) && LastService(post, name, b) && a != b ==> HasService(cs, name))
  }

  lemma DiffReportsPackages(pre: seq<Package>, post: seq<Package>, cs: seq<Change>)
    requires IsDiff(Versions(pre), Versions(post), cs)
    ensures ReportsPackages(pre, post, cs)
  {
    forall i | 0 <= i < |cs|
      ensures LastVersion(pre, cs[i].key, cs[i].before) && LastVersion(post, cs[i].key, cs[i].after)
      ensures cs[i].before != cs[i].after
    {
      assert IsEntry(Versions(pre), Versions(post), cs[i]);
      VersionsAreLast(pre, cs[i].key, cs[i].before);
      VersionsAreLast(post, cs[i].key, cs[i].after);
    }
    forall name, a, b | LastVersion(pre, name, a) && LastVersion(post, name, b) && a != b ensures HasKey(cs, name) {
      VersionsAreLast(pre, name, a);
      VersionsAreLast(post, name, b);
    }
  }

  lemma DiffReportsServices(pre: seq<Service>, post: seq<Service>, cs: seq<ServiceChange>)
    requires IsServiceDiff(ByName(pre), ByName(post), cs)
    ensures ReportsServices(pre, post, cs)
  {
    forall i | 0 <= i < |cs| ensures ReportsSomeService(pre, post, cs[i]) {
      assert IsServiceEntry(ByName(pre), ByName(post), cs[i]);
      ServicesAreLast(pre, cs[i].key, Get(ByName(pre), cs[i].key));
      ServicesAreLast(post, cs[i].key, Get(ByName(post), cs[i].key));
      assert ReportsService(pre, post, cs[i], Get(ByName(pre), cs[i].key), Get(ByName(post), cs[i].key));
    }
    forall name, a, b | LastService(pre, name, a) && LastService(post, name, b) && a != b ensures HasService(cs, name) {
      ServicesAreLast(pre, name, a);
      ServicesAreLast(post, name, b);
    }
  }

  /** None stands for a snapshot that is not in the table; the call then raises. */
  method CompareSnapshots(pre: Option<Snapshot>, post: Option<Snapshot>) returns (r: Result<Report, ()>)
    ensures r.Ok? <==> pre.Some? && post.Some?
    ensures r.Ok? ==> IsReport(pre.value, post.value, r.value)
    ensures r.Ok? ==>
              && ReportsPackages(pre.value.packages, post.value.packages, r.value.packages)
              && ReportsServices(pre.value.services, post.value.services, r.value.services)
  {
    if pre == None || post == None {
      return Err(());
    }
    var packages := CompareMaps(Versions(pre.value.packages), Versions(post.value.packages));
    var configs := CompareMaps(pre.value.configs, post.value.configs);
    var services := CompareServices(ByName(pre.value.services), ByName(post.value.services));
    DiffReportsPackages(pre.value.packages, post.value.packages, packages);
    DiffReportsServices(pre.value.services, post.value.services, services);
    return Ok(Report(packages, configs, services, pre.value.kernel != post.value.kernel));
  }

  ghost predicate IsReport(pre: Snapshot, post: Snapshot, r: Report) {
    && IsDiff(Versions(pre.packages), Versions(post.packages), r.packages)
    && IsDiff(pre.configs, post.configs, r.configs)
    && IsServiceDiff(ByName(pre.services), ByName(post.services), r.services)
    && (r.kernelChanged <==> pre.kernel != post.kernel)
  }

  /** A report without changes: every name has the same last version and the same last service on both sides. */
  lemma ReportIsEmptyIff(pre: Snapshot, post: Snapshot, r: Report)
    requires IsReport(pre, post, r)
    ensures r.packages == [] && r.configs == [] && r.services == [] && !r.kernelChanged
       <==> && (forall name, v :: LastVersion(pre.packages, name, v) <==> LastVersion(post.packages, name, v))
            && pre.configs == post.configs
            && (forall name, s :: LastService(pre.services, name, s) <==> LastService(post.services, name, s))
            && pre.kernel == post.kernel
  {
    DiffIsEmptyIff(Versions(pre.packages), Versions(post.packages), r.packages);
    DiffIsEmptyIff(pre.configs, post.configs, r.configs);
    ServiceDiffIsEmptyIff(ByName(pre.services), ByName(post.services), r.services);
    SameVersionsIff(pre.packages, post.packages);
    SameByNameIff(pre.services, post.services);
  }

  lemma SameVersionsIff(a: seq<Package>, b: seq<Package>)
    ensures Versions(a) == Versions(b) <==> forall name, v :: LastVersion(a, name, v) <==> LastVersion(b, name, v)
  {
    forall name, v ensures LastVersion(a, name, v) <==> v == Get(Versions(a), name) {
      VersionsAreLast(a, name, v);
    }
    forall name, v ensures LastVersion(b, name, v) <==> v == Get(Versions(b), name) {
      VersionsAreLast(b, name, v);
    }
    if forall name, v :: LastVersion(a, name, v) <==> LastVersion(b, name, v) {
      forall name ensures Get(Versions(a), name) == Get(Versions(b), name) {
        assert LastVersion(a, name, Get(Versions(a), name));
      }
      SameEverywhere(Versions(a), Versions(b));
    }
  }

  lemma SameByNameIff(a: seq<Service>, b: seq<Service>)
    ensures ByName(a) == ByName(b) <==> forall name, s :: LastService(a, name, s) <==> LastService(b, name, s)
  {
    forall name, s ensures LastService(a, name, s) <==> s == Get(ByName(a), name) {
      ServicesAreLast(a, name, s);
    }
    forall name, s ensures LastService(b, name, s) <==> s == Get(ByName(b), name) {
      ServicesAreLast(b, name, s);
    }
    if forall name, s :: LastService(a, name, s) <==> LastService(b, name, s) {
      forall name ensures Get(ByName(a), name) == Get(ByName(b), name) {
        assert LastService(a, name, Get(ByName(a), name));
      }
      SameServices(ByName(a), ByName(b));
    }
  }

  lemma ServiceDiffIsEmptyIff(pre: map<string, Service>, post: map<string, Service>, cs: seq<ServiceChange>)
    requires IsServiceDiff(pre, post, cs)
    ensures cs == [] <==> pre == post
  {
    if cs == [] {
      forall k ensures Get(pre, k) == Get(post, k) {
      }
      forall k ensures k in pre <==> k in post {
        assert Get(pre, k) == Get(post, k);
      }
      forall k | k in pre ensures pre[k] == post[k] {
        assert Get(pre, k) == Get(post, k);
      }
    } else {
      assert Get(pre, cs[0].key) != Get(post, cs[0].key);
    }
  }

  // ---------- services: states can be read back, the enabled flag cannot always ----------

  function States(m: map<string, Service>): map<string, string> {
    map k | k in m :: m[k].state
  }

  function StateChanges(cs: seq<ServiceChange>): (r: seq<Change>)
    ensures |r| == |cs|
    ensures forall i :: 0 <= i < |cs| ==> r[i] == Change(cs[i].key, cs[i].before, cs[i].after, KindOf(cs[i].before, cs[i].after))
  {
    if cs == [] then []
    else
      var c := cs[|cs| - 1];
      StateChanges(cs[..|cs| - 1]) + [Change(c.key, c.before, c.after, KindOf(c.before, c.after))]
  }

  /** The recorded states lead from the earlier states to the later ones and back. */
  lemma ServiceStatesRoundTrip(pre: map<string, Service>, post: map<string, Service>, cs: seq<ServiceChange>)
    requires IsServiceDiff(pre, post, cs)
    ensures Apply(States(pre), StateChanges(cs)) == States(post)
    ensures Apply(States(post), Undone(StateChanges(cs))) == States(pre)
  {
    assert Covers(States(pre), States(post), StateChanges(cs)) by {
      forall k | Get(States(pre), k) != Get(States(post), k)
        ensures HasKey(StateChanges(cs), k)
      {
        assert Get(pre, k) != Get(post, k);
        var i :| 0 <= i < |cs| && cs[i].key == k;
        assert StateChanges(cs)[i].key == k;
      }
    }
    ApplyGivesPost(States(pre), States(post), StateChanges(cs));
    UndoGivesPre(States(pre), States(post), StateChanges(cs));
  }

  /** Every service is stored under its own name, as ByName does. */
  ghost predicate Named(m: map<string, Service>) {
    forall k :: k in m ==> m[k].name == k
  }

  lemma {:induction false} ByNameNames(ss: seq<Service>)
    ensures Named(ByName(ss))
  {
    if ss != [] {
      ByNameNames(ss[..|ss| - 1]);
    }
  }

  /** An entry that shows no difference stands for a service in the same state whose flag changed. */
  lemma UnexplainedEntryIff(pre: seq<Service>, post: seq<Service>, cs: seq<ServiceChange>, i: nat)
    requires IsServiceDiff(ByName(pre), ByName(post), cs) && i < |cs|
    ensures var a, b := Get(ByName(pre), cs[i].key), Get(ByName(post), cs[i].key);
            !cs[i].stateChanged
            <==> a.Some? && b.Some? && a.value.state == b.value.state && a.value.enabled != b.value.enabled
  {
    ByNameNames(pre);
    ByNameNames(post);
    assert Get(ByName(pre), cs[i].key) != Get(ByName(post), cs[i].key);
  }

  ghost predicate LaterSideIsKnown(pre: map<string, Service>, post: map<string, Service>, cs: seq<ServiceChange>) {
    forall other :: Named(other) && IsServiceDiff(pre, other, cs) ==> other == post
  }

  ghost predicate EarlierSideIsKnown(pre: map<string, Service>, post: map<string, Service>, cs: seq<ServiceChange>) {
    forall other :: Named(other) && IsServiceDiff(other, post, cs) ==> other == pre
  }

  lemma SameServices(a: map<string, Service>, b: map<string, Service>)
    requires forall k :: Get(a, k) == Get(b, k)
    ensures a == b
  {
    forall k ensures k in a <==> k in b {
      assert Get(a, k) == Get(b, k);
    }
    forall k | k in a ensures a[k] == b[k] {
      assert Get(a, k) == Get(b, k);
    }
  }

  function Flipped(s: Service): Service {
    Service(s.name, s.state, !s.enabled)
  }

  /** With no new state recorded, an entry leaves nothing open: the service is gone, or only its flag changed. */
  lemma LaterServiceIsKnown(pre: map<string, Service>, post: map<string, Service>, other: map<string, Service>,
                            cs: seq<ServiceChange>, k: string)
    requires Named(pre) && Named(post) && Named(other)
    requires IsServiceDiff(pre, post, cs) && IsServiceDiff(pre, other, cs)
    requires forall i :: 0 <= i < |cs| && cs[i].stateChanged ==> cs[i].after == None
    ensures Get(other, k) == Get(post, k)
  {
    if HasService(cs, k) {
      var i :| 0 <= i < |cs| && cs[i].key == k;
      assert IsServiceEntry(pre, post, cs[i]) && IsServiceEntry(pre, other, cs[i]);
    }
  }

  /** A recorded new state goes with either flag. */
  lemma EitherFlagFits(pre: map<string, Service>, post: map<string, Service>, cs: seq<ServiceChange>, i: nat)
    requires IsServiceDiff(pre, post, cs) && i < |cs| && cs[i].stateChanged && cs[i].after.Some?
    ensures cs[i].key in post && IsServiceDiff(pre, post[cs[i].key := Flipped(post[cs[i].key])], cs)
  {
    var k := cs[i].key;
    assert IsServiceEntry(pre, post, cs[i]);
    var other := post[k := Flipped(post[k])];
    forall j | 0 <= j < |cs| ensures IsServiceEntry(pre, other, cs[j]) {
      assert IsServiceEntry(pre, post, cs[j]);
    }
    forall x | Get(pre, x) != Get(other, x) ensures HasService(cs, x) {
      if x != k {
        assert Get(pre, x) != Get(post, x);
      }
    }
  }

  /**
   The entries and the earlier side determine the later side exactly when no entry records a new state: the
   enabled flag is lost with every service that is added or changes its state, and only there.
   */
  lemma LaterSideIsKnownIff(pre: map<string, Service>, post: map<string, Service>, cs: seq<ServiceChange>)
    requires Named(pre) && Named(post) && IsServiceDiff(pre, post, cs)
    ensures LaterSideIsKnown(pre, post, cs)
       <==> forall i :: 0 <= i < |cs| && cs[i].stateChanged ==> cs[i].after == None
  {
    if i :| 0 <= i < |cs| && cs[i].stateChanged && cs[i].after.Some? {
      EitherFlagFits(pre, post, cs, i);
      var k := cs[i].key;
      var other := post[k := Flipped(post[k])];
      assert Named(other) && IsServiceDiff(pre, other, cs);
      assert other[k].enabled != post[k].enabled;
    } else {
      forall other | Named(other) && IsServiceDiff(pre, other, cs) ensures other == post {
        forall k ensures Get(other, k) == Get(post, k) {
          LaterServiceIsKnown(pre, post, other, cs, k);
        }
        SameServices(other, post);
      }
    }
  }

  /** The entries read backwards. */
  function Backwards(cs: seq<ServiceChange>): (r: seq<ServiceChange>)
    ensures |r| == |cs|
    ensures forall i :: 0 <= i < |cs| ==> r[i] == ServiceChange(cs[i].key, cs[i].after, cs[i].before, cs[i].stateChanged)
  {
    if cs == [] then []
    else
      var c := cs[|cs| - 1];
      Backwards(cs[..|cs| - 1]) + [ServiceChange(c.key, c.after, c.before, c.stateChanged)]
  }

  lemma BackwardsIsDiff(pre: map<string, Service>, post: map<string, Service>, cs: seq<ServiceChange>)
    ensures IsServiceDiff(pre, post, cs) ==> IsServiceDiff(post, pre, Backwards(cs))
  {
    if IsServiceDiff(pre, post, cs) {
      forall i | 0 <= i < |cs| ensures IsServiceEntry(post, pre, Backwards(cs)[i]) {
        assert IsServiceEntry(pre, post, cs[i]);
      }
      forall k | Get(post, k) != Get(pre, k) ensures HasService(Backwards(cs), k) {
        var i :| 0 <= i < |cs| && cs[i].key == k;
        assert Backwards(cs)[i].key == k;
      }
    }
  }

  /** They and the later side determine the earlier side exactly when no entry records an old state. */
  lemma EarlierSideIsKnownIff(pre: map<string, Service>, post: map<string, Service>, cs: seq<ServiceChange>)
    requires Named(pre) && Named(post) && IsServiceDiff(pre, post, cs)
    ensures EarlierSideIsKnown(pre, post, cs)
       <==> forall i :: 0 <= i < |cs| && cs[i].stateChanged ==> cs[i].before == None
  {
    var back := Backwards(cs);
    assert Backwards(back) == cs;
    BackwardsIsDiff(pre, post, cs);
    LaterSideIsKnownIff(post, pre, back);
    forall other ensures IsServiceDiff(other, post, cs) <==> IsServiceDiff(post, other, back) {
      BackwardsIsDiff(other, post, cs);
      BackwardsIsDiff(post, other, back);
    }
    assert EarlierSideIsKnown(pre, post, cs) <==> LaterSideIsKnown(post, pre, back);
    if i :| 0 <= i < |cs| && cs[i].stateChanged && cs[i].before.Some? {
      assert back[i].stateChanged && back[i].after.Some?;
    }
    if i :| 0 <= i < |back| && back[i].stateChanged && back[i].after.Some? {
      assert cs[i].stateChanged && cs[i].before.Some?;
    }
  }

  /** Both sides can be read back exactly from comparisons in which no state changed. */
  lemma RoundTripIff(pre: map<string, Service>, post: map<string, Service>, cs: seq<ServiceChange>)
    requires Named(pre) && Named(post) && IsServiceDiff(pre, post, cs)
    ensures LaterSideIsKnown(pre, post, cs) && EarlierSideIsKnown(pre, post, cs)
       <==> forall i :: 0 <= i < |cs| ==> !cs[i].stateChanged
  {
    LaterSideIsKnownIff(pre, post, cs);
    EarlierSideIsKnownIff(pre, post, cs);
    forall i | 0 <= i < |cs| && cs[i].stateChanged && cs[i].after == None ensures cs[i].before != None {
      assert IsServiceEntry(pre, post, cs[i]);
    }
  }
}

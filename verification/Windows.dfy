/** Choice of a maintenance window (backend/models/maintenance_window.py). */
module Windows {
  import opened Results

  datatype Window = Window(
    tenant: int, active: bool, start: int, priority: int, isDefault: bool,
    service: Option<string>, group: Option<string>, environment: Option<string>)

  /** The JSON column holds a list by default; only a dictionary can be asked for its entries. */
  datatype Tags = NoTags | TagList(first: string) | TagDict(service: Option<string>, group: Option<string>)

  datatype Asset = Asset(tags: Tags, environment: Option<string>)

  datatype Error = NoAttribute

  /** What the cascade asks for; empty strings count as absent. */
  datatype Wanted = Wanted(service: Option<string>, group: Option<string>, environment: Option<string>)

  predicate Truthy(s: Option<string>) {
    s.Some? && s.value != ""
  }

  /** The environment given by the caller goes before the asset's. */
  function WantedOf(asset: Option<Asset>, environment: Option<string>): Result<Wanted, Error> {
    if asset == None then Ok(Wanted(None, None, environment))
    else
      var a := asset.value;
      var e := if Truthy(environment) then environment else a.environment;
      match a.tags
      case NoTags => Ok(Wanted(None, None, e))
      case TagList(_) => Err(NoAttribute)
      case TagDict(service, group) => Ok(Wanted(service, group, e))
  }

  predicate Eligible(w: Window, tenant: int, now: int) {
    w.tenant == tenant && w.active && w.start > now
  }

  /** The condition of the n-th query, the guard before it included. */
  predicate Matches(w: Window, q: Wanted, tier: int) {
    if tier == 1 then Truthy(q.service) && Truthy(q.environment) && w.service == q.service && w.environment == q.environment
    else if tier == 2 then Truthy(q.group) && Truthy(q.environment) && w.group == q.group && w.environment == q.environment
    else if tier == 3 then Truthy(q.environment) && w.environment == q.environment && w.service == None && w.group == None
    else tier == 4 && w.isDefault
  }

  /** ORDER BY of the queries: priority counts in the first three tiers only. */
  predicate Precedes(a: Window, b: Window, tier: int) {
    if tier <= 3 then a.priority > b.priority || (a.priority == b.priority && a.start <= b.start)
    else a.start <= b.start
  }

  /** One query with LIMIT 1; the first of equally ranked windows stands for any of them. */
  function Query(ws: seq<Window>, tenant: int, now: int, q: Wanted, tier: int): Option<Window> {
    if ws == [] then None
    else
      var rest := Query(ws[1..], tenant, now, q, tier);
      if !Eligible(ws[0], tenant, now) || !Matches(ws[0], q, tier) then rest
      else if rest == None || Precedes(ws[0], rest.value, tier) then Some(ws[0])
      else rest
  }

  function Cascade(ws: seq<Window>, tenant: int, now: int, q: Wanted): Option<Window> {
    var first := Query(ws, tenant, now, q, 1);
    if first.Some? then first
    else
      var second := Query(ws, tenant, now, q, 2);
      if second.Some? then second
      else
        var third := Query(ws, tenant, now, q, 3);
        if third.Some? then third else Query(ws, tenant, now, q, 4)
  }

  function FindBestWindow(ws: seq<Window>, tenant: int, now: int, asset: Option<Asset>, environment: Option<string>)
    : Result<Option<Window>, Error>
  {
    match WantedOf(asset, environment)
    case Err(e) => Err(e)
    case Ok(q) => Ok(Cascade(ws, tenant, now, q))
  }

  // ---------- one lexicographic order ----------

  datatype Rank = Rank(tier: int, priority: int, start: int)

  predicate NoLater(a: Rank, b: Rank) {
    a.tier < b.tier
    || (a.tier == b.tier && (a.priority > b.priority || (a.priority == b.priority && a.start <= b.start)))
  }

  /** Both name the same thing, and it is not empty. */
  predicate Same(scope: Option<string>, wanted: Option<string>) {
    scope.Some? && wanted.Some? && scope.value == wanted.value && wanted.value != ""
  }

  /** The most specific tier a window belongs to, then its priority (none for a default window) and start. */
  function RankOf(w: Window, q: Wanted): Option<Rank> {
    if Same(w.environment, q.environment) && Same(w.service, q.service) then Some(Rank(1, w.priority, w.start))
    else if Same(w.environment, q.environment) && Same(w.group, q.group) then Some(Rank(2, w.priority, w.start))
    else if Same(w.environment, q.environment) && w.service == None && w.group == None then Some(Rank(3, w.priority, w.start))
    else if w.isDefault then Some(Rank(4, 0, w.start))
    else None
  }

  /** The windows the call may choose from: the tenant's active ones that start in the future and have a rank. */
  ghost predicate Candidate(w: Window, ws: seq<Window>, tenant: int, now: int, q: Wanted) {
    w in ws && w.tenant == tenant && w.active && w.start > now && RankOf(w, q).Some?
  }

  lemma RankIsFirstMatch(w: Window, q: Wanted)
    ensures RankOf(w, q) ==
            if Matches(w, q, 1) then Some(Rank(1, w.priority, w.start))
            else if Matches(w, q, 2) then Some(Rank(2, w.priority, w.start))
            else if Matches(w, q, 3) then Some(Rank(3, w.priority, w.start))
            else if Matches(w, q, 4) then Some(Rank(4, 0, w.start))
            else None
  {
  }

  /** Nothing if there is no candidate, else a candidate that ranks before all others, up to ties. */
  ghost predicate IsLeast(r: Option<Window>, ws: seq<Window>, tenant: int, now: int, q: Wanted) {
    && (r == None <==> forall w :: !Candidate(w, ws, tenant, now, q))
    && (r.Some? ==>
          && Candidate(r.value, ws, tenant, now, q)
          && forall w :: Candidate(w, ws, tenant, now, q) ==> NoLater(RankOf(r.value, q).value, RankOf(w, q).value))
  }

  lemma {:induction false} QueryIsBest(ws: seq<Window>, tenant: int, now: int, q: Wanted, tier: int)
    ensures Query(ws, tenant, now, q, tier) == None
       <==> forall w :: w in ws && Eligible(w, tenant, now) ==> !Matches(w, q, tier)
    ensures var r := Query(ws, tenant, now, q, tier);
            r.Some? ==>
              && r.value in ws && Eligible(r.value, tenant, now) && Matches(r.value, q, tier)
              && forall w :: w in ws && Eligible(w, tenant, now) && Matches(w, q, tier) ==> Precedes(r.value, w, tier)
  {
    if ws != [] {
      QueryIsBest(ws[1..], tenant, now, q, tier);
      assert ws == [ws[0]] + ws[1..];
    }
  }

  /** Nothing is found exactly when no eligible window matches any tier; what is found ranks before all that could be. */
  lemma CascadeIsLexicographic(ws: seq<Window>, tenant: int, now: int, q: Wanted)
    ensures IsLeast(Cascade(ws, tenant, now, q), ws, tenant, now, q)
  {
    QueryIsBest(ws, tenant, now, q, 1);
    QueryIsBest(ws, tenant, now, q, 2);
    QueryIsBest(ws, tenant, now, q, 3);
    QueryIsBest(ws, tenant, now, q, 4);
    var r := Cascade(ws, tenant, now, q);
    forall w ensures RankOf(w, q) ==
                     if Matches(w, q, 1) then Some(Rank(1, w.priority, w.start))
                     else if Matches(w, q, 2) then Some(Rank(2, w.priority, w.start))
                     else if Matches(w, q, 3) then Some(Rank(3, w.priority, w.start))
                     else if Matches(w, q, 4) then Some(Rank(4, 0, w.start))
                     else None
    {
      RankIsFirstMatch(w, q);
    }
    if r.Some? {
      assert Candidate(r.value, ws, tenant, now, q);
    }
    forall w | Candidate(w, ws, tenant, now, q)
      ensures r.Some? && NoLater(RankOf(r.value, q).value, RankOf(w, q).value)
    {
    }
  }

  /**
   The whole call: it raises exactly when the asset's tags are a list with an entry; otherwise it
   answers with the least candidate, or with none if there is no candidate.
   */
  lemma FindsTheLeast(ws: seq<Window>, tenant: int, now: int, asset: Option<Asset>, environment: Option<string>)
    ensures FindBestWindow(ws, tenant, now, asset, environment).Err? <==> asset.Some? && asset.value.tags.TagList?
    ensures asset.Some? && asset.value.tags.TagDict? ==>
              var r := FindBestWindow(ws, tenant, now, asset, environment).value;
              var e := if environment == None || environment == Some("") then asset.value.environment else environment;
              IsLeast(r, ws, tenant, now, Wanted(asset.value.tags.service, asset.value.tags.group, e))
    ensures asset.Some? && asset.value.tags.NoTags? ==>
              var r := FindBestWindow(ws, tenant, now, asset, environment).value;
              var e := if environment == None || environment == Some("") then asset.value.environment else environment;
              IsLeast(r, ws, tenant, now, Wanted(None, None, e))
    ensures asset == None ==>
              var r := FindBestWindow(ws, tenant, now, asset, environment).value;
              IsLeast(r, ws, tenant, now, Wanted(None, None, environment))
  {
    if WantedOf(asset, environment).Ok? {
      CascadeIsLexicographic(ws, tenant, now, WantedOf(asset, environment).value);
    }
  }
}

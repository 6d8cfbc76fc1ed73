/**
 Approval requests and the execution gate (backend/services/approval_service.py and
 backend/services/deployment_service.py), one service call at a time. Times are seconds.
 */
module Approvals {
  import opened Results
  import Rules = RuleEngine

  datatype Status = Pending | Approved | Rejected | Expired

  datatype Risk = LowRisk | MediumRisk | HighRisk | CriticalRisk

  datatype Role = Admin | Engineer | Viewer | Approver

  /** An absent list of required roles counts as an empty one. */
  datatype Policy = Policy(tenant: int, risk: Risk, required: int, roles: set<Role>, autoApproveLow: bool, escalationHours: int)

  datatype Request = Request(
    bundle: int, tenant: int, risk: Risk, status: Status, required: int, current: int, expiresAt: int)

  datatype Action = Action(request: int, user: int, status: Status)

  datatype BundleStatus = Draft | Scheduled | BundleApproved | InProgress | Completed | Failed | Cancelled

  datatype Bundle = Bundle(tenant: int, status: BundleStatus, approvedBy: Option<int>)

  datatype Error =
    | NotFound | NotPending | HasExpired | UnknownUser | NotPermitted | AlreadyApproved
    | SeveralPolicies | DuplicateId | NotApproved | Blocked

  /** The three tables the services write. */
  datatype Tables = Tables(requests: map<int, Request>, actions: seq<Action>, bundles: map<int, Bundle>)

  /** What a call reads besides: users, policies, rules and the clock, all of which may change between calls. */
  datatype Env = Env(users: map<int, Role>, policies: seq<Policy>, rules: seq<Rules.Rule>, now: int, moment: Rules.Moment)

  // ---------- policies and permissions ----------

  function PoliciesFor(ps: seq<Policy>, tenant: int, risk: Risk): seq<Policy> {
    if ps == [] then []
    else (if ps[0].tenant == tenant && ps[0].risk == risk then [ps[0]] else []) + PoliciesFor(ps[1..], tenant, risk)
  }

  /** The query accepts at most one row. */
  function PolicyFor(env: Env, tenant: int, risk: Risk): Result<Option<Policy>, Error> {
    var ps := PoliciesFor(env.policies, tenant, risk);
    if |ps| > 1 then Err(SeveralPolicies) else if |ps| == 1 then Ok(Some(ps[0])) else Ok(None)
  }

  function CanApprove(env: Env, role: Role, req: Request): Result<bool, Error> {
    if role == Admin || role == Approver then Ok(true)
    else
      match PolicyFor(env, req.tenant, req.risk)
      case Err(e) => Err(e)
      case Ok(p) => Ok(p.Some? && role in p.value.roles)
  }

  /** The user exists and may approve or reject this request. */
  function Permission(env: Env, user: int, req: Request): Result<(), Error> {
    if user !in env.users then Err(UnknownUser)
    else
      match CanApprove(env, env.users[user], req)
      case Err(e) => Err(e)
      case Ok(ok) => if ok then Ok(()) else Err(NotPermitted)
  }

  /** The only policy for the tenant and the risk is row i. */
  ghost predicate OnlyPolicy(policies: seq<Policy>, tenant: int, risk: Risk, i: int) {
    && 0 <= i < |policies| && policies[i].tenant == tenant && policies[i].risk == risk
    && forall j :: 0 <= j < |policies| && policies[j].tenant == tenant && policies[j].risk == risk ==> j == i
  }

  ghost predicate NoPolicy(policies: seq<Policy>, tenant: int, risk: Risk) {
    forall j :: 0 <= j < |policies| ==> policies[j].tenant != tenant || policies[j].risk != risk
  }

  /**
   Who may approve or reject a request of this tenant and risk: a known user who is administrator or
   approver, or whose role is listed in the one policy there is.
   */
  ghost predicate MayDecide(users: map<int, Role>, policies: seq<Policy>, user: int, tenant: int, risk: Risk) {
    user in users &&
    (users[user] == Admin || users[user] == Approver
     || exists i :: OnlyPolicy(policies, tenant, risk, i) && users[user] in policies[i].roles)
  }

  lemma FirstConcerns(ps: seq<Policy>, tenant: int, risk: Risk)
    requires ps != [] && ps[0].tenant == tenant && ps[0].risk == risk
    ensures !NoPolicy(ps, tenant, risk)
    ensures forall i :: OnlyPolicy(ps, tenant, risk, i) ==> i == 0 && NoPolicy(ps[1..], tenant, risk)
    ensures NoPolicy(ps[1..], tenant, risk) ==> OnlyPolicy(ps, tenant, risk, 0)
  {
    forall i | OnlyPolicy(ps, tenant, risk, i) ensures NoPolicy(ps[1..], tenant, risk) {
      forall j | 0 <= j < |ps[1..]| ensures ps[1..][j].tenant != tenant || ps[1..][j].risk != risk {
        assert ps[j + 1] == ps[1..][j];
      }
    }
    forall j | NoPolicy(ps[1..], tenant, risk) && 0 < j < |ps| ensures ps[j].tenant != tenant || ps[j].risk != risk {
      assert ps[j] == ps[1..][j - 1];
    }
  }

  lemma FirstDoesNotConcern(ps: seq<Policy>, tenant: int, risk: Risk)
    requires ps != [] && (ps[0].tenant != tenant || ps[0].risk != risk)
    ensures NoPolicy(ps, tenant, risk) <==> NoPolicy(ps[1..], tenant, risk)
    ensures forall i :: OnlyPolicy(ps, tenant, risk, i) ==> i > 0 && OnlyPolicy(ps[1..], tenant, risk, i - 1)
    ensures forall i :: OnlyPolicy(ps[1..], tenant, risk, i) ==> OnlyPolicy(ps, tenant, risk, i + 1)
  {
    assert forall j :: 0 < j < |ps| ==> ps[j] == ps[1..][j - 1];
    assert forall j :: 0 <= j < |ps[1..]| ==> ps[1..][j] == ps[j + 1];
  }

  /** The rows of the query: none, the only one, or several. */
  lemma {:induction false} PoliciesForMeans(ps: seq<Policy>, tenant: int, risk: Risk)
    ensures PoliciesFor(ps, tenant, risk) == [] <==> NoPolicy(ps, tenant, risk)
    ensures forall i :: OnlyPolicy(ps, tenant, risk, i) ==> PoliciesFor(ps, tenant, risk) == [ps[i]]
    ensures |PoliciesFor(ps, tenant, risk)| == 1 ==> exists i :: OnlyPolicy(ps, tenant, risk, i)
  {
    if ps != [] {
      var rest := ps[1..];
      PoliciesForMeans(rest, tenant, risk);
      assert ps == [ps[0]] + rest;
      if ps[0].tenant == tenant && ps[0].risk == risk {
        FirstConcerns(ps, tenant, risk);
      } else {
        FirstDoesNotConcern(ps, tenant, risk);
      }
    }
  }

  lemma PermissionMeans(env: Env, user: int, req: Request)
    ensures Permission(env, user, req).Ok? <==> MayDecide(env.users, env.policies, user, req.tenant, req.risk)
  {
    PoliciesForMeans(env.policies, req.tenant, req.risk);
  }

  // ---------- the calls as functions of the tables ----------

  /** The request a creation call stores; a matching policy may approve low risk at once. */
  function NewRequest(policy: Option<Policy>, bundle: int, tenant: int, risk: Risk, now: int): Request {
    var required := if policy.Some? then policy.value.required else 1;
    var auto := policy.Some? && policy.value.autoApproveLow && risk == LowRisk;
    var hours := if policy.Some? then policy.value.escalationHours else 48;
    Request(bundle, tenant, risk, if auto then Approved else Pending, required,
            if auto then required else 0, now + 3600 * hours)
  }

  function Create(db: Tables, env: Env, id: int, bundle: int, tenant: int, risk: Risk): (Tables, Result<int, Error>) {
    if bundle !in db.bundles then (db, Err(NotFound))
    else
      match PolicyFor(env, tenant, risk)
      case Err(e) => (db, Err(e))
      case Ok(policy) =>
        if id in db.requests then (db, Err(DuplicateId))
        else (db.(requests := db.requests[id := NewRequest(policy, bundle, tenant, risk, env.now)]), Ok(id))
  }

  /** The users with an approval on record for the request. */
  function ApprovedBy(actions: seq<Action>, id: int): set<int> {
    if actions == [] then {}
    else
      var a := actions[|actions| - 1];
      ApprovedBy(actions[..|actions| - 1], id) + if a.request == id && a.status == Approved then {a.user} else {}
  }

  function SetStatus(bundles: map<int, Bundle>, b: int, s: BundleStatus, approver: Option<int>): map<int, Bundle> {
    if b !in bundles then bundles
    else bundles[b := bundles[b].(status := s, approvedBy := if approver.Some? then approver else bundles[b].approvedBy)]
  }

  function Approve(db: Tables, env: Env, id: int, user: int): (Tables, Result<Action, Error>) {
    if id !in db.requests then (db, Err(NotFound))
    else
      var req := db.requests[id];
      if req.status != Pending then (db, Err(NotPending))
      else if env.now > req.expiresAt then
        (db.(requests := db.requests[id := req.(status := Expired)]), Err(HasExpired))
      else
        match Permission(env, user, req)
        case Err(e) => (db, Err(e))
        case Ok(_) =>
          if user in ApprovedBy(db.actions, id) then (db, Err(AlreadyApproved))
          else
            var action := Action(id, user, Approved);
            var enough := req.current + 1 >= req.required;
            (Tables(
               db.requests[id := req.(current := req.current + 1, status := if enough then Approved else Pending)],
               db.actions + [action],
               if enough then SetStatus(db.bundles, req.bundle, BundleApproved, Some(user)) else db.bundles),
             Ok(action))
  }

  function Reject(db: Tables, env: Env, id: int, user: int): (Tables, Result<Action, Error>) {
    if id !in db.requests then (db, Err(NotFound))
    else
      var req := db.requests[id];
      if req.status != Pending then (db, Err(NotPending))
      else
        match Permission(env, user, req)
        case Err(e) => (db, Err(e))
        case Ok(_) =>
          var action := Action(id, user, Rejected);
          (Tables(
             db.requests[id := req.(status := Rejected)],
             db.actions + [action],
             SetStatus(db.bundles, req.bundle, Cancelled, None)),
           Ok(action))
  }

  /** A pending request past its time, in the tenant asked about if any. */
  predicate IsOverdue(req: Request, now: int, tenant: Option<int>) {
    req.status == Pending && req.expiresAt < now && (tenant.Some? ==> req.tenant == tenant.value)
  }

  function Sweep(requests: map<int, Request>, now: int, tenant: Option<int>): map<int, Request> {
    map id | id in requests :: if IsOverdue(requests[id], now, tenant) then requests[id].(status := Expired) else requests[id]
  }

  function CheckExpired(db: Tables, env: Env, tenant: Option<int>): Tables {
    Tables(Sweep(db.requests, env.now, tenant), db.actions, db.bundles)
  }

  /** execute_bundle up to its first commit. */
  ghost function StartExecution(db: Tables, env: Env, b: int, tenant: int): (Tables, Result<(), Error>) {
    if b !in db.bundles || db.bundles[b].tenant != tenant then (db, Err(NotFound))
    else if db.bundles[b].status != BundleApproved then (db, Err(NotApproved))
    else if Rules.VerdictFor(env.rules, tenant, Rules.NO_CONTEXT, env.moment) == Rules.VerdictBlock then (db, Err(Blocked))
    else (db.(bundles := SetStatus(db.bundles, b, InProgress, None)), Ok(()))
  }

  /** Partial success still counts as completed. */
  function FinalStatus(successes: nat, failures: nat): BundleStatus {
    if failures == 0 then Completed else if successes == 0 then Failed else Completed
  }

  /** execute_bundle from its item loop on. */
  function FinishExecution(db: Tables, b: int, successes: nat, failures: nat): Tables {
    db.(bundles := SetStatus(db.bundles, b, FinalStatus(successes, failures), None))
  }

  // ---------- when the calls succeed and what they do, in terms of the rows ----------

  /** Only this request's row differs, and there is at most one more action. */
  ghost predicate OthersKept(db: Tables, db': Tables, id: int) {
    && (forall i :: i != id ==> (i in db'.requests <==> i in db.requests))
    && (forall i :: i in db.requests && i != id ==> db'.requests[i] == db.requests[i])
    && |db.actions| <= |db'.actions| && db'.actions[..|db.actions|] == db.actions
  }

  lemma {:induction false} ApprovedByMeans(actions: seq<Action>, id: int, user: int)
    ensures user in ApprovedBy(actions, id) <==> Action(id, user, Approved) in actions
  {
    if actions != [] {
      var n := |actions| - 1;
      ApprovedByMeans(actions[..n], id, user);
      assert actions == actions[..n] + [actions[n]];
    }
  }

  /**
   An approval succeeds exactly for a pending request up to and including its expiry time, by a user who
   may decide it and has no approval of it on record; past that time it marks the request expired.
   */
  lemma ApproveSucceedsIff(db: Tables, env: Env, id: int, user: int)
    ensures var (db', r) := Approve(db, env, id, user);
            && (r.Ok? <==>
                  && id in db.requests && db.requests[id].status == Pending && env.now <= db.requests[id].expiresAt
                  && MayDecide(env.users, env.policies, user, db.requests[id].tenant, db.requests[id].risk)
                  && Action(id, user, Approved) !in db.actions)
            && (r == Err(HasExpired) <==>
                  id in db.requests && db.requests[id].status == Pending && env.now > db.requests[id].expiresAt)
            && (r == Err(HasExpired) ==>
                  id in db'.requests && db'.requests[id] == db.requests[id].(status := Expired)
                  && OthersKept(db, db', id) && db'.actions == db.actions && db'.bundles == db.bundles)
            && (r.Err? && r.error != HasExpired ==> db' == db)
  {
    ApprovedByMeans(db.actions, id, user);
    if id in db.requests {
      PermissionMeans(env, user, db.requests[id]);
    }
  }

  /** What a successful approval leaves: one more action and count, and at the quota an approved request and bundle. */
  lemma ApproveRecords(db: Tables, env: Env, id: int, user: int)
    requires Approve(db, env, id, user).1.Ok?
    ensures var db' := Approve(db, env, id, user).0;
            var before := db.requests[id];
            && OthersKept(db, db', id) && db'.actions == db.actions + [Action(id, user, Approved)]
            && Approve(db, env, id, user).1 == Ok(Action(id, user, Approved))
            && id in db'.requests
            && if before.current + 1 < before.required then
                 db'.requests[id] == before.(current := before.current + 1) && db'.bundles == db.bundles
               else
                 && db'.requests[id] == before.(current := before.current + 1, status := Approved)
                 && db'.bundles.Keys == db.bundles.Keys
                 && forall b :: b in db.bundles ==>
                      db'.bundles[b] == if b == before.bundle
                                        then Bundle(db.bundles[b].tenant, BundleApproved, Some(user)) else db.bundles[b]
  {
  }

  /** A rejection succeeds exactly for a pending request, expired or not, by a user who may decide it, and cancels the bundle. */
  lemma RejectSucceedsIff(db: Tables, env: Env, id: int, user: int)
    ensures var (db', r) := Reject(db, env, id, user);
            && (r.Ok? <==>
                  && id in db.requests && db.requests[id].status == Pending
                  && MayDecide(env.users, env.policies, user, db.requests[id].tenant, db.requests[id].risk))
            && (r.Err? ==> db' == db)
            && (r.Ok? ==>
                  && r == Ok(Action(id, user, Rejected)) && db'.actions == db.actions + [Action(id, user, Rejected)]
                  && id in db'.requests && db'.requests[id] == db.requests[id].(status := Rejected)
                  && OthersKept(db, db', id) && db'.bundles.Keys == db.bundles.Keys
                  && forall b :: b in db.bundles ==>
                       db'.bundles[b] == if b == db.requests[id].bundle
                                         then db.bundles[b].(status := Cancelled) else db.bundles[b])
  {
    if id in db.requests {
      PermissionMeans(env, user, db.requests[id]);
    }
  }

  /**
   A creation succeeds exactly for a bundle that exists, an id that is new and at most one policy. Without
   a policy one approval within 48 hours is asked for; with one, its quota within its hours, and low risk
   is approved at once if the policy says so.
   */
  lemma CreateSucceedsIff(db: Tables, env: Env, id: int, bundle: int, tenant: int, risk: Risk)
    ensures var (db', r) := Create(db, env, id, bundle, tenant, risk);
            && (r.Ok? <==>
                  && bundle in db.bundles && id !in db.requests
                  && (NoPolicy(env.policies, tenant, risk) || exists i :: OnlyPolicy(env.policies, tenant, risk, i)))
            && (r.Err? ==> db' == db)
            && (r.Ok? ==> OthersKept(db, db', id) && id in db'.requests && db'.actions == db.actions && db'.bundles == db.bundles)
            && (r.Ok? && NoPolicy(env.policies, tenant, risk) ==>
                  db'.requests[id] == Request(bundle, tenant, risk, Pending, 1, 0, env.now + 172_800))
            && forall i :: r.Ok? && OnlyPolicy(env.policies, tenant, risk, i) ==>
                 var p := env.policies[i];
                 db'.requests[id] == if p.autoApproveLow && risk == LowRisk
                                     then Request(bundle, tenant, risk, Approved, p.required, p.required, env.now + 3600 * p.escalationHours)
                                     else Request(bundle, tenant, risk, Pending, p.required, 0, env.now + 3600 * p.escalationHours)
  {
    PoliciesForMeans(env.policies, tenant, risk);
  }

  /** The sweep expires exactly the requests on which an approval at that moment would find itself too late. */
  lemma SweepAgreesWithApprove(db: Tables, env: Env, tenant: Option<int>, id: int, user: int)
    requires id in db.requests
    ensures var db' := CheckExpired(db, env, tenant);
            && db'.actions == db.actions && db'.bundles == db.bundles && db'.requests.Keys == db.requests.Keys
            && db'.requests[id] ==
               if Approve(db, env, id, user).1 == Err(HasExpired) && (tenant == None || tenant == Some(db.requests[id].tenant))
               then db.requests[id].(status := Expired) else db.requests[id]
  {
    ApproveSucceedsIff(db, env, id, user);
  }

  /** A start succeeds exactly for an approved bundle of the tenant with no blocking rule in force, and only sets its status. */
  lemma StartSucceedsIff(db: Tables, env: Env, b: int, tenant: int)
    ensures var (db', r) := StartExecution(db, env, b, tenant);
            && (r.Ok? <==> b in db.bundles && db.bundles[b].tenant == tenant && db.bundles[b].status == BundleApproved
                           && !Rules.Blocks(env.rules, tenant, env.moment))
            && (r.Err? ==> db' == db)
            && (r.Ok? ==> db' == db.(bundles := db.bundles[b := db.bundles[b].(status := InProgress)]))
  {
    Rules.ExecutionBlockedIff(env.rules, tenant, env.moment);
  }

  /** A run of items ends failed exactly when some failed and none succeeded; partial success counts as completed. */
  lemma FinishSetsStatus(db: Tables, b: int, successes: nat, failures: nat)
    requires b in db.bundles
    ensures var db' := FinishExecution(db, b, successes, failures);
            && db'.requests == db.requests && db'.actions == db.actions
            && db'.bundles == db.bundles[b := Bundle(
                 db.bundles[b].tenant, if failures > 0 && successes == 0 then Failed else Completed, db.bundles[b].approvedBy)]
  {
  }

  // ---------- the services ----------

  class Database {
    var requests: map<int, Request>
    var actions: seq<Action>
    var bundles: map<int, Bundle>

    constructor (bundles: map<int, Bundle>)
      ensures View() == Tables(map[], [], bundles)
    {
      requests, actions, this.bundles := map[], [], bundles;
    }

    function View(): Tables
      reads this
    {
      Tables(requests, actions, bundles)
    }
  }

  class ApprovalService {
    const db: Database

    constructor (db: Database)
      ensures this.db == db
    {
      this.db := db;
    }

    method CreateApprovalRequest(env: Env, id: int, bundle: int, tenant: int, risk: Risk) returns (r: Result<int, Error>)
      modifies db
      ensures (db.View(), r) == Create(old(db.View()), env, id, bundle, tenant, risk)
    {
      if bundle !in db.bundles {
        return Err(NotFound);
      }
      var policy := PolicyFor(env, tenant, risk);
      if policy.Err? {
        return Err(policy.error);
      }
      var required, status, current, hours := 1, Pending, 0, 48;
      if policy.value.Some? {
        required := policy.value.value.required;
        hours := policy.value.value.escalationHours;
        if policy.value.value.autoApproveLow && risk == LowRisk {
          status, current := Approved, required;
        }
      }
      if id in db.requests {
        return Err(DuplicateId);
      }
      db.requests := db.requests[id := Request(bundle, tenant, risk, status, required, current, env.now + 3600 * hours)];
      return Ok(id);
    }

    method ApproveRequest(env: Env, id: int, user: int) returns (r: Result<Action, Error>)
      modifies db
      ensures (db.View(), r) == Approve(old(db.View()), env, id, user)
    {
      if id !in db.requests {
        return Err(NotFound);
      }
      var req := db.requests[id];
      if req.status != Pending {
        return Err(NotPending);
      }
      if env.now > req.expiresAt {
        db.requests := db.requests[id := req.(status := Expired)];
        return Err(HasExpired);
      }
      var permission := Permission(env, user, req);
      if permission.Err? {
        return Err(permission.error);
      }
      if user in ApprovedBy(db.actions, id) {
        return Err(AlreadyApproved);
      }
      var action := Action(id, user, Approved);
      db.actions := db.actions + [action];
      req := req.(current := req.current + 1);
      if req.current >= req.required {
        req := req.(status := Approved);
        db.bundles := SetStatus(db.bundles, req.bundle, BundleApproved, Some(user));
      }
      db.requests := db.requests[id := req];
      return Ok(action);
    }

    method RejectRequest(env: Env, id: int, user: int) returns (r: Result<Action, Error>)
      modifies db
      ensures (db.View(), r) == Reject(old(db.View()), env, id, user)
    {
      if id !in db.requests {
        return Err(NotFound);
      }
      var req := db.requests[id];
      if req.status != Pending {
        return Err(NotPending);
      }
      var permission := Permission(env, user, req);
      if permission.Err? {
        return Err(permission.error);
      }
      var action := Action(id, user, Rejected);
      db.actions := db.actions + [action];
      db.requests := db.requests[id := req.(status := Rejected)];
      db.bundles := SetStatus(db.bundles, req.bundle, Cancelled, None);
      return Ok(action);
    }

    /** Expires the overdue requests and lists them. */
    method CheckExpiredRequests(env: Env, tenant: Option<int>) returns (expired: set<int>)
      modifies db
      ensures db.View() == CheckExpired(old(db.View()), env, tenant)
      ensures forall id :: id in expired <==>
                id in old(db.requests) && IsOverdue(old(db.requests)[id], env.now, tenant)
    {
      var requests;
      requests, expired := ExpireOverdue(db.requests, env.now, tenant);
      db.requests := requests;
    }
  }

  /** Rows come back in no particular order. */
  method NextOf<T(==)>(rows: set<T>) returns (row: T)
    requires rows != {}
    ensures row in rows
  {
    row :| row in rows;
  }

  /** Marks the overdue requests one after the other. */
  method ExpireOverdue(requests: map<int, Request>, now: int, tenant: Option<int>)
    returns (after: map<int, Request>, expired: set<int>)
    ensures forall id :: id in expired <==> id in requests && IsOverdue(requests[id], now, tenant)
    ensures after == Sweep(requests, now, tenant)
  {
    expired := set id | id in requests && IsOverdue(requests[id], now, tenant);
    after := requests;
    var rest := expired;
    while rest != {}
      invariant rest <= expired && after.Keys == requests.Keys
      invariant forall id :: id in requests ==>
                  after[id] == if id in expired && id !in rest then requests[id].(status := Expired) else requests[id]
      decreases |rest|
    {
      var id := NextOf(rest);
      after := after[id := after[id].(status := Expired)];
      rest := rest - {id};
    }
    assert forall id :: id in requests ==> after[id] == Sweep(requests, now, tenant)[id];
  }

  // ---------- runs of atomic calls ----------

  datatype Step =
    | DoCreate(id: int, bundle: int, tenant: int, risk: Risk)
    | DoApprove(id: int, user: int)
    | DoReject(id: int, user: int)
    | DoCheckExpired(ofTenant: Option<int>)
    | DoStart(b: int, tenant: int)
    | DoFinish(b: int, successes: nat, failures: nat)

  /** A call and the environment it meets. */
  datatype Call = Call(env: Env, step: Step)

  ghost function Do(db: Tables, c: Call): Tables {
    match c.step
    case DoCreate(id, bundle, tenant, risk) => Create(db, c.env, id, bundle, tenant, risk).0
    case DoApprove(id, user) => Approve(db, c.env, id, user).0
    case DoReject(id, user) => Reject(db, c.env, id, user).0
    case DoCheckExpired(tenant) => CheckExpired(db, c.env, tenant)
    case DoStart(b, tenant) => StartExecution(db, c.env, b, tenant).0
    case DoFinish(b, successes, failures) => FinishExecution(db, b, successes, failures)
  }

  ghost function Run(db: Tables, calls: seq<Call>): Tables {
    if calls == [] then db else Do(Run(db, calls[..|calls| - 1]), calls[|calls| - 1])
  }

  /** Nothing requested yet, every bundle draft or scheduled. */
  ghost predicate Initial(db: Tables) {
    && db.requests == map[] && db.actions == []
    && forall b :: b in db.bundles ==> db.bundles[b].status == Draft || db.bundles[b].status == Scheduled
  }

  /** The users whose call to approve the request succeeded during the run while they were allowed to. */
  ghost function PermittedApprovers(db: Tables, calls: seq<Call>, id: int): set<int> {
    if calls == [] then {}
    else
      var before, c := calls[..|calls| - 1], calls[|calls| - 1];
      PermittedApprovers(db, before, id)
      + if c.step.DoApprove? && c.step.id == id && id in Run(db, before).requests
           && MayDecide(c.env.users, c.env.policies, c.step.user,
                        Run(db, before).requests[id].tenant, Run(db, before).requests[id].risk)
           && Approve(Run(db, before), c.env, id, c.step.user).1.Ok?
        then {c.step.user} else {}
  }

  /** The request released its bundle: approved by enough users, at least one. */
  ghost predicate Released(db: Tables, id: int, b: int) {
    && id in db.requests && db.requests[id].bundle == b && db.requests[id].status == Approved
    && ApprovedBy(db.actions, id) != {}
    && |ApprovedBy(db.actions, id)| >= db.requests[id].required
  }

  ghost predicate ActionsHaveRequests(db: Tables) {
    forall i :: 0 <= i < |db.actions| ==> db.actions[i].request in db.requests
  }

  ghost predicate PendingIsCounted(db: Tables) {
    forall id :: id in db.requests && db.requests[id].status == Pending ==>
                   db.requests[id].current == |ApprovedBy(db.actions, id)|
  }

  ghost predicate ApprovedIsReleased(db: Tables) {
    forall b :: b in db.bundles && db.bundles[b].status == BundleApproved ==> exists id :: Released(db, id, b)
  }

  ghost predicate Inv(db: Tables) {
    ActionsHaveRequests(db) && PendingIsCounted(db) && ApprovedIsReleased(db)
  }

  lemma ApprovedByAppend(actions: seq<Action>, a: Action, id: int)
    ensures ApprovedBy(actions + [a], id)
            == ApprovedBy(actions, id) + if a.request == id && a.status == Approved then {a.user} else {}
  {
    assert (actions + [a])[..|actions|] == actions;
  }

  /** An approval enters its user for its own request and touches no other; a rejection enters nobody. */
  lemma AppendForAll(actions: seq<Action>, a: Action)
    ensures forall i :: i != a.request || a.status != Approved ==> ApprovedBy(actions + [a], i) == ApprovedBy(actions, i)
    ensures a.status == Approved ==> ApprovedBy(actions + [a], a.request) == ApprovedBy(actions, a.request) + {a.user}
  {
    forall i ensures i != a.request || a.status != Approved ==> ApprovedBy(actions + [a], i) == ApprovedBy(actions, i) {
      ApprovedByAppend(actions, a, i);
    }
    ApprovedByAppend(actions, a, a.request);
  }

  lemma {:induction false} NoActionsNoApprovals(actions: seq<Action>, id: int)
    requires forall i :: 0 <= i < |actions| ==> actions[i].request != id
    ensures ApprovedBy(actions, id) == {}
  {
    if actions != [] {
      NoActionsNoApprovals(actions[..|actions| - 1], id);
    }
  }

  /** A step that leaves requests other than one, and bundles other than that one's, alone keeps what they need. */
  lemma KeepsReleased(db: Tables, db': Tables, changed: int)
    requires Inv(db)
    requires forall id :: id in db.requests && id != changed ==>
               id in db'.requests && db'.requests[id] == db.requests[id]
               && ApprovedBy(db'.actions, id) == ApprovedBy(db.actions, id)
    requires changed in db.requests ==> db.requests[changed].status != Approved
    ensures forall b :: b in db.bundles && db.bundles[b].status == BundleApproved ==> exists id :: Released(db', id, b)
  {
    forall b | b in db.bundles && db.bundles[b].status == BundleApproved ensures exists id :: Released(db', id, b) {
      var id :| Released(db, id, b);
      assert Released(db', id, b);
    }
  }

  lemma ExpireOneKeepsInv(db: Tables, id: int)
    requires Inv(db) && id in db.requests && db.requests[id].status == Pending
    ensures Inv(db.(requests := db.requests[id := db.requests[id].(status := Expired)]))
  {
    KeepsReleased(db, db.(requests := db.requests[id := db.requests[id].(status := Expired)]), id);
  }

  /** db' is db with one more approver on record, one more on the counter, and the bundle released if they suffice. */
  ghost predicate Records(db: Tables, id: int, user: int, db': Tables) {
    && id in db.requests && db.requests[id].status == Pending && user !in ApprovedBy(db.actions, id)
    && db'.actions == db.actions + [Action(id, user, Approved)]
    && db'.requests.Keys == db.requests.Keys
    && (forall i :: i in db.requests && i != id ==> db'.requests[i] == db.requests[i])
    && db'.requests[id].bundle == db.requests[id].bundle
    && db'.requests[id].required == db.requests[id].required
    && db'.requests[id].current == db.requests[id].current + 1
    && if db'.requests[id].current >= db.requests[id].required
       then db'.requests[id].status == Approved
            && db'.bundles == SetStatus(db.bundles, db.requests[id].bundle, BundleApproved, Some(user))
       else db'.requests[id].status == Pending && db'.bundles == db.bundles
  }

  lemma RecordCounts(db: Tables, id: int, user: int, db': Tables)
    requires Records(db, id, user, db')
    ensures |ApprovedBy(db'.actions, id)| == |ApprovedBy(db.actions, id)| + 1
    ensures forall i :: i != id ==> ApprovedBy(db'.actions, i) == ApprovedBy(db.actions, i)
  {
    AppendForAll(db.actions, Action(id, user, Approved));
  }

  lemma RecordKeepsCounts(db: Tables, id: int, user: int, db': Tables)
    requires PendingIsCounted(db) && ActionsHaveRequests(db) && Records(db, id, user, db')
    ensures PendingIsCounted(db') && ActionsHaveRequests(db')
  {
    RecordCounts(db, id, user, db');
  }

  lemma RecordKeepsReleases(db: Tables, id: int, user: int, db': Tables)
    requires Inv(db) && Records(db, id, user, db')
    ensures ApprovedIsReleased(db')
  {
    RecordCounts(db, id, user, db');
    KeepsReleased(db, db', id);
    if db'.requests[id].status == Approved {
      assert Released(db', id, db.requests[id].bundle);
    }
  }

  lemma SuccessRecords(db: Tables, env: Env, id: int, user: int)
    requires Approve(db, env, id, user).1.Ok?
    ensures Records(db, id, user, Approve(db, env, id, user).0)
  {
  }

  lemma ApproveKeepsInv(db: Tables, env: Env, id: int, user: int)
    requires Inv(db)
    ensures Inv(Approve(db, env, id, user).0)
  {
    if id in db.requests && db.requests[id].status == Pending {
      var (db', r) := Approve(db, env, id, user);
      if r.Ok? {
        SuccessRecords(db, env, id, user);
        RecordKeepsCounts(db, id, user, db');
        RecordKeepsReleases(db, id, user, db');
      } else {
        ExpireOneKeepsInv(db, id);
      }
    }
  }

  lemma RejectKeepsInv(db: Tables, env: Env, id: int, user: int)
    requires Inv(db)
    ensures Inv(Reject(db, env, id, user).0)
  {
    var db' := Reject(db, env, id, user).0;
    if id in db.requests && db.requests[id].status == Pending {
      AppendForAll(db.actions, Action(id, user, Rejected));
      KeepsReleased(db, db', id);
    }
  }

  lemma CreateKeepsInv(db: Tables, env: Env, id: int, bundle: int, tenant: int, risk: Risk)
    requires Inv(db)
    ensures Inv(Create(db, env, id, bundle, tenant, risk).0)
  {
    if id !in db.requests {
      NoActionsNoApprovals(db.actions, id);
      KeepsReleased(db, Create(db, env, id, bundle, tenant, risk).0, id);
    }
  }

  lemma CheckExpiredKeepsInv(db: Tables, env: Env, tenant: Option<int>)
    requires Inv(db)
    ensures Inv(CheckExpired(db, env, tenant))
  {
    var db' := CheckExpired(db, env, tenant);
    forall b | b in db.bundles && db.bundles[b].status == BundleApproved ensures exists id :: Released(db', id, b) {
      var id :| Released(db, id, b);
      assert Released(db', id, b);
    }
  }

  lemma ExecutionKeepsInv(db: Tables, b: int, s: BundleStatus)
    requires Inv(db) && s != BundleApproved
    ensures Inv(db.(bundles := SetStatus(db.bundles, b, s, None)))
  {
    var db' := db.(bundles := SetStatus(db.bundles, b, s, None));
    forall c | c in db'.bundles && db'.bundles[c].status == BundleApproved ensures exists id :: Released(db', id, c) {
      var id :| Released(db, id, c);
      assert Released(db', id, c);
    }
  }

  lemma StepKeepsInv(db: Tables, c: Call)
    requires Inv(db)
    ensures Inv(Do(db, c))
  {
    match c.step
    case DoCreate(id, bundle, tenant, risk) => CreateKeepsInv(db, c.env, id, bundle, tenant, risk);
    case DoApprove(id, user) => ApproveKeepsInv(db, c.env, id, user);
    case DoReject(id, user) => RejectKeepsInv(db, c.env, id, user);
    case DoCheckExpired(tenant) => CheckExpiredKeepsInv(db, c.env, tenant);
    case DoStart(b, tenant) => ExecutionKeepsInv(db, b, InProgress);
    case DoFinish(b, successes, failures) => ExecutionKeepsInv(db, b, FinalStatus(successes, failures));
  }

  lemma {:induction false} RunKeepsInv(db: Tables, calls: seq<Call>)
    requires Initial(db)
    ensures Inv(Run(db, calls))
  {
    if calls != [] {
      RunKeepsInv(db, calls[..|calls| - 1]);
      StepKeepsInv(Run(db, calls[..|calls| - 1]), calls[|calls| - 1]);
    }
  }

  /** Actions are only ever added, and an approval only by a permitted caller. */
  lemma ActionsOfStep(db: Tables, c: Call) returns (added: seq<Action>)
    ensures Do(db, c).actions == db.actions + added && |added| <= 1
    ensures added != [] && added[0].status == Approved ==>
              c.step == DoApprove(added[0].request, added[0].user) && added[0].request in db.requests
              && MayDecide(c.env.users, c.env.policies, added[0].user,
                           db.requests[added[0].request].tenant, db.requests[added[0].request].risk)
              && Approve(db, c.env, added[0].request, added[0].user).1.Ok?
  {
    added := Do(db, c).actions[|db.actions|..];
    if added != [] && added[0].request in db.requests {
      PermissionMeans(c.env, added[0].user, db.requests[added[0].request]);
    }
  }

  lemma ApprovedByAdded(actions: seq<Action>, added: seq<Action>, id: int)
    requires |added| <= 1
    ensures ApprovedBy(actions + added, id)
            == ApprovedBy(actions, id)
               + if added != [] && added[0].request == id && added[0].status == Approved then {added[0].user} else {}
  {
    if added == [] {
      assert actions + added == actions;
    } else {
      assert added == [added[0]];
      ApprovedByAppend(actions, added[0], id);
    }
  }

  /** Whoever is on record as approver was permitted when calling approve. */
  lemma {:induction false} ApprovalsWerePermitted(db: Tables, calls: seq<Call>, id: int)
    requires Initial(db)
    ensures ApprovedBy(Run(db, calls).actions, id) <= PermittedApprovers(db, calls, id)
  {
    if calls != [] {
      var before := calls[..|calls| - 1];
      ApprovalsWerePermitted(db, before, id);
      var added := ActionsOfStep(Run(db, before), calls[|calls| - 1]);
      ApprovedByAdded(Run(db, before).actions, added, id);
    }
  }

  lemma SubsetCardinality(a: set<int>, b: set<int>)
    requires a <= b
    ensures |a| <= |b|
  {
    assert b == a + (b - a);
    assert |b| == |a| + |b - a|;
  }

  /** The one call that takes a bundle to in-progress finds it approved and the gate open. */
  lemma OnlyStartStarts(db: Tables, call: Call, b: int)
    requires b in db.bundles && db.bundles[b].status != InProgress
    requires b in Do(db, call).bundles && Do(db, call).bundles[b].status == InProgress
    ensures db.bundles[b].status == BundleApproved
    ensures Rules.VerdictFor(call.env.rules, db.bundles[b].tenant, Rules.NO_CONTEXT, call.env.moment) != Rules.VerdictBlock
  {
    assert call.step.DoStart? && call.step.b == b;
  }

  lemma StartFindsRelease(s: Tables, c: Call, b: int) returns (id: int)
    requires Inv(s)
    requires b in s.bundles && s.bundles[b].status != InProgress
    requires b in Do(s, c).bundles && Do(s, c).bundles[b].status == InProgress
    ensures Released(s, id, b)
    ensures !Rules.Blocks(c.env.rules, s.bundles[b].tenant, c.env.moment)
  {
    OnlyStartStarts(s, c, b);
    Rules.ExecutionBlockedIff(c.env.rules, s.bundles[b].tenant, c.env.moment);
    id :| Released(s, id, b);
  }

  /**
   In every run, the call that takes a bundle to in-progress finds a request for it that gathered
   its required approvals from distinct permitted users, and no blocking global rule in force.
   */
  lemma StartsOnlyWhenApproved(db: Tables, calls: seq<Call>, c: Call, b: int) returns (id: int)
    requires Initial(db)
    requires b in Run(db, calls).bundles && Run(db, calls).bundles[b].status != InProgress
    requires b in Do(Run(db, calls), c).bundles && Do(Run(db, calls), c).bundles[b].status == InProgress
    ensures id in Run(db, calls).requests && Run(db, calls).requests[id].bundle == b
    ensures Run(db, calls).requests[id].status == Approved
    ensures PermittedApprovers(db, calls, id) != {}
    ensures |PermittedApprovers(db, calls, id)| >= Run(db, calls).requests[id].required
    ensures !Rules.Blocks(c.env.rules, Run(db, calls).bundles[b].tenant, c.env.moment)
  {
    RunKeepsInv(db, calls);
    id := StartFindsRelease(Run(db, calls), c, b);
    ApprovalsWerePermitted(db, calls, id);
    SubsetCardinality(ApprovedBy(Run(db, calls).actions, id), PermittedApprovers(db, calls, id));
  }

  /** While a request is pending its counter is exactly the number of distinct users who approved. */
  lemma CounterCountsApprovers(db: Tables, calls: seq<Call>, id: int)
    requires Initial(db) && id in Run(db, calls).requests && Run(db, calls).requests[id].status == Pending
    ensures Run(db, calls).requests[id].current == |ApprovedBy(Run(db, calls).actions, id)|
  {
    RunKeepsInv(db, calls);
  }

  /** Decided requests stay decided, whatever is called next. */
  lemma {:induction false} DecisionsAreFinal(db: Tables, calls: seq<Call>, id: int)
    requires id in db.requests && db.requests[id].status != Pending
    ensures id in Run(db, calls).requests && Run(db, calls).requests[id] == db.requests[id]
  {
    if calls != [] {
      DecisionsAreFinal(db, calls[..|calls| - 1], id);
    }
  }

  // ---------- enough approvals do release the bundle ----------

  function ApproveCalls(env: Env, id: int, users: seq<int>): (calls: seq<Call>)
    ensures |calls| == |users|
  {
    if users == [] then []
    else ApproveCalls(env, id, users[..|users| - 1]) + [Call(env, DoApprove(id, users[|users| - 1]))]
  }

  /** Distinct permitted users who have not approved yet, with time left. */
  ghost predicate MayAllApprove(db: Tables, env: Env, id: int, users: seq<int>) {
    && id in db.requests && db.requests[id].status == Pending && env.now <= db.requests[id].expiresAt
    && (forall i, j :: 0 <= i < j < |users| ==> users[i] != users[j])
    && forall i :: 0 <= i < |users| ==>
         MayDecide(env.users, env.policies, users[i], db.requests[id].tenant, db.requests[id].risk)
         && users[i] !in ApprovedBy(db.actions, id)
  }

  /** The request after the first n of these approvals, none of which met the quota. */
  ghost predicate Gathering(db: Tables, db': Tables, id: int, users: seq<int>) {
    && id in db.requests && id in db'.requests
    && db'.requests[id] == db.requests[id].(current := db.requests[id].current + |users|)
    && (forall u :: u in ApprovedBy(db'.actions, id) <==> u in ApprovedBy(db.actions, id) || u in users)
    && db'.bundles == db.bundles
  }

  lemma OneMoreApproval(db: Tables, db': Tables, env: Env, id: int, users: seq<int>, u: int)
    requires MayAllApprove(db, env, id, users + [u]) && Gathering(db, db', id, users)
    ensures Approve(db', env, id, u).1.Ok?
    ensures db.requests[id].current + |users| + 1 < db.requests[id].required ==>
              Gathering(db, Approve(db', env, id, u).0, id, users + [u])
  {
    assert (users + [u])[|users|] == u;
    PermissionMeans(env, u, db.requests[id]);
    PermissionMeans(env, u, db'.requests[id]);
    forall i | 0 <= i < |users| ensures users[i] != u {
      assert (users + [u])[i] == users[i];
    }
    ApprovedByAppend(db'.actions, Action(id, u, Approved), id);
  }

  lemma RunApprovals(db: Tables, env: Env, id: int, before: seq<int>, last: int)
    ensures Run(db, ApproveCalls(env, id, before + [last]))
            == Approve(Run(db, ApproveCalls(env, id, before)), env, id, last).0
  {
    var calls := ApproveCalls(env, id, before);
    assert (before + [last])[..|before|] == before;
    assert (calls + [Call(env, DoApprove(id, last))])[..|calls|] == calls;
  }

  lemma FewerMayApprove(db: Tables, env: Env, id: int, before: seq<int>, last: int)
    requires MayAllApprove(db, env, id, before + [last])
    ensures MayAllApprove(db, env, id, before)
  {
    forall i | 0 <= i < |before| ensures before[i] == (before + [last])[i] {
    }
  }

  lemma {:induction false} ApprovalsGather(db: Tables, env: Env, id: int, users: seq<int>)
    requires MayAllApprove(db, env, id, users)
    requires users != [] ==> db.requests[id].current + |users| < db.requests[id].required
    ensures Gathering(db, Run(db, ApproveCalls(env, id, users)), id, users)
  {
    if users != [] {
      var before, u := users[..|users| - 1], users[|users| - 1];
      assert users == before + [u];
      FewerMayApprove(db, env, id, before, u);
      ApprovalsGather(db, env, id, before);
      RunApprovals(db, env, id, before, u);
      OneMoreApproval(db, Run(db, ApproveCalls(env, id, before)), env, id, before, u);
    }
  }

  /** The request is approved and its bundle released in the name of this user. */
  ghost predicate ReleasedBy(db: Tables, id: int, b: int, user: int) {
    && id in db.requests && db.requests[id].status == Approved
    && b in db.bundles && db.bundles[b].status == BundleApproved && db.bundles[b].approvedBy == Some(user)
  }

  lemma MeetingTheQuota(db: Tables, env: Env, id: int, user: int)
    requires Approve(db, env, id, user).1.Ok? && db.requests[id].bundle in db.bundles
    requires db.requests[id].current + 1 >= db.requests[id].required
    ensures ReleasedBy(Approve(db, env, id, user).0, id, db.requests[id].bundle, user)
  {
  }

  /**
   The approval that meets the quota, and no earlier one, approves the request and releases its bundle; a
   quota below one is met by the first.
   */
  lemma QuotaReleases(db: Tables, env: Env, id: int, before: seq<int>, last: int)
    requires MayAllApprove(db, env, id, before + [last]) && db.requests[id].bundle in db.bundles
    requires before != [] ==> db.requests[id].current + |before| < db.requests[id].required
    requires db.requests[id].current + |before| + 1 >= db.requests[id].required
    ensures Gathering(db, Run(db, ApproveCalls(env, id, before)), id, before)
    ensures ReleasedBy(Run(db, ApproveCalls(env, id, before + [last])), id, db.requests[id].bundle, last)
  {
    var gathered := Run(db, ApproveCalls(env, id, before));
    FewerMayApprove(db, env, id, before, last);
    ApprovalsGather(db, env, id, before);
    RunApprovals(db, env, id, before, last);
    OneMoreApproval(db, gathered, env, id, before, last);
    MeetingTheQuota(gathered, env, id, last);
  }

  /** A request approved at creation never releases its bundle: no later call on it touches any bundle. */
  lemma AutoApprovalReleasesNothing(db: Tables, env: Env, id: int, bundle: int, tenant: int, risk: Risk,
                                    calls: seq<Call>, env': Env, user: int)
    requires var (db', r) := Create(db, env, id, bundle, tenant, risk);
             r.Ok? && db'.requests[id].status == Approved
    ensures var db' := Create(db, env, id, bundle, tenant, risk).0;
            && db'.bundles == db.bundles
            && Approve(Run(db', calls), env', id, user) == (Run(db', calls), Err(NotPending))
  {
    var db' := Create(db, env, id, bundle, tenant, risk).0;
    DecisionsAreFinal(db', calls, id);
  }
}

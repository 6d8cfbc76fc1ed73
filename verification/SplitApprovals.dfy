/**
 Overlapping approve and reject calls (backend/services/approval_service.py). No row is locked, so
 a call reads the request, reads its actions and writes back in three steps that other calls may
 separate; current_approvals is written back as the value read plus one.
 */
module SplitApprovals {
  import opened Results
  import opened Approvals

  datatype Kind = Approving | Rejecting

  /** A call in progress with the request row as it read it; checked once it passed its tests. */
  datatype Caller = Caller(kind: Kind, user: int, id: int, seen: Request, checked: bool)

  datatype State = State(db: Tables, inFlight: seq<Caller>)

  datatype Step =
    | Read(kind: Kind, user: int, id: int)
    | Check(i: nat, env: Env)
    | Commit(i: nat)
    | Atomic(call: Call)

  function Without(q: seq<Caller>, i: nat): seq<Caller>
    requires i < |q|
  {
    q[..i] + q[i + 1..]
  }

  function DoRead(s: State, kind: Kind, user: int, id: int): State {
    if id !in s.db.requests then s
    else State(s.db, s.inFlight + [Caller(kind, user, id, s.db.requests[id], false)])
  }

  /** The actions read now must not hold the user's approval; every other test looks at the row read before. */
  predicate Passes(db: Tables, c: Caller, env: Env) {
    && c.seen.status == Pending
    && Permission(env, c.user, c.seen).Ok?
    && (c.kind == Approving ==> env.now <= c.seen.expiresAt && c.user !in ApprovedBy(db.actions, c.id))
  }

  /** An approving call that finds its row expired says so in the table before it raises. */
  predicate WritesExpired(db: Tables, c: Caller, env: Env) {
    c.kind == Approving && c.seen.status == Pending && env.now > c.seen.expiresAt && c.id in db.requests
  }

  function DoCheck(s: State, i: nat, env: Env): State {
    if i >= |s.inFlight| || s.inFlight[i].checked then s
    else
      var c := s.inFlight[i];
      if Passes(s.db, c, env) then State(s.db, s.inFlight[i := c.(checked := true)])
      else if WritesExpired(s.db, c, env) then
        State(Tables(s.db.requests[c.id := s.db.requests[c.id].(status := Expired)], s.db.actions, s.db.bundles),
              Without(s.inFlight, i))
      else State(s.db, Without(s.inFlight, i))
  }

  /** The write of an approving call: one more than the count it read. */
  function WriteApproval(db: Tables, c: Caller): Tables
    requires c.id in db.requests
  {
    var req := db.requests[c.id];
    var enough := c.seen.current + 1 >= c.seen.required;
    Tables(
      db.requests[c.id := req.(current := c.seen.current + 1, status := if enough then Approved else req.status)],
      db.actions + [Action(c.id, c.user, Approved)],
      if enough then SetStatus(db.bundles, c.seen.bundle, BundleApproved, Some(c.user)) else db.bundles)
  }

  function WriteRejection(db: Tables, c: Caller): Tables
    requires c.id in db.requests
  {
    Tables(
      db.requests[c.id := db.requests[c.id].(status := Rejected)],
      db.actions + [Action(c.id, c.user, Rejected)],
      SetStatus(db.bundles, c.seen.bundle, Cancelled, None))
  }

  function DoCommit(s: State, i: nat): State {
    if i >= |s.inFlight| || !s.inFlight[i].checked || s.inFlight[i].id !in s.db.requests then s
    else
      var c := s.inFlight[i];
      State(if c.kind == Approving then WriteApproval(s.db, c) else WriteRejection(s.db, c), Without(s.inFlight, i))
  }

  ghost function Do(s: State, step: Step): State {
    match step
    case Read(kind, user, id) => DoRead(s, kind, user, id)
    case Check(i, env) => DoCheck(s, i, env)
    case Commit(i) => DoCommit(s, i)
    case Atomic(call) => State(Approvals.Do(s.db, call), s.inFlight)
  }

  ghost function Run(s: State, steps: seq<Step>): State {
    if steps == [] then s else Do(Run(s, steps[..|steps| - 1]), steps[|steps| - 1])
  }

  // ---------- an undisturbed call is the atomic call ----------

  lemma UndisturbedApproveIsAtomic(s: State, env: Env, id: int, user: int)
    requires id in s.db.requests
    ensures var n := |s.inFlight|;
            DoCommit(DoCheck(DoRead(s, Approving, user, id), n, env), n)
            == State(Approve(s.db, env, id, user).0, s.inFlight)
  {
    var n, c := |s.inFlight|, Caller(Approving, user, id, s.db.requests[id], false);
    var q := s.inFlight + [c];
    assert Without(q, n) == s.inFlight;
    assert Without(q[n := c.(checked := true)], n) == s.inFlight;
  }

  lemma UndisturbedRejectIsAtomic(s: State, env: Env, id: int, user: int)
    requires id in s.db.requests
    ensures var n := |s.inFlight|;
            DoCommit(DoCheck(DoRead(s, Rejecting, user, id), n, env), n)
            == State(Reject(s.db, env, id, user).0, s.inFlight)
  {
    var n, c := |s.inFlight|, Caller(Rejecting, user, id, s.db.requests[id], false);
    var q := s.inFlight + [c];
    assert Without(q, n) == s.inFlight;
    assert Without(q[n := c.(checked := true)], n) == s.inFlight;
  }

  // ---------- what every interleaving keeps ----------

  /** Approvers that account for the count the call read, and do not include the caller once it is checked. */
  ghost predicate Witnesses(v: set<int>, c: Caller, approvers: set<int>) {
    v <= approvers && c.seen.current <= |v| && (c.checked ==> c.user !in v)
  }

  /** What never changes of a request. */
  predicate SameTerms(a: Request, b: Request) {
    a.bundle == b.bundle && a.tenant == b.tenant && a.risk == b.risk && a.required == b.required
  }

  ghost predicate Accounted(db: Tables, c: Caller) {
    && c.id in db.requests
    && SameTerms(c.seen, db.requests[c.id])
    && (c.checked ==> c.seen.status == Pending)
    && (c.kind == Approving && c.seen.status == Pending ==>
          exists v :: Witnesses(v, c, ApprovedBy(db.actions, c.id)))
  }

  ghost predicate PendingCounts(db: Tables) {
    forall id :: id in db.requests && db.requests[id].status == Pending ==>
                   db.requests[id].current <= |ApprovedBy(db.actions, id)|
  }

  /** Some request for the bundle has its required approvers on record, at least one. */
  ghost predicate Backed(db: Tables, id: int, b: int) {
    && id in db.requests && db.requests[id].bundle == b
    && ApprovedBy(db.actions, id) != {} && |ApprovedBy(db.actions, id)| >= db.requests[id].required
  }

  ghost predicate ApprovedAreBacked(db: Tables) {
    forall b :: b in db.bundles && db.bundles[b].status == BundleApproved ==> exists id :: Backed(db, id, b)
  }

  ghost predicate AllAccounted(db: Tables, q: seq<Caller>) {
    forall i :: 0 <= i < |q| ==> Accounted(db, q[i])
  }

  ghost predicate Inv(s: State) {
    PendingCounts(s.db) && ApprovedAreBacked(s.db) && AllAccounted(s.db, s.inFlight)
  }

  /** The later tables know every earlier request, with its bundle and quota, and every earlier approval. */
  ghost predicate Extends(db: Tables, db': Tables) {
    && (forall id :: id in db.requests ==>
          id in db'.requests && SameTerms(db.requests[id], db'.requests[id]))
    && forall id :: ApprovedBy(db.actions, id) <= ApprovedBy(db'.actions, id)
  }

  lemma AccountsExtend(db: Tables, db': Tables, q: seq<Caller>)
    requires AllAccounted(db, q) && Extends(db, db')
    ensures AllAccounted(db', q)
  {
    forall i | 0 <= i < |q| ensures Accounted(db', q[i]) {
      var c := q[i];
      if c.kind == Approving && c.seen.status == Pending {
        var v :| Witnesses(v, c, ApprovedBy(db.actions, c.id));
        assert Witnesses(v, c, ApprovedBy(db'.actions, c.id));
      }
    }
  }

  lemma BackingExtends(db: Tables, db': Tables, b: int)
    requires Extends(db, db') && exists id :: Backed(db, id, b)
    ensures exists id :: Backed(db', id, b)
  {
    var id :| Backed(db, id, b);
    SubsetCardinality(ApprovedBy(db.actions, id), ApprovedBy(db'.actions, id));
    assert Backed(db', id, b);
  }

  /** Enough to show of a step: it extends the tables, and what it newly approves it can account for. */
  lemma ExtensionKeepsInv(s: State, db': Tables)
    requires Inv(s) && Extends(s.db, db') && PendingCounts(db')
    requires forall b :: b in db'.bundles && db'.bundles[b].status == BundleApproved
                         && !(b in s.db.bundles && s.db.bundles[b].status == BundleApproved)
                ==> exists id :: Backed(db', id, b)
    ensures Inv(State(db', s.inFlight))
  {
    AccountsExtend(s.db, db', s.inFlight);
    forall b | b in db'.bundles && db'.bundles[b].status == BundleApproved ensures exists id :: Backed(db', id, b) {
      if b in s.db.bundles && s.db.bundles[b].status == BundleApproved {
        BackingExtends(s.db, db', b);
      }
    }
  }

  lemma ReadKeepsInv(s: State, kind: Kind, user: int, id: int)
    requires Inv(s)
    ensures Inv(DoRead(s, kind, user, id))
  {
    if id in s.db.requests {
      var c := Caller(kind, user, id, s.db.requests[id], false);
      if kind == Approving && c.seen.status == Pending {
        assert Witnesses(ApprovedBy(s.db.actions, id), c, ApprovedBy(s.db.actions, id));
      }
      assert Accounted(s.db, c);
    }
  }

  lemma PassingKeepsAccounted(db: Tables, c: Caller, env: Env)
    requires Accounted(db, c) && Passes(db, c, env)
    ensures Accounted(db, c.(checked := true))
  {
    if c.kind == Approving {
      var v :| Witnesses(v, c, ApprovedBy(db.actions, c.id));
      assert Witnesses(v, c.(checked := true), ApprovedBy(db.actions, c.id));
    }
  }

  lemma ExpiryKeepsInv(s: State, id: int)
    requires Inv(s) && id in s.db.requests
    ensures Inv(State(s.db.(requests := s.db.requests[id := s.db.requests[id].(status := Expired)]), s.inFlight))
  {
    ExtensionKeepsInv(s, s.db.(requests := s.db.requests[id := s.db.requests[id].(status := Expired)]));
  }

  lemma CheckKeepsInv(s: State, i: nat, env: Env)
    requires Inv(s)
    ensures Inv(DoCheck(s, i, env))
  {
    if i < |s.inFlight| && !s.inFlight[i].checked {
      var c := s.inFlight[i];
      assert Accounted(s.db, c);
      if Passes(s.db, c, env) {
        PassingKeepsAccounted(s.db, c, env);
      } else if WritesExpired(s.db, c, env) {
        ExpiryKeepsInv(s, c.id);
      }
    }
  }

  /** The count written back is backed by the witnesses and the writer. */
  lemma WrittenCountIsBacked(db: Tables, c: Caller)
    requires Accounted(db, c) && c.checked && c.kind == Approving
    ensures c.seen.current + 1 <= |ApprovedBy(WriteApproval(db, c).actions, c.id)|
    ensures c.user in ApprovedBy(WriteApproval(db, c).actions, c.id)
  {
    var v :| Witnesses(v, c, ApprovedBy(db.actions, c.id));
    ApprovedByAppend(db.actions, Action(c.id, c.user, Approved), c.id);
    SubsetCardinality(v + {c.user}, ApprovedBy(WriteApproval(db, c).actions, c.id));
  }

  lemma ApprovalKeepsInv(s: State, c: Caller)
    requires Inv(s) && Accounted(s.db, c) && c.checked && c.kind == Approving
    ensures Inv(State(WriteApproval(s.db, c), s.inFlight))
  {
    var db' := WriteApproval(s.db, c);
    AppendForAll(s.db.actions, Action(c.id, c.user, Approved));
    WrittenCountIsBacked(s.db, c);
    forall id | id in s.db.requests && id != c.id && db'.requests[id].status == Pending
      ensures db'.requests[id].current <= |ApprovedBy(db'.actions, id)|
    {
    }
    if c.seen.current + 1 >= c.seen.required {
      assert Backed(db', c.id, c.seen.bundle);
    }
    ExtensionKeepsInv(s, db');
  }

  lemma RejectionKeepsInv(s: State, c: Caller)
    requires Inv(s) && Accounted(s.db, c)
    ensures Inv(State(WriteRejection(s.db, c), s.inFlight))
  {
    AppendForAll(s.db.actions, Action(c.id, c.user, Rejected));
    ExtensionKeepsInv(s, WriteRejection(s.db, c));
  }

  lemma CommitKeepsInv(s: State, i: nat)
    requires Inv(s)
    ensures Inv(DoCommit(s, i))
  {
    if i < |s.inFlight| && s.inFlight[i].checked {
      if s.inFlight[i].kind == Approving {
        ApprovalKeepsInv(s, s.inFlight[i]);
      } else {
        RejectionKeepsInv(s, s.inFlight[i]);
      }
    }
  }

  lemma AtomicApproveKeepsInv(s: State, env: Env, id: int, user: int)
    requires Inv(s)
    ensures Inv(State(Approve(s.db, env, id, user).0, s.inFlight))
  {
    var r := Approve(s.db, env, id, user).1;
    if r.Ok? {
      SucceedingApproveKeepsInv(s, env, id, user);
    } else if id in s.db.requests && s.db.requests[id].status == Pending {
      ExpiryKeepsInv(s, id);
    }
  }

  lemma SucceedingApproveKeepsInv(s: State, env: Env, id: int, user: int)
    requires Inv(s) && Approve(s.db, env, id, user).1.Ok?
    ensures Inv(State(Approve(s.db, env, id, user).0, s.inFlight))
  {
    var c := Caller(Approving, user, id, s.db.requests[id], true);
    ApproveWrites(s.db, env, c);
    assert Accounted(s.db, c) by {
      assert Witnesses(ApprovedBy(s.db.actions, id), c, ApprovedBy(s.db.actions, id));
    }
    ApprovalKeepsInv(s, c);
  }

  lemma ApproveWrites(db: Tables, env: Env, c: Caller)
    requires Approve(db, env, c.id, c.user).1.Ok? && c.seen == db.requests[c.id]
    ensures c.seen.status == Pending && c.user !in ApprovedBy(db.actions, c.id)
    ensures Approve(db, env, c.id, c.user).0 == WriteApproval(db, c)
  {
  }

  lemma AtomicRejectKeepsInv(s: State, env: Env, id: int, user: int)
    requires Inv(s)
    ensures Inv(State(Reject(s.db, env, id, user).0, s.inFlight))
  {
    if Reject(s.db, env, id, user).1.Ok? {
      RejectionKeepsInv(s, Caller(Rejecting, user, id, s.db.requests[id], true));
    }
  }

  lemma AtomicSweepKeepsInv(s: State, env: Env, tenant: Option<int>)
    requires Inv(s)
    ensures Inv(State(CheckExpired(s.db, env, tenant), s.inFlight))
  {
    ExtensionKeepsInv(s, CheckExpired(s.db, env, tenant));
  }

  lemma ExecutionKeepsInv(s: State, b: int, status: BundleStatus)
    requires Inv(s) && status != BundleApproved
    ensures Inv(State(s.db.(bundles := SetStatus(s.db.bundles, b, status, None)), s.inFlight))
  {
    ExtensionKeepsInv(s, s.db.(bundles := SetStatus(s.db.bundles, b, status, None)));
  }

  lemma AtomicKeepsInv(s: State, call: Call)
    requires Inv(s)
    ensures Inv(State(Approvals.Do(s.db, call), s.inFlight))
  {
    match call.step
    case DoApprove(id, user) => AtomicApproveKeepsInv(s, call.env, id, user);
    case DoReject(id, user) => AtomicRejectKeepsInv(s, call.env, id, user);
    case DoCreate(id, bundle, tenant, risk) =>
      ExtensionKeepsInv(s, Create(s.db, call.env, id, bundle, tenant, risk).0);
    case DoCheckExpired(tenant) => AtomicSweepKeepsInv(s, call.env, tenant);
    case DoStart(b, tenant) => ExecutionKeepsInv(s, b, InProgress);
    case DoFinish(b, successes, failures) => ExecutionKeepsInv(s, b, FinalStatus(successes, failures));
  }

  lemma StepKeepsInv(s: State, step: Step)
    requires Inv(s)
    ensures Inv(Do(s, step))
  {
    match step
    case Read(kind, user, id) => ReadKeepsInv(s, kind, user, id);
    case Check(i, env) => CheckKeepsInv(s, i, env);
    case Commit(i) => CommitKeepsInv(s, i);
    case Atomic(call) => AtomicKeepsInv(s, call);
  }

  lemma {:induction false} RunKeepsInv(s: State, steps: seq<Step>)
    requires Inv(s)
    ensures Inv(Run(s, steps))
  {
    if steps != [] {
      RunKeepsInv(s, steps[..|steps| - 1]);
      StepKeepsInv(Run(s, steps[..|steps| - 1]), steps[|steps| - 1]);
    }
  }

  // ---------- one request that was not approved at creation ----------

  /** The counter never exceeds the distinct approvers, and an approved request has its quota of them. */
  ghost predicate Honest(db: Tables, id: int) {
    && id in db.requests
    && db.requests[id].current <= |ApprovedBy(db.actions, id)|
    && (db.requests[id].status == Approved ==> db.requests[id].required <= |ApprovedBy(db.actions, id)|)
  }

  /** No step but an approval's write touches the counter or approves; every step keeps the record. */
  lemma StepKeepsHonest(s: State, step: Step, id: int)
    requires Inv(s) && Honest(s.db, id)
    ensures Honest(Do(s, step).db, id)
  {
    match step
    case Read(kind, user, i) =>
    case Check(i, env) =>
    case Commit(i) => CommitKeepsHonest(s, i, id);
    case Atomic(call) => AtomicKeepsHonest(s.db, call, id);
  }

  lemma CommitKeepsHonest(s: State, i: nat, id: int)
    requires Inv(s) && Honest(s.db, id)
    ensures Honest(DoCommit(s, i).db, id)
  {
    if i < |s.inFlight| && s.inFlight[i].checked {
      var c := s.inFlight[i];
      if c.kind == Approving {
        AppendForAll(s.db.actions, Action(c.id, c.user, Approved));
        WrittenCountIsBacked(s.db, c);
        SubsetCardinality(ApprovedBy(s.db.actions, id), ApprovedBy(WriteApproval(s.db, c).actions, id));
      } else {
        AppendForAll(s.db.actions, Action(c.id, c.user, Rejected));
      }
    }
  }

  lemma AtomicApproveKeepsHonest(db: Tables, env: Env, i: int, user: int, id: int)
    requires Honest(db, id)
    ensures Honest(Approve(db, env, i, user).0, id)
  {
    if Approve(db, env, i, user).1.Ok? {
      AppendForAll(db.actions, Action(i, user, Approved));
      SubsetCardinality(ApprovedBy(db.actions, id), ApprovedBy(Approve(db, env, i, user).0.actions, id));
    }
  }

  lemma AtomicRejectKeepsHonest(db: Tables, env: Env, i: int, user: int, id: int)
    requires Honest(db, id)
    ensures Honest(Reject(db, env, i, user).0, id)
  {
    if Reject(db, env, i, user).1.Ok? {
      AppendForAll(db.actions, Action(i, user, Rejected));
    }
  }

  lemma AtomicKeepsHonest(db: Tables, call: Call, id: int)
    requires Honest(db, id)
    ensures Honest(Approvals.Do(db, call), id)
  {
    match call.step
    case DoApprove(i, user) => AtomicApproveKeepsHonest(db, call.env, i, user, id);
    case DoReject(i, user) => AtomicRejectKeepsHonest(db, call.env, i, user, id);
    case _ =>
  }

  /**
   In every interleaving of overlapping approve and reject calls with each other and with atomic calls,
   the counter of a request never exceeds its distinct approvers, and the request is approved only once
   it has its required number of them, although increments can be lost.
   */
  lemma {:induction false} CounterNeverExceedsApprovers(s: State, steps: seq<Step>, id: int)
    requires Inv(s) && Honest(s.db, id)
    ensures Honest(Run(s, steps).db, id)
  {
    if steps != [] {
      CounterNeverExceedsApprovers(s, steps[..|steps| - 1], id);
      RunKeepsInv(s, steps[..|steps| - 1]);
      StepKeepsHonest(Run(s, steps[..|steps| - 1]), steps[|steps| - 1], id);
    }
  }

  /** The same for a request from its creation on, unless a policy approved it there and then. */
  lemma ApprovedOnlyByItsQuota(s: State, env: Env, id: int, bundle: int, tenant: int, risk: Risk, steps: seq<Step>)
    requires Inv(s) && Create(s.db, env, id, bundle, tenant, risk).1.Ok?
    requires Create(s.db, env, id, bundle, tenant, risk).0.requests[id].status == Pending
    ensures Honest(Run(State(Create(s.db, env, id, bundle, tenant, risk).0, s.inFlight), steps).db, id)
  {
    var s' := State(Create(s.db, env, id, bundle, tenant, risk).0, s.inFlight);
    AtomicKeepsInv(s, Call(env, DoCreate(id, bundle, tenant, risk)));
    CounterNeverExceedsApprovers(s', steps, id);
  }

  // ---------- who approved, and what starts ----------

  /** The user whose approval of the request passes its tests at this step, being one who may decide the request. */
  ghost function PassedAt(s: State, step: Step, id: int): set<int> {
    match step
    case Check(i, env) =>
      if i < |s.inFlight| && !s.inFlight[i].checked && s.inFlight[i].kind == Approving && s.inFlight[i].id == id
         && id in s.db.requests
         && MayDecide(env.users, env.policies, s.inFlight[i].user, s.db.requests[id].tenant, s.db.requests[id].risk)
         && Action(id, s.inFlight[i].user, Approved) !in s.db.actions && env.now <= s.inFlight[i].seen.expiresAt
      then {s.inFlight[i].user} else {}
    case Atomic(call) =>
      if call.step.DoApprove? && call.step.id == id && id in s.db.requests
         && MayDecide(call.env.users, call.env.policies, call.step.user, s.db.requests[id].tenant, s.db.requests[id].risk)
         && Approve(s.db, call.env, id, call.step.user).1.Ok?
      then {call.step.user} else {}
    case _ => {}
  }

  /** All such users of a run. */
  ghost function PassedIn(s: State, steps: seq<Step>, id: int): set<int> {
    if steps == [] then {}
    else
      var before := steps[..|steps| - 1];
      PassedIn(s, before, id) + PassedAt(Run(s, before), steps[|steps| - 1], id)
  }

  /** Whoever is on record as approver, or about to be, passed. */
  ghost predicate AllPassed(s: State, id: int, passed: set<int>) {
    && ApprovedBy(s.db.actions, id) <= passed
    && forall i :: 0 <= i < |s.inFlight| && s.inFlight[i].checked && s.inFlight[i].kind == Approving && s.inFlight[i].id == id
         ==> s.inFlight[i].user in passed
  }

  lemma CommitKeepsPassed(s: State, i: nat, id: int, passed: set<int>)
    requires AllPassed(s, id, passed)
    ensures AllPassed(DoCommit(s, i), id, passed)
  {
    if i < |s.inFlight| {
      var c := s.inFlight[i];
      ApprovedByAppend(s.db.actions, Action(c.id, c.user, if c.kind == Approving then Approved else Rejected), id);
    }
  }

  /** An approving call that passes belongs to a user who may decide the request and has not approved it. */
  lemma PassingMeans(db: Tables, c: Caller, env: Env)
    requires Accounted(db, c) && Passes(db, c, env) && c.kind == Approving
    ensures MayDecide(env.users, env.policies, c.user, db.requests[c.id].tenant, db.requests[c.id].risk)
    ensures Action(c.id, c.user, Approved) !in db.actions && env.now <= c.seen.expiresAt
  {
    PermissionMeans(env, c.user, c.seen);
    ApprovedByMeans(db.actions, c.id, c.user);
  }

  lemma CheckedUserPassed(s: State, i: nat, env: Env, id: int)
    requires Inv(s) && i < |s.inFlight| && !s.inFlight[i].checked && Passes(s.db, s.inFlight[i], env)
    requires s.inFlight[i].kind == Approving && s.inFlight[i].id == id
    ensures PassedAt(s, Check(i, env), id) == {s.inFlight[i].user}
  {
    assert Accounted(s.db, s.inFlight[i]);
    PassingMeans(s.db, s.inFlight[i], env);
  }

  lemma CheckKeepsPassed(s: State, i: nat, env: Env, id: int, passed: set<int>)
    requires Inv(s) && AllPassed(s, id, passed)
    ensures AllPassed(DoCheck(s, i, env), id, passed + PassedAt(s, Check(i, env), id))
  {
    if i < |s.inFlight| && !s.inFlight[i].checked && Passes(s.db, s.inFlight[i], env)
       && s.inFlight[i].kind == Approving && s.inFlight[i].id == id {
      CheckedUserPassed(s, i, env, id);
    }
    CheckKeepsOthers(s, i, env, id, passed + PassedAt(s, Check(i, env), id));
  }

  /** A check adds no approval and marks at most the call it tests as checked. */
  lemma CheckKeepsOthers(s: State, i: nat, env: Env, id: int, passed: set<int>)
    requires AllPassed(s, id, passed)
    requires (i < |s.inFlight| && !s.inFlight[i].checked && Passes(s.db, s.inFlight[i], env)
              && s.inFlight[i].kind == Approving && s.inFlight[i].id == id)
             ==> s.inFlight[i].user in passed
    ensures AllPassed(DoCheck(s, i, env), id, passed)
  {
  }

  lemma AtomicKeepsPassed(s: State, call: Call, id: int, passed: set<int>)
    requires AllPassed(s, id, passed)
    ensures AllPassed(Do(s, Atomic(call)), id, passed + PassedAt(s, Atomic(call), id))
  {
    var added := ActionsOfStep(s.db, call);
    ApprovedByAdded(s.db.actions, added, id);
  }

  /** In every interleaving whoever is on record as approver passed the tests while permitted. */
  lemma {:induction false} ApproversPassed(s: State, steps: seq<Step>, id: int)
    requires Inv(s) && AllPassed(s, id, {})
    ensures AllPassed(Run(s, steps), id, PassedIn(s, steps, id))
  {
    if steps != [] {
      var before, step := steps[..|steps| - 1], steps[|steps| - 1];
      ApproversPassed(s, before, id);
      RunKeepsInv(s, before);
      match step
      case Read(kind, user, i) =>
      case Check(i, env) => CheckKeepsPassed(Run(s, before), i, env, id, PassedIn(s, before, id));
      case Commit(i) => CommitKeepsPassed(Run(s, before), i, id, PassedIn(s, before, id));
      case Atomic(call) => AtomicKeepsPassed(Run(s, before), call, id, PassedIn(s, before, id));
    }
  }

  /**
   Also when calls overlap, a bundle starts only if some request for it gathered its required number of
   distinct approvers, all permitted when tested, and no blocking global rule is in force.
   */
  lemma StartsOnlyWhenBacked(db: Tables, steps: seq<Step>, call: Call, b: int) returns (id: int)
    requires Initial(db)
    requires var s := Run(State(db, []), steps).db;
             && b in s.bundles && s.bundles[b].status != InProgress
             && b in Approvals.Do(s, call).bundles && Approvals.Do(s, call).bundles[b].status == InProgress
    ensures Backed(Run(State(db, []), steps).db, id, b)
    ensures ApprovedBy(Run(State(db, []), steps).db.actions, id) <= PassedIn(State(db, []), steps, id)
    ensures !Rules.Blocks(call.env.rules, Run(State(db, []), steps).db.bundles[b].tenant, call.env.moment)
  {
    RunKeepsInv(State(db, []), steps);
    id := StartFindsBacking(Run(State(db, []), steps), call, b);
    ApproversPassed(State(db, []), steps, id);
  }

  lemma StartFindsBacking(s: State, call: Call, b: int) returns (id: int)
    requires Inv(s) && b in s.db.bundles && s.db.bundles[b].status != InProgress
    requires b in Approvals.Do(s.db, call).bundles && Approvals.Do(s.db, call).bundles[b].status == InProgress
    ensures Backed(s.db, id, b) && !Rules.Blocks(call.env.rules, s.db.bundles[b].tenant, call.env.moment)
  {
    OnlyStartStarts(s.db, call, b);
    Rules.ExecutionBlockedIff(call.env.rules, s.db.bundles[b].tenant, call.env.moment);
    id :| Backed(s.db, id, b);
  }

  // ---------- what overlapping breaks ----------

  lemma RunOneMore(s: State, steps: seq<Step>, step: Step)
    ensures Run(s, steps + [step]) == Do(Run(s, steps), step)
  {
    assert (steps + [step])[..|steps|] == steps;
  }

  /**
   A write keeps an exact counter exact exactly when the count it read is still the current one; a second
   approval by a user already on record must have read one less.
   */
  lemma WriteIsExactIff(db: Tables, c: Caller)
    requires c.id in db.requests && c.kind == Approving
    requires db.requests[c.id].current == |ApprovedBy(db.actions, c.id)|
    ensures var db' := WriteApproval(db, c);
            db'.requests[c.id].current == |ApprovedBy(db'.actions, c.id)|
            <==> c.seen.current == db.requests[c.id].current - if c.user in ApprovedBy(db.actions, c.id) then 1 else 0
  {
    var approvers := ApprovedBy(db.actions, c.id);
    ApprovedByAppend(db.actions, Action(c.id, c.user, Approved), c.id);
    if c.user in approvers {
      assert approvers + {c.user} == approvers;
    }
  }

  /** Two calls that both read the request before either writes count as one: the second write repeats the first's count. */
  lemma OverlappingApprovalsLoseOne(db: Tables, env: Env, id: int, u: int, v: int) returns (steps: seq<Step>)
    requires id in db.requests && db.requests[id].status == Pending && env.now <= db.requests[id].expiresAt
    requires u != v && u !in ApprovedBy(db.actions, id) && v !in ApprovedBy(db.actions, id)
    requires Permission(env, u, db.requests[id]).Ok? && Permission(env, v, db.requests[id]).Ok?
    requires db.requests[id].required > db.requests[id].current + 1
    ensures var db' := Run(State(db, []), steps).db;
            && id in db'.requests && db'.requests[id].status == Pending
            && db'.requests[id].current == db.requests[id].current + 1
            && |ApprovedBy(db'.actions, id)| == |ApprovedBy(db.actions, id)| + 2
  {
    var req := db.requests[id];
    var a, b := Caller(Approving, u, id, req, true), Caller(Approving, v, id, req, true);
    var s0 := State(db, []);
    var toRead := [Read(Approving, u, id), Read(Approving, v, id)];
    var toCheck := toRead + [Check(0, env)] + [Check(1, env)];
    steps := toCheck + [Commit(0)] + [Commit(0)];
    assert Run(s0, toRead) == State(db, [a.(checked := false), b.(checked := false)]) by {
      RunOneMore(s0, [Read(Approving, u, id)], Read(Approving, v, id));
      RunOneMore(s0, [], Read(Approving, u, id));
      assert [] + [Read(Approving, u, id)] == [Read(Approving, u, id)];
      assert [Read(Approving, u, id)] + [Read(Approving, v, id)] == toRead;
    }
    assert Run(s0, toCheck) == State(db, [a, b]) by {
      RunOneMore(s0, toRead, Check(0, env));
      RunOneMore(s0, toRead + [Check(0, env)], Check(1, env));
    }
    RunOneMore(s0, toCheck, Commit(0));
    RunOneMore(s0, toCheck + [Commit(0)], Commit(0));
    BothWritesCountOnce(db, a, b);
  }

  lemma BothWritesCountOnce(db: Tables, a: Caller, b: Caller)
    requires a.kind == b.kind == Approving && a.checked && b.checked && a.id == b.id && a.seen == b.seen && a.user != b.user
    requires a.id in db.requests && a.seen == db.requests[a.id] && a.seen.status == Pending
    requires a.user !in ApprovedBy(db.actions, a.id) && b.user !in ApprovedBy(db.actions, a.id)
    requires a.seen.required > a.seen.current + 1
    ensures var db' := DoCommit(DoCommit(State(db, [a, b]), 0), 0).db;
            && a.id in db'.requests && db'.requests[a.id].status == Pending
            && db'.requests[a.id].current == a.seen.current + 1
            && |ApprovedBy(db'.actions, a.id)| == |ApprovedBy(db.actions, a.id)| + 2
  {
    var db1 := WriteApproval(db, a);
    assert DoCommit(State(db, [a, b]), 0) == State(db1, [b]);
    ApprovedByAppend(db.actions, Action(a.id, a.user, Approved), a.id);
    ApprovedByAppend(db1.actions, Action(a.id, b.user, Approved), a.id);
  }

  /** A rejection that lands between an approving call's tests and its write is overwritten, and the bundle released. */
  lemma LateApprovalOverwritesRejection(db: Tables, env: Env, id: int, u: int, v: int)
    requires id in db.requests && db.requests[id].status == Pending && env.now <= db.requests[id].expiresAt
    requires u !in ApprovedBy(db.actions, id) && db.requests[id].bundle in db.bundles
    requires Permission(env, u, db.requests[id]).Ok? && Permission(env, v, db.requests[id]).Ok?
    requires db.requests[id].current + 1 >= db.requests[id].required
    ensures var checked := DoCheck(DoRead(State(db, []), Approving, u, id), 0, env);
            var rejected := Do(checked, Atomic(Call(env, DoReject(id, v))));
            var after := DoCommit(rejected, 0);
            && rejected.db.requests[id].status == Rejected
            && after.db.requests[id].status == Approved
            && after.db.bundles[db.requests[id].bundle].status == BundleApproved
  {
    var c := Caller(Approving, u, id, db.requests[id], true);
    assert DoCheck(DoRead(State(db, []), Approving, u, id), 0, env) == State(db, [c]);
  }

  /**
   What a call writes does not depend on the row it finds: an approval that meets the quota by its own count
   approves and releases, any other leaves the status alone; a rejection rejects and cancels. Only this
   request's row and, with it, its bundle change.
   */
  lemma WritesMean(db: Tables, c: Caller)
    requires c.id in db.requests
    ensures var db' := WriteApproval(db, c);
            var met := c.seen.current + 1 >= c.seen.required;
            && OthersKept(db, db', c.id) && db'.actions == db.actions + [Action(c.id, c.user, Approved)] && c.id in db'.requests
            && db'.requests[c.id] == db.requests[c.id].(current := c.seen.current + 1,
                                                        status := if met then Approved else db.requests[c.id].status)
            && db'.bundles == if met && c.seen.bundle in db.bundles
                              then db.bundles[c.seen.bundle := Bundle(db.bundles[c.seen.bundle].tenant, BundleApproved, Some(c.user))]
                              else db.bundles
    ensures var db' := WriteRejection(db, c);
            && OthersKept(db, db', c.id) && db'.actions == db.actions + [Action(c.id, c.user, Rejected)] && c.id in db'.requests
            && db'.requests[c.id] == db.requests[c.id].(status := Rejected)
            && db'.bundles == if c.seen.bundle in db.bundles
                              then db.bundles[c.seen.bundle := db.bundles[c.seen.bundle].(status := Cancelled)] else db.bundles
  {
  }

  lemma NextStaysDecided(s: State, step: Step, id: int)
    requires id in s.db.requests && s.db.requests[id].status != Pending
    ensures id in Do(s, step).db.requests && Do(s, step).db.requests[id].status != Pending
  {
  }

  /** A decision may be replaced by another, but in no interleaving does a decided request become pending again. */
  lemma {:induction false} NeverPendingAgain(s: State, steps: seq<Step>, id: int)
    requires id in s.db.requests && s.db.requests[id].status != Pending
    ensures id in Run(s, steps).db.requests && Run(s, steps).db.requests[id].status != Pending
  {
    if steps != [] {
      NeverPendingAgain(s, steps[..|steps| - 1], id);
      NextStaysDecided(Run(s, steps[..|steps| - 1]), steps[|steps| - 1], id);
    }
  }

  // ---------- when a decision is final ----------

  function ActionsOn(actions: seq<Action>, id: int): seq<Action> {
    if actions == [] then []
    else
      var a := actions[|actions| - 1];
      ActionsOn(actions[..|actions| - 1], id) + if a.request == id then [a] else []
  }

  lemma ActionsOnAppend(actions: seq<Action>, a: Action, id: int)
    ensures ActionsOn(actions + [a], id) == ActionsOn(actions, id) + if a.request == id then [a] else []
  {
    assert (actions + [a])[..|actions|] == actions;
  }

  /** The request's row and the actions on it are as before. */
  ghost predicate SameRecord(db: Tables, db': Tables, id: int) {
    && id in db.requests && id in db'.requests && db'.requests[id] == db.requests[id]
    && ActionsOn(db'.actions, id) == ActionsOn(db.actions, id)
  }

  /** The call still has something to write to the request: it passed its tests, or read the row pending and may yet. */
  predicate MayWrite(db: Tables, c: Caller, id: int)
    requires id in db.requests
  {
    c.id == id &&
    (c.checked || (c.seen.status == Pending &&
                   (c.kind == Rejecting || c.user !in ApprovedBy(db.actions, id) || db.requests[id].status != Expired)))
  }

  ghost predicate Quiet(s: State, id: int)
    requires id in s.db.requests
  {
    forall i :: 0 <= i < |s.inFlight| ==> !MayWrite(s.db, s.inFlight[i], id)
  }

  /** Decided, and no call under way has anything to write. */
  ghost predicate Closed(s: State, id: int) {
    id in s.db.requests && s.db.requests[id].status != Pending && Quiet(s, id)
  }

  lemma CommitKeepsClosed(s: State, i: nat, id: int)
    requires Closed(s, id)
    ensures Closed(DoCommit(s, i), id) && SameRecord(s.db, DoCommit(s, i).db, id)
  {
    if DoCommit(s, i) != s {
      var c := s.inFlight[i];
      assert !MayWrite(s.db, c, id);
      var a := Action(c.id, c.user, if c.kind == Approving then Approved else Rejected);
      AppendForAll(s.db.actions, a);
      ActionsOnAppend(s.db.actions, a, id);
    }
  }

  lemma CheckKeepsClosed(s: State, i: nat, env: Env, id: int)
    requires Closed(s, id)
    ensures Closed(DoCheck(s, i, env), id) && SameRecord(s.db, DoCheck(s, i, env).db, id)
  {
    if i < |s.inFlight| {
      assert !MayWrite(s.db, s.inFlight[i], id);
    }
  }

  /** New actions on other requests, the request's own row kept: the request stays closed. */
  lemma AddedElsewhere(s: State, db': Tables, added: seq<Action>, id: int)
    requires Closed(s, id) && id in db'.requests && db'.requests[id] == s.db.requests[id]
    requires db'.actions == s.db.actions + added && |added| <= 1
    requires added != [] ==> added[0].request != id
    ensures Closed(State(db', s.inFlight), id) && SameRecord(s.db, db', id)
  {
    if added == [] {
      assert s.db.actions + added == s.db.actions;
    } else {
      assert added == [added[0]];
      AppendForAll(s.db.actions, added[0]);
      ActionsOnAppend(s.db.actions, added[0], id);
    }
    forall i | 0 <= i < |s.inFlight| ensures !MayWrite(db', s.inFlight[i], id) {
      assert !MayWrite(s.db, s.inFlight[i], id);
    }
  }

  lemma AtomicKeepsClosed(s: State, call: Call, id: int)
    requires Closed(s, id)
    ensures Closed(State(Approvals.Do(s.db, call), s.inFlight), id) && SameRecord(s.db, Approvals.Do(s.db, call), id)
  {
    var added := ActionsOfStep(s.db, call);
    DecidedIsUntouched(s.db, call, id);
    if added != [] {
      assert Approvals.Do(s.db, call).actions[|s.db.actions|] == added[0];
    }
    AddedElsewhere(s, Approvals.Do(s.db, call), added, id);
  }

  /** An atomic call leaves a decided request alone. */
  lemma DecidedIsUntouched(db: Tables, call: Call, id: int)
    requires id in db.requests && db.requests[id].status != Pending
    ensures var db' := Approvals.Do(db, call);
            && id in db'.requests && db'.requests[id] == db.requests[id]
            && forall i :: |db.actions| <= i < |db'.actions| ==> db'.actions[i].request != id
  {
  }

  lemma {:induction false} ClosedStaysClosed(s: State, steps: seq<Step>, id: int)
    requires Closed(s, id)
    ensures Closed(Run(s, steps), id) && SameRecord(s.db, Run(s, steps).db, id)
  {
    if steps != [] {
      var s1, step := Run(s, steps[..|steps| - 1]), steps[|steps| - 1];
      ClosedStaysClosed(s, steps[..|steps| - 1], id);
      match step
      case Read(kind, user, i) =>
      case Check(i, env) => CheckKeepsClosed(s1, i, env, id);
      case Commit(i) => CommitKeepsClosed(s1, i, id);
      case Atomic(call) => AtomicKeepsClosed(s1, call, id);
    }
  }

  /** The environment in which the caller is an administrator at the given time. */
  ghost function AdminAt(user: int, now: int): Env {
    Env(map[user := Admin], [], [], now, Rules.Moment(Rules.Date(2025, 1, 1), 2, 0))
  }

  lemma CommitChangesRecord(s: State, i: nat, id: int)
    requires i < |s.inFlight| && s.inFlight[i].checked && s.inFlight[i].id == id && id in s.db.requests
    ensures !SameRecord(s.db, DoCommit(s, i).db, id)
  {
    var c := s.inFlight[i];
    ActionsOnAppend(s.db.actions, Action(id, c.user, if c.kind == Approving then Approved else Rejected), id);
  }

  lemma RunOne(s: State, step: Step)
    ensures Run(s, [step]) == Do(s, step)
  {
    RunOneMore(s, [], step);
    assert [] + [step] == [step];
  }

  /** A call whose user has approved meanwhile can only find the request expired. */
  lemma LateCallCanExpire(s: State, i: nat, id: int)
    requires i < |s.inFlight| && id in s.db.requests && !s.inFlight[i].checked && s.inFlight[i].id == id
    requires s.inFlight[i].kind == Approving && s.inFlight[i].seen.status == Pending
    requires s.db.requests[id].status != Expired
    ensures !SameRecord(s.db, DoCheck(s, i, AdminAt(s.inFlight[i].user, s.inFlight[i].seen.expiresAt + 1)).db, id)
  {
  }

  /** Any other call passes its tests as an administrator in time. */
  lemma AdminPasses(s: State, i: nat, id: int)
    requires i < |s.inFlight| && id in s.db.requests && !s.inFlight[i].checked && s.inFlight[i].id == id
    requires s.inFlight[i].seen.status == Pending
    requires s.inFlight[i].kind == Rejecting || s.inFlight[i].user !in ApprovedBy(s.db.actions, id)
    ensures DoCheck(s, i, AdminAt(s.inFlight[i].user, s.inFlight[i].seen.expiresAt))
            == State(s.db, s.inFlight[i := s.inFlight[i].(checked := true)])
  {
  }

  /** A call that may write has a continuation in which it does. */
  lemma OpenCallCanWrite(s: State, i: nat, id: int) returns (steps: seq<Step>)
    requires i < |s.inFlight| && id in s.db.requests && MayWrite(s.db, s.inFlight[i], id)
    ensures !SameRecord(s.db, Run(s, steps).db, id)
  {
    var c := s.inFlight[i];
    if c.checked {
      steps := [Commit(i)];
      RunOne(s, Commit(i));
      CommitChangesRecord(s, i, id);
    } else if c.kind == Approving && c.user in ApprovedBy(s.db.actions, id) {
      var check := Check(i, AdminAt(c.user, c.seen.expiresAt + 1));
      steps := [check];
      RunOne(s, check);
      LateCallCanExpire(s, i, id);
    } else {
      var check := Check(i, AdminAt(c.user, c.seen.expiresAt));
      steps := [check] + [Commit(i)];
      RunOne(s, check);
      RunOneMore(s, [check], Commit(i));
      AdminPasses(s, i, id);
      CommitChangesRecord(Do(s, check), i, id);
    }
  }

  /** A decision is final in every continuation exactly when no call under way still has something to write. */
  lemma DecisionIsFinalIff(s: State, id: int)
    requires id in s.db.requests && s.db.requests[id].status != Pending
    ensures Quiet(s, id) <==> forall steps :: SameRecord(s.db, Run(s, steps).db, id)
  {
    if Quiet(s, id) {
      forall steps ensures SameRecord(s.db, Run(s, steps).db, id) {
        ClosedStaysClosed(s, steps, id);
      }
    } else {
      var i :| 0 <= i < |s.inFlight| && MayWrite(s.db, s.inFlight[i], id);
      var steps := OpenCallCanWrite(s, i, id);
    }
  }
}

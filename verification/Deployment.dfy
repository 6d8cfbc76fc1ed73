/** Execution of an approved bundle (backend/services/deployment_service.py). */
module Deployment {
  import opened Results
  import Rules = RuleEngine
  import opened Approvals

  datatype ItemStatus = ItemPending | ItemInProgress | ItemSuccess | ItemFailed | ItemSkipped | ItemRolledBack

  datatype Item = Item(bundle: int, status: ItemStatus)

  /** completion_percentage, completed_items and total_items of the bundle's execution log. */
  datatype Progress = Progress(percentage: nat, completed: nat, total: nat)

  datatype Report = Report(status: BundleStatus, successes: nat, failures: nat, total: nat)

  predicate IsDone(s: ItemStatus) {
    s == ItemSuccess || s == ItemFailed || s == ItemSkipped
  }

  function ItemCount(items: seq<Item>, b: int): nat {
    if items == [] then 0 else ItemCount(items[1..], b) + if items[0].bundle == b then 1 else 0
  }

  function DoneCount(items: seq<Item>, b: int): (n: nat)
    ensures n <= ItemCount(items, b)
  {
    if items == [] then 0 else DoneCount(items[1..], b) + if items[0].bundle == b && IsDone(items[0].status) then 1 else 0
  }

  lemma {:induction false} DoneCountIsFullIff(items: seq<Item>, b: int)
    ensures DoneCount(items, b) == ItemCount(items, b)
       <==> forall i :: 0 <= i < |items| && items[i].bundle == b ==>
                          items[i].status == ItemSuccess || items[i].status == ItemFailed || items[i].status == ItemSkipped
  {
    if items != [] {
      DoneCountIsFullIff(items[1..], b);
      assert items == [items[0]] + items[1..];
    }
  }

  lemma {:induction false} ItemCountAppend(items: seq<Item>, x: Item, b: int)
    ensures ItemCount(items + [x], b) == ItemCount(items, b) + if x.bundle == b then 1 else 0
  {
    if items == [] {
      assert items + [x] == [x];
    } else {
      ItemCountAppend(items[1..], x, b);
      assert (items + [x])[1..] == items[1..] + [x];
    }
  }

  lemma {:induction false} SameBundlesSameCount(s: seq<Item>, t: seq<Item>, b: int)
    requires |s| == |t| && forall i :: 0 <= i < |s| ==> s[i].bundle == t[i].bundle
    ensures ItemCount(s, b) == ItemCount(t, b)
  {
    if s != [] {
      SameBundlesSameCount(s[1..], t[1..], b);
    }
  }

  lemma {:induction false} DoneCountAppend(items: seq<Item>, x: Item, b: int)
    ensures DoneCount(items + [x], b) == DoneCount(items, b) + if x.bundle == b && IsDone(x.status) then 1 else 0
  {
    if items == [] {
      assert items + [x] == [x];
    } else {
      DoneCountAppend(items[1..], x, b);
      assert (items + [x])[1..] == items[1..] + [x];
    }
  }

  /** The positions of the bundle's items, and of those that are done. */
  ghost function ItemsOf(items: seq<Item>, b: int): set<int> {
    set i | 0 <= i < |items| && items[i].bundle == b
  }

  ghost function DoneOf(items: seq<Item>, b: int): set<int> {
    set i | 0 <= i < |items| && items[i].bundle == b
            && (items[i].status == ItemSuccess || items[i].status == ItemFailed || items[i].status == ItemSkipped)
  }

  lemma ItemsOfAppend(items: seq<Item>, x: Item, b: int)
    ensures |ItemsOf(items + [x], b)| == |ItemsOf(items, b)| + if x.bundle == b then 1 else 0
  {
    assert ItemsOf(items + [x], b) == ItemsOf(items, b) + if x.bundle == b then {|items|} else {};
  }

  lemma DoneOfAppend(items: seq<Item>, x: Item, b: int)
    ensures |DoneOf(items + [x], b)| == |DoneOf(items, b)| + if x.bundle == b && IsDone(x.status) then 1 else 0
  {
    assert DoneOf(items + [x], b) == DoneOf(items, b) + if x.bundle == b && IsDone(x.status) then {|items|} else {};
  }

  lemma {:induction false} CountsAreCardinalities(items: seq<Item>, b: int)
    ensures ItemCount(items, b) == |ItemsOf(items, b)| && DoneCount(items, b) == |DoneOf(items, b)|
  {
    if items == [] {
      assert ItemsOf(items, b) == {} && DoneOf(items, b) == {};
    } else {
      var init, x := items[..|items| - 1], items[|items| - 1];
      assert items == init + [x];
      CountsAreCardinalities(init, b);
      ItemCountAppend(init, x, b);
      ItemsOfAppend(init, x, b);
      DoneCountAppend(init, x, b);
      DoneOfAppend(init, x, b);
    }
  }

  /** The percentage, rounded down, is 100 only when every item is done. */
  function ProgressOf(items: seq<Item>, b: int): (p: Progress)
    requires ItemCount(items, b) > 0
    ensures p.total == |ItemsOf(items, b)| && p.completed == |DoneOf(items, b)|
    ensures p.percentage * p.total <= 100 * p.completed < (p.percentage + 1) * p.total
    ensures p.percentage <= 100
    ensures p.percentage == 100 <==> ItemsOf(items, b) == DoneOf(items, b)
  {
    var done, total := DoneCount(items, b), ItemCount(items, b);
    CountsAreCardinalities(items, b);
    PercentageBounds(done, total);
    AllDoneIff(items, b);
    Progress(100 * done / total, done, total)
  }

  lemma AllDoneIff(items: seq<Item>, b: int)
    ensures |ItemsOf(items, b)| == |DoneOf(items, b)| <==> ItemsOf(items, b) == DoneOf(items, b)
  {
    var all, done := ItemsOf(items, b), DoneOf(items, b);
    assert all == done + (all - done);
    assert |all| == |done| + |all - done|;
  }

  lemma ProductsGrow(a: int, b: int, n: nat)
    ensures a <= b ==> a * n <= b * n
  {
  }

  lemma PercentageBounds(done: nat, total: nat)
    requires done <= total && total > 0
    ensures 0 <= 100 * done / total <= 100
    ensures 100 * done / total * total <= 100 * done < (100 * done / total + 1) * total
    ensures 100 * done / total == 100 <==> done == total
  {
    var q, r := 100 * done / total, 100 * done % total;
    assert 100 * done == q * total + r && 0 <= r < total;
    ProductsGrow(101, q, total);
    ProductsGrow(100, q, total);
    ProductsGrow(q + 1, 100, total);
    assert (q + 1) * total == q * total + total;
  }

  class DeploymentService {
    const db: Database
    var items: seq<Item>
    var executionLog: map<int, Progress>

    constructor (db: Database, items: seq<Item>)
      ensures this.db == db && this.items == items && executionLog == map[]
    {
      this.db, this.items, executionLog := db, items, map[];
    }

    method UpdateBundleProgress(b: int)
      modifies this`executionLog
      ensures executionLog == if ItemCount(items, b) == 0 then old(executionLog)
                              else old(executionLog)[b := ProgressOf(items, b)]
    {
      var total := ItemCount(items, b);
      if total == 0 {
        return;
      }
      var p := ProgressOf(items, b);
      executionLog := executionLog[b := p];
    }

    method ExecuteBundleItem(i: nat) returns (success: bool)
      requires i < |items|
      modifies this
      ensures success
      ensures items == old(items)[i := Item(old(items)[i].bundle, ItemSuccess)]
      ensures var b := items[i].bundle;
              ItemCount(items, b) > 0 && executionLog == old(executionLog)[b := ProgressOf(items, b)]
    {
      var b := items[i].bundle;
      items := items[i := Item(b, ItemInProgress)];
      items := items[i := Item(b, ItemSuccess)];
      HasItem(items, i);
      UpdateBundleProgress(b);
      return true;
    }

    /**
     A bundle that passes the gate runs every one of its items to success and ends completed with its
     log at 100 percent; one that does not pass leaves everything as it was.
     */
    method ExecuteBundle(env: Env, b: int, tenant: int) returns (r: Result<Report, Error>)
      modifies this, db
      ensures var (started, gate) := StartExecution(old(db.View()), env, b, tenant);
              match gate {
                case Err(e) => r == Err(e) && db.View() == old(db.View()) && items == old(items)
                               && executionLog == old(executionLog)
                case Ok(_) =>
                  var n := ItemCount(old(items), b);
                  && r == Ok(Report(Completed, n, 0, n))
                  && db.View() == FinishExecution(started, b, n, 0)
                  && AllSucceeded(old(items), items, b)
                  && executionLog == if n == 0 then old(executionLog) else old(executionLog)[b := Progress(100, n, n)]
              }
    {
      if b !in db.bundles || db.bundles[b].tenant != tenant {
        return Err(NotFound);
      }
      if db.bundles[b].status != BundleApproved {
        return Err(NotApproved);
      }
      var verdict, matches, evaluated := Rules.EvaluateDeployment(env.rules, tenant, Rules.NO_CONTEXT, env.moment);
      if verdict == Rules.VerdictBlock {
        return Err(Blocked);
      }
      db.bundles := SetStatus(db.bundles, b, InProgress, None);
      var successes, failures := ExecuteItems(b);
      var status := FinalStatus(successes, failures);
      db.bundles := SetStatus(db.bundles, b, status, None);
      return Ok(Report(status, successes, failures, successes + failures));
    }

    method ExecuteItems(b: int) returns (successes: nat, failures: nat)
      modifies this
      ensures successes == ItemCount(old(items), b) && failures == 0
      ensures AllSucceeded(old(items), items, b)
      ensures executionLog == if successes == 0 then old(executionLog)
                              else old(executionLog)[b := Progress(100, successes, successes)]
    {
      successes := 0;
      var failed: int := 0;
      ghost var before := items;
      var i := 0;
      while i < |items|
        invariant 0 <= i <= |items| == |before|
        invariant forall k :: 0 <= k < i ==>
                    items[k] == if before[k].bundle == b then Item(b, ItemSuccess) else before[k]
        invariant forall k :: i <= k < |items| ==> items[k] == before[k]
        invariant successes == ItemCount(before[..i], b) && failed == 0
        invariant successes == 0 ==> executionLog == old(executionLog)
        invariant successes > 0 ==>
                    ItemCount(items, b) > 0 && executionLog == old(executionLog)[b := ProgressOf(items, b)]
      {
        ItemCountAppend(before[..i], before[i], b);
        assert before[..i + 1] == before[..i] + [before[i]];
        if items[i].bundle == b {
          var success := ExecuteBundleItem(i);
          if success {
            successes := successes + 1;
          } else {
            failed := failed + 1;
          }
        }
        i := i + 1;
      }
      failures := failed;
      assert before[..|before|] == before;
      SameBundlesSameCount(before, items, b);
      DoneCountIsFullIff(items, b);
    }
  }

  lemma {:induction false} HasItem(items: seq<Item>, i: nat)
    requires i < |items|
    ensures ItemCount(items, items[i].bundle) > 0
  {
    if i > 0 {
      HasItem(items[1..], i - 1);
    }
  }

  /** Every item of the bundle succeeded and no other item changed. */
  ghost predicate AllSucceeded(before: seq<Item>, after: seq<Item>, b: int) {
    && |after| == |before|
    && forall i :: 0 <= i < |before| ==>
         after[i] == if before[i].bundle == b then Item(b, ItemSuccess) else before[i]
  }
}

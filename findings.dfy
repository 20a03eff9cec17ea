/**
 * Two places where the application lifecycle of
 * controllers/appliedJobController.js does not keep its promise that a
 * withdrawal within the refund window gives the spent credit back, each
 * with the behaviour as written and a corrected definition.
 *
 * 1. applyForJob stores the application without the plan it was paid
 *    from, so deleteAppliedJob always takes its "no plan" branch: the
 *    application disappears and the credit stays spent.
 *    `ApplyForJobLinked` records the plan.
 * 2. deleteAppliedJob refuses the refund when the plan's counter is at or
 *    below zero, which is exactly the state a plan is left in after its
 *    last credit was spent.  `DeleteAppliedJobRefunding` drops the guard.
 */
module Findings {
  import opened Ledger
  import opened AppliedJobs

  /** The application a linked apply stores: the new record, remembering the paying plan. */
  function LinkedApplication(id: Id, u: Id, p: Id, now: int, planId: Id): (a: AppliedJob)
    ensures a.planId == Some(planId)
    ensures a.(planId := None) == NewApplication(id, u, p, now)
  {
    NewApplication(id, u, p, now).(planId := Some(planId))
  }

  /**
   * applyForJob with the plan identifier stored on the application; every
   * guard and every answer is the as-written one.
   */
  method ApplyForJobLinked(db: Db, isValid: Id -> bool, userId: Field, postId: Field, now: int, newId: Id)
    returns (status: int, db': Db)
    requires FreshAppId(db, newId)
    ensures status == 200 || status == 400 || status == 404
    ensures status != 200 ==> db' == db
    ensures status == 200 <==> ApplyAccepts(db, isValid, userId, postId, now)
    ensures status == 404 <==>
      && Given(userId) && Given(postId) && isValid(userId.value) && isValid(postId.value)
      && FindFirst(db.plans, OwnsPlan(userId.value)).Some? && Classify(db, postId.value).None?
    ensures status == 200 ==>
      var u, p := userId.value, postId.value;
      var c := Classify(db, p).value;
      var k := FindFirst(db.plans, EligiblePlan(u, c, now)).value;
      db' == db.(applied := db.applied + [LinkedApplication(newId, u, p, now, db.plans[k].id)],
                 plans := db.plans[k := Debit(db.plans[k], c)])
    ensures UniquePairs(db.applied) ==> UniquePairs(db'.applied)
  {
    status, db' := ApplyForJob(db, isValid, userId, postId, now, newId);
    if status == 200 {
      var u, p := userId.value, postId.value;
      var c := Classify(db, p).value;
      var k := FindFirst(db.plans, EligiblePlan(u, c, now)).value;
      var n := |db.applied|;
      db' := db'.(applied := db'.applied[n := LinkedApplication(newId, u, p, now, db.plans[k].id)]);
      if UniquePairs(db.applied) {
        ApplyKeepsPairsUnique(db.applied, LinkedApplication(newId, u, p, now, db.plans[k].id));
      }
    }
  }

  /** Plan identifiers are unique, so looking a plan up by its own identifier finds it. */
  lemma {:induction false} LookupOwnId(plans: seq<Plan>, k: nat)
    requires UniquePlanIds(plans) && k < |plans|
    ensures FindFirst(plans, HasPlanId(plans[k].id)) == Some(k)
  {
    if k > 0 {
      assert UniquePlanIds(plans[1..]) by {
        forall i, j | 0 <= i < j < |plans[1..]|
          ensures plans[1..][i].id != plans[1..][j].id
        {
          assert plans[1..][i] == plans[i + 1] && plans[1..][j] == plans[j + 1];
        }
      }
      assert plans[0].id != plans[k].id;
      LookupOwnId(plans[1..], k - 1);
    }
  }

  /** Spending a credit keeps every plan identifier, so they stay unique. */
  lemma DebitKeepsIds(plans: seq<Plan>, k: nat, c: JobClass)
    requires UniquePlanIds(plans) && k < |plans|
    ensures UniquePlanIds(plans[k := Debit(plans[k], c)])
  {
    var after := plans[k := Debit(plans[k], c)];
    assert forall i :: 0 <= i < |plans| ==> after[i].id == plans[i].id;
  }

  /**
   * The state a successful apply leaves behind, seen by the withdrawal:
   * the new application is the one found for the pair, removing it gives
   * the old applications back, and the plan it names is the one debited.
   */
  lemma AfterApply(db: Db, u: Id, p: Id, rec: AppliedJob, k: nat, c: JobClass)
    requires UniquePlanIds(db.plans) && k < |db.plans|
    requires FindFirst(db.applied, IsPair(u, p)).None? && IsPair(u, p)(rec)
    ensures var applied := db.applied + [rec];
      var plans := db.plans[k := Debit(db.plans[k], c)];
      && FindFirst(applied, IsPair(u, p)) == Some(|db.applied|)
      && Remove(applied, |db.applied|) == db.applied
      && FindFirst(plans, HasPlanId(db.plans[k].id)) == Some(k)
  {
    FindFirstAppend(db.applied, rec, IsPair(u, p));
    assert (db.applied + [rec])[..|db.applied|] == db.applied;
    DebitKeepsIds(db.plans, k, c);
    LookupOwnId(db.plans[k := Debit(db.plans[k], c)], k);
  }

  /**
   * As written: withdrawing right after a successful apply answers 200 and
   * removes the application, but the credit is never given back, whatever
   * the time.
   */
  method ApplyThenWithdraw(db: Db, isValid: Id -> bool, userId: Field, postId: Field, now: int, later: int, newId: Id)
    returns (applied: int, withdrawn: int, db1: Db, db2: Db)
    requires FreshAppId(db, newId)
    ensures applied == 200 ==>
      && withdrawn == 200
      && db2.applied == db.applied
      && db2.plans == db1.plans
      && db2.plans != db.plans
  {
    applied, db1 := ApplyForJob(db, isValid, userId, postId, now, newId);
    if applied == 200 {
      var u, p := userId.value, postId.value;
      var c := Classify(db, p).value;
      var k := FindFirst(db.plans, EligiblePlan(u, c, now)).value;
      var rec := NewApplication(newId, u, p, now);
      FindFirstAppend(db.applied, rec, IsPair(u, p));
      assert (db.applied + [rec])[..|db.applied|] == db.applied;
      assert Relevant(db1.plans[k], c) != Relevant(db.plans[k], c);
    }
    withdrawn, db2 := DeleteAppliedJob(db1, userId, postId, later);
  }

  /**
   * deleteAppliedJob with the refund always granted inside the window; the
   * other branches are the as-written ones.
   */
  method DeleteAppliedJobRefunding(db: Db, userId: Field, postId: Field, now: int) returns (status: int, db': Db)
    ensures status == 200 || status == 400 || status == 404
    ensures !Given(userId) || !Given(postId) ==> status == 400 && db' == db
    ensures Given(userId) && Given(postId) ==>
      var u, p := userId.value, postId.value;
      var rec := FindFirst(db.applied, IsPair(u, p));
      && (rec.None? ==> status == 400 && db' == db)
      && (rec.Some? ==>
            var a := db.applied[rec.value];
            var withdrawn := db.(applied := Remove(db.applied, rec.value));
            && (a.planId.None? ==> status == 200 && db' == withdrawn)
            && (a.planId.Some? ==>
                  var pl := FindFirst(db.plans, HasPlanId(a.planId.value));
                  && (pl.None? ==> status == 404 && db' == db)
                  && (pl.Some? ==>
                        && (now - a.timestamp > RefundWindow ==> status == 200 && db' == withdrawn)
                        && (now - a.timestamp <= RefundWindow ==>
                              && (Classify(db, p).None? ==> status == 404 && db' == db)
                              && (Classify(db, p).Some? ==>
                                    && status == 200
                                    && db' == withdrawn.(plans := db.plans[pl.value := Refund(db.plans[pl.value], Classify(db, p).value)]))))))
  {
    if !Given(userId) || !Given(postId) {
      return 400, db;
    }
    var u, p := userId.value, postId.value;
    var rec := FindFirst(db.applied, IsPair(u, p));
    if rec.None? {
      return 400, db;
    }
    var k := rec.value;
    var existing := db.applied[k];
    if existing.planId.None? {
      return 200, db.(applied := Remove(db.applied, k));
    }
    var pl := FindFirst(db.plans, HasPlanId(existing.planId.value));
    if pl.None? {
      return 404, db;
    }
    var j := pl.value;
    var selectedPlan := db.plans[j];
    if now - existing.timestamp <= RefundWindow {
      var c := Classify(db, p);
      if c.None? {
        return 404, db;
      }
      selectedPlan := Refund(selectedPlan, c.value);
    }
    status, db' := 200, db.(plans := db.plans[j := selectedPlan], applied := Remove(db.applied, k));
  }

  /**
   * Corrected: with the plan recorded and the refund granted, withdrawing
   * within the window undoes the apply completely; after the window the
   * application is removed and the credit stays spent.
   */
  method ApplyThenWithdrawLinked(db: Db, isValid: Id -> bool, userId: Field, postId: Field, now: int, later: int, newId: Id)
    returns (applied: int, withdrawn: int, db1: Db, db2: Db)
    requires UniquePlanIds(db.plans) && FreshAppId(db, newId)
    ensures applied == 200 && later - now <= RefundWindow ==> withdrawn == 200 && db2 == db
    ensures applied == 200 && later - now > RefundWindow ==>
      withdrawn == 200 && db2.applied == db.applied && db2.plans == db1.plans
  {
    applied, db1 := ApplyForJobLinked(db, isValid, userId, postId, now, newId);
    withdrawn, db2 := DeleteAppliedJobRefunding(db1, userId, postId, later);
    if applied == 200 {
      var u, p := userId.value, postId.value;
      var c := Classify(db, p).value;
      var k := FindFirst(db.plans, EligiblePlan(u, c, now)).value;
      var n := |db.applied|;
      AfterApply(db, u, p, LinkedApplication(newId, u, p, now, db.plans[k].id), k, c);
      assert db1.applied[n] == LinkedApplication(newId, u, p, now, db.plans[k].id);
      assert Classify(db1, p) == Some(c);
      if later - now <= RefundWindow {
        RefundUndoesDebit(db.plans[k], c);
        assert db1.plans[k := Refund(db1.plans[k], c)] == db.plans;
      }
    }
  }

  /**
   * As written, even with the plan recorded: when the application spent the
   * plan's last credit, withdrawing within the window is refused with 400
   * and nothing changes: the application and the spent credit both stay.
   */
  method WithdrawAfterLastCredit(db: Db, isValid: Id -> bool, userId: Field, postId: Field, now: int, later: int, newId: Id)
    returns (applied: int, withdrawn: int, db1: Db, db2: Db)
    requires UniquePlanIds(db.plans) && FreshAppId(db, newId)
    ensures ApplyAccepts(db, isValid, userId, postId, now) && later - now <= RefundWindow ==>
      var c := Classify(db, postId.value).value;
      var k := FindFirst(db.plans, EligiblePlan(userId.value, c, now)).value;
      && applied == 200
      && (Relevant(db.plans[k], c) == Some(1) ==> withdrawn == 400 && db2 == db1 && db1 != db)
  {
    applied, db1 := ApplyForJobLinked(db, isValid, userId, postId, now, newId);
    withdrawn, db2 := DeleteAppliedJob(db1, userId, postId, later);
    if applied == 200 && later - now <= RefundWindow {
      var u, p := userId.value, postId.value;
      var c := Classify(db, p).value;
      var k := FindFirst(db.plans, EligiblePlan(u, c, now)).value;
      var n := |db.applied|;
      AfterApply(db, u, p, LinkedApplication(newId, u, p, now, db.plans[k].id), k, c);
      assert db1.applied[n] == LinkedApplication(newId, u, p, now, db.plans[k].id);
      assert Classify(db1, p) == Some(c);
      assert Relevant(db1.plans[k], c) == Dec(Relevant(db.plans[k], c));
      if Relevant(db.plans[k], c) == Some(1) {
        assert Exhausted(Relevant(db1.plans[k], c));
        assert |db1.applied| != |db.applied|;
      }
    }
  }
}

/**
 * The application lifecycle of controllers/appliedJobController.js: apply
 * (spend one plan credit), withdraw (refund it within ten minutes), the
 * shortlist transition, the seen flag, and the count readers.
 *
 * Email and push notifications sent by these endpoints never change the
 * store and are not modelled.
 */
module AppliedJobs {
  import opened Ledger

  /** Withdrawals at most this many milliseconds after applying are refunded. */
  const RefundWindow: int := 600000

  /** `start_date <= now && end_date >= now`, both ends inclusive. */
  predicate Active(p: Plan, now: int)
  {
    p.startDate <= now && p.endDate >= now
  }

  /** A plan of user `u` that can pay for a job of class `c` at time `now`. */
  function EligiblePlan(u: Id, c: JobClass, now: int): Plan -> bool
  {
    (p: Plan) => p.userId == u && Active(p, now) && Credits(Relevant(p, c)) > 0
  }

  /** `Plan.find({ user_id })`. */
  function OwnsPlan(u: Id): Plan -> bool
  {
    (p: Plan) => p.userId == u
  }

  /** `AppliedJob.findOne({ user_id, post_id })`. */
  function IsPair(u: Id, p: Id): AppliedJob -> bool
  {
    (a: AppliedJob) => a.userId == u && a.postId == p
  }

  /** `AppliedJob.findOne({ post_id })`. */
  function HasPostId(p: Id): AppliedJob -> bool
  {
    (a: AppliedJob) => a.postId == p
  }

  /** `AppliedJob.findById(id)`. */
  function HasAppId(id: Id): AppliedJob -> bool
  {
    (a: AppliedJob) => a.id == id
  }

  /** `AppliedJob.find({ user_id })`. */
  function ByUser(u: Id): AppliedJob -> bool
  {
    (a: AppliedJob) => a.userId == u
  }

  /** At most one application per (user, post) pair. */
  predicate UniquePairs(s: seq<AppliedJob>)
  {
    forall i, j :: 0 <= i < j < |s| ==> !(s[i].userId == s[j].userId && s[i].postId == s[j].postId)
  }

  /**
   * The record `AppliedJob.create({ user_id, post_id })` stores: no plan,
   * not seen, pending, stamped with the creation time.
   */
  function NewApplication(id: Id, u: Id, p: Id, now: int): AppliedJob
  {
    AppliedJob(id, u, p, None, false, 0, now)
  }

  /** Every guard of applyForJob passes: the conditions under which it answers 200. */
  predicate ApplyAccepts(db: Db, isValid: Id -> bool, userId: Field, postId: Field, now: int)
  {
    && Given(userId) && Given(postId)
    && isValid(userId.value) && isValid(postId.value)
    && FindFirst(db.plans, OwnsPlan(userId.value)).Some?
    && Classify(db, postId.value).Some?
    && FindFirst(db.applied, IsPair(userId.value, postId.value)).None?
    && FindFirst(db.plans, EligiblePlan(userId.value, Classify(db, postId.value).value, now)).Some?
  }

  /**
   * applyForJob.  The guards are checked in the source's order, each failure
   * leaves the store as it was, and a success appends one application and
   * spends one credit of the first eligible plan.  `newId` is the identifier
   * the store gives the new record.
   */
  method ApplyForJob(db: Db, isValid: Id -> bool, userId: Field, postId: Field, now: int, newId: Id)
    returns (status: int, db': Db)
    requires FreshAppId(db, newId)
    ensures status == 200 || status == 400 || status == 404
    ensures status != 200 ==> db' == db
    ensures status == 200 <==> ApplyAccepts(db, isValid, userId, postId, now)
    ensures !Given(userId) || !Given(postId) ==> status == 400
    ensures Given(userId) && Given(postId) ==>
      var u, p := userId.value, postId.value;
      && (!isValid(u) || !isValid(p) ==> status == 400)
      && (isValid(u) && isValid(p) ==>
            && (FindFirst(db.plans, OwnsPlan(u)).None? ==> status == 400)
            && (FindFirst(db.plans, OwnsPlan(u)).Some? ==>
                  && (Classify(db, p).None? ==> status == 404)
                  && (Classify(db, p).Some? ==>
                        && (FindFirst(db.applied, IsPair(u, p)).Some? ==> status == 400)
                        && (FindFirst(db.applied, IsPair(u, p)).None? ==>
                              var sel := FindFirst(db.plans, EligiblePlan(u, Classify(db, p).value, now));
                              && (sel.None? ==> status == 400)
                              && (sel.Some? ==>
                                    && status == 200
                                    && db' == db.(applied := db.applied + [NewApplication(newId, u, p, now)],
                                                  plans := db.plans[sel.value := Debit(db.plans[sel.value], Classify(db, p).value)]))))))
  {
    if !Given(userId) || !Given(postId) {
      return 400, db;
    }
    var u, p := userId.value, postId.value;
    if !isValid(u) || !isValid(p) {
      return 400, db;
    }
    if FindFirst(db.plans, OwnsPlan(u)).None? {
      return 400, db;
    }

    // Paid collection first, free collection only when the paid one misses.
    var found := p in db.jobs;
    var isPaid := true;
    if !found {
      found := p in db.freeJobs;
      isPaid := false;
    }
    if !found {
      return 404, db;
    }
    ghost var c := Classify(db, p).value;
    assert isPaid <==> c == Paid;

    if FindFirst(db.applied, IsPair(u, p)).Some? {
      return 400, db;
    }

    // The first of the user's plans, in enumeration order, that is active
    // and has a positive balance for this kind of job.
    var selected: Option<nat> := None;
    var i := 0;
    while i < |db.plans|
      invariant 0 <= i <= |db.plans|
      invariant forall j :: 0 <= j < i ==> !EligiblePlan(u, c, now)(db.plans[j])
    {
      var plan := db.plans[i];
      if plan.userId == u && plan.startDate <= now && plan.endDate >= now {
        var paid := Credits(plan.applyPaidJobs);
        var free := Credits(plan.applyFreeJobs);
        if isPaid && paid > 0 {
          selected := Some(i);
          break;
        } else if !isPaid && free > 0 {
          selected := Some(i);
          break;
        }
      }
      i := i + 1;
    }
    if selected.None? {
      return 400, db;
    }
    var k := selected.value;
    assert selected == FindFirst(db.plans, EligiblePlan(u, c, now));

    var applied := db.applied + [NewApplication(newId, u, p, now)];
    var plan := db.plans[k];
    if isPaid {
      plan := plan.(applyPaidJobs := Dec(plan.applyPaidJobs));
    } else {
      plan := plan.(applyFreeJobs := Dec(plan.applyFreeJobs));
    }
    assert plan == Debit(db.plans[k], c);
    status, db' := 200, db.(applied := applied, plans := db.plans[k := plan]);
  }

  /**
   * The credit an apply spends: of all plans only the charged one changes,
   * only in the counter of the job's class, down by exactly one, and that
   * counter stays at or above zero.
   */
  lemma ApplySpendsOneCredit(plans: seq<Plan>, k: nat, c: JobClass)
    requires k < |plans| && Credits(Relevant(plans[k], c)) > 0
    ensures var after := plans[k := Debit(plans[k], c)];
      && |after| == |plans|
      && (forall j :: 0 <= j < |plans| && j != k ==> after[j] == plans[j])
      && MovedBy(plans[k], after[k], c, -1)
      && Relevant(after[k], c).Some? && Relevant(after[k], c).value >= 0
  {
  }

  /** Appending an application for a pair that has none keeps the pairs unique. */
  lemma ApplyKeepsPairsUnique(s: seq<AppliedJob>, a: AppliedJob)
    requires UniquePairs(s) && FindFirst(s, IsPair(a.userId, a.postId)).None?
    ensures UniquePairs(s + [a])
  {
    var t := s + [a];
    forall i, j | 0 <= i < j < |t|
      ensures !(t[i].userId == t[j].userId && t[i].postId == t[j].postId)
    {
      if j == |s| {
        assert !IsPair(a.userId, a.postId)(s[i]);
      }
    }
  }

  /**
   * deleteAppliedJob.  An application without a plan is simply removed; one
   * with a plan is refunded when withdrawn within `RefundWindow`
   * milliseconds, and removed in every successful case.  A refund is refused
   * (400, record kept) when the plan's counter is already at or below zero.
   */
  method DeleteAppliedJob(db: Db, userId: Field, postId: Field, now: int) returns (status: int, db': Db)
    ensures status == 200 || status == 400 || status == 404
    ensures !Given(userId) || !Given(postId) ==> status == 400 && db' == db
    ensures Given(userId) && Given(postId) ==>
      var u, p := userId.value, postId.value;
      var rec := FindFirst(db.applied, IsPair(u, p));
      && (rec.None? ==> status == 400 && db' == db)
      && (rec.Some? ==>
            var a := db.applied[rec.value];
            var withdrawn := db.(applied := Remove(db.applied, rec.value));
            && (a.planId.None? ==> status == 200 && db' == withdrawn)
            && (a.planId.Some? ==>
                  var pl := FindFirst(db.plans, HasPlanId(a.planId.value));
                  && (pl.None? ==> status == 404 && db' == db)
                  && (pl.Some? ==>
                        var plan := db.plans[pl.value];
                        && (now - a.timestamp > RefundWindow ==> status == 200 && db' == withdrawn)
                        && (now - a.timestamp <= RefundWindow ==>
                              && (Classify(db, p).None? ==> status == 404 && db' == db)
                              && (Classify(db, p).Some? ==>
                                    var c := Classify(db, p).value;
                                    && (Exhausted(Relevant(plan, c)) ==> status == 400 && db' == db)
                                    && (!Exhausted(Relevant(plan, c)) ==>
                                          && status == 200
                                          && db' == withdrawn.(plans := db.plans[pl.value := Refund(plan, c)])))))))
    ensures status == 200 ==> |db'.applied| == |db.applied| - 1 && db'.jobs == db.jobs && db'.freeJobs == db.freeJobs
  {
    if !Given(userId) || !Given(postId) {
      return 400, db;
    }
    var u, p := userId.value, postId.value;
    var rec := FindFirst(db.applied, IsPair(u, p));
    if rec.None? {
      return 400, db;
    }
    var k := rec.value;
    var existing := db.applied[k];
    var planId := existing.planId;

    if planId.None? {
      return 200, db.(applied := Remove(db.applied, k));
    }

    var pl := FindFirst(db.plans, HasPlanId(planId.value));
    if pl.None? {
      return 404, db;
    }
    var j := pl.value;
    var selectedPlan := db.plans[j];

    var timeDifference := now - existing.timestamp;
    var isWithin10Minutes := timeDifference <= RefundWindow;

    if isWithin10Minutes {
      var found := p in db.jobs;
      var isPaid := true;
      if !found {
        found := p in db.freeJobs;
        isPaid := false;
      }
      if !found {
        return 404, db;
      }
      if isPaid && Exhausted(selectedPlan.applyPaidJobs) {
        return 400, db;
      } else if !isPaid && Exhausted(selectedPlan.applyFreeJobs) {
        return 400, db;
      }
      if isPaid {
        selectedPlan := selectedPlan.(applyPaidJobs := Inc(selectedPlan.applyPaidJobs));
      } else {
        selectedPlan := selectedPlan.(applyFreeJobs := Inc(selectedPlan.applyFreeJobs));
      }
      assert selectedPlan == Refund(db.plans[j], Classify(db, p).value);
    }

    status, db' := 200, db.(plans := db.plans[j := selectedPlan], applied := Remove(db.applied, k));
  }

  /**
   * updateJobStatus, the shortlist transition: `approve` writes status 1,
   * `disapprove` writes -1, any other action is refused and nothing changes.
   */
  method UpdateJobStatus(db: Db, isValid: Id -> bool, id: Id, action: Field) returns (status: int, db': Db)
    ensures !isValid(id) ==> status == 400 && db' == db
    ensures isValid(id) ==>
      var r := FindFirst(db.applied, HasAppId(id));
      && (r.None? ==> status == 404 && db' == db)
      && (r.Some? ==>
            var k := r.value;
            && (action == Some("approve") ==>
                  status == 200 && db' == db.(applied := db.applied[k := db.applied[k].(status := 1)]))
            && (action == Some("disapprove") ==>
                  status == 200 && db' == db.(applied := db.applied[k := db.applied[k].(status := -1)]))
            && (action != Some("approve") && action != Some("disapprove") ==>
                  status == 400 && db' == db))
    ensures status == 200 ==> |db'.applied| == |db.applied| && db'.plans == db.plans
  {
    if !isValid(id) {
      return 400, db;
    }
    var r := FindFirst(db.applied, HasAppId(id));
    if r.None? {
      return 404, db;
    }
    var k := r.value;
    var appliedJob := db.applied[k];
    if action == Some("approve") {
      appliedJob := appliedJob.(status := 1);
    } else if action == Some("disapprove") {
      appliedJob := appliedJob.(status := -1);
    } else {
      return 400, db;
    }
    status, db' := 200, db.(applied := db.applied[k := appliedJob]);
  }

  /**
   * updateSeenStatus: marks the first application for the post as seen,
   * whoever made it.
   */
  method UpdateSeenStatus(db: Db, postId: Field) returns (status: int, db': Db)
    ensures !Given(postId) ==> status == 400 && db' == db
    ensures Given(postId) ==>
      var r := FindFirst(db.applied, HasPostId(postId.value));
      && (r.None? ==> status == 404 && db' == db)
      && (r.Some? ==>
            status == 200 && db' == db.(applied := db.applied[r.value := db.applied[r.value].(seen := true)]))
  {
    if !Given(postId) {
      return 400, db;
    }
    var r := FindFirst(db.applied, HasPostId(postId.value));
    if r.None? {
      return 404, db;
    }
    var record := db.applied[r.value];
    record := record.(seen := true);
    status, db' := 200, db.(applied := db.applied[r.value := record]);
  }

  /** Marking an application seen a second time answers the same and changes nothing more. */
  method RepeatUpdateSeenStatus(db: Db, postId: Field) returns (first: int, second: int, db1: Db, db2: Db)
    ensures second == first && db2 == db1
  {
    first, db1 := UpdateSeenStatus(db, postId);
    if Given(postId) && first == 200 {
      var k := FindFirst(db.applied, HasPostId(postId.value)).value;
      FindFirstUpdate(db.applied, k, db.applied[k].(seen := true), HasPostId(postId.value));
    }
    second, db2 := UpdateSeenStatus(db1, postId);
  }

  // ---------------------------------------------------------------------
  // Readers
  // ---------------------------------------------------------------------

  /** validateIds: 200 when an application exists for the pair, 404 when not. */
  function ValidateIds(db: Db, userId: Field, postId: Field): (status: int)
    ensures !Given(userId) || !Given(postId) ==> status == 400
    ensures Given(userId) && Given(postId) ==>
      (status == 200 <==> exists i :: 0 <= i < |db.applied| && db.applied[i].userId == userId.value && db.applied[i].postId == postId.value)
    ensures status == 200 || status == 400 || status == 404
  {
    if !Given(userId) || !Given(postId) then 400
    else if FindFirst(db.applied, IsPair(userId.value, postId.value)).Some? then 200
    else 404
  }

  /** getAppliedJobsCount: the number of applications of a user, zero included. */
  function AppliedJobsCount(db: Db, userId: Field): (r: Reply<nat>)
    ensures !Given(userId) ==> r.status == 400
    ensures Given(userId) ==> r.status == 200 && r.body <= |db.applied|
    ensures Given(userId) ==> (r.body == 0 <==> forall i :: 0 <= i < |db.applied| ==> db.applied[i].userId != userId.value)
    ensures Given(userId) ==> r.body == |Indices(db.applied, ByUser(userId.value))|
  {
    if !Given(userId) then Reply(400, 0)
    else
      CountZero(db.applied, ByUser(userId.value));
      CountIndices(db.applied, ByUser(userId.value));
      CountAtMostLength(db.applied, ByUser(userId.value));
      Reply(200, Count(db.applied, ByUser(userId.value)))
  }

  /** getApplicationCountUsingUserId: like the count above, but a user without applications is a 404. */
  function ApplicationCountByUser(db: Db, userId: Field): (r: Reply<nat>)
    ensures !Given(userId) ==> r.status == 400
    ensures Given(userId) ==>
      (r.status == 404 <==> forall i :: 0 <= i < |db.applied| ==> db.applied[i].userId != userId.value)
    ensures r.status == 200 ==> Given(userId) && 0 < r.body == |Indices(db.applied, ByUser(userId.value))|
    ensures r.status == 200 ==> r.body == AppliedJobsCount(db, userId).body
  {
    if !Given(userId) then Reply(400, 0)
    else
      var n := Count(db.applied, ByUser(userId.value));
      CountZero(db.applied, ByUser(userId.value));
      CountIndices(db.applied, ByUser(userId.value));
      if n == 0 then Reply(404, 0) else Reply(200, n)
  }

  /** getApplicationUsingPostIdCount: the number of applications to a post; none is a 404. */
  function ApplicationCountByPost(db: Db, postId: Field): (r: Reply<nat>)
    ensures !Given(postId) ==> r.status == 400
    ensures Given(postId) ==>
      (r.status == 404 <==> forall i :: 0 <= i < |db.applied| ==> db.applied[i].postId != postId.value)
    ensures r.status == 200 ==> 0 < r.body <= |db.applied|
    ensures r.status == 200 ==> Given(postId) && r.body == |Indices(db.applied, HasPostId(postId.value))|
  {
    if !Given(postId) then Reply(400, 0)
    else
      var n := Count(db.applied, HasPostId(postId.value));
      CountZero(db.applied, HasPostId(postId.value));
      CountIndices(db.applied, HasPostId(postId.value));
      CountAtMostLength(db.applied, HasPostId(postId.value));
      if n == 0 then Reply(404, 0) else Reply(200, n)
  }

  /** The paid jobs an employer posted: `Job.find({ user_id })` (free jobs are not asked). */
  function PaidJobsOf(db: Db, employer: Id): set<Id>
  {
    set j | j in db.jobs && Get(db.jobs[j], "user_id") == Str(employer)
  }

  /** An application to one of `posts` that is shortlisted (`__v: 1`). */
  function Shortlisted(posts: set<Id>): AppliedJob -> bool
  {
    (a: AppliedJob) => a.postId in posts && a.status == 1
  }

  /**
   * getShortlistedCandidatesCount: shortlisted applications to the paid jobs
   * of an employer; an employer without paid jobs is a 404 even when they
   * have free jobs.
   */
  function ShortlistedCount(db: Db, employer: Field): (r: Reply<nat>)
    ensures !Given(employer) ==> r.status == 400
    ensures Given(employer) ==>
      (r.status == 404 <==> forall j :: j in db.jobs ==> Get(db.jobs[j], "user_id") != Str(employer.value))
    ensures r.status == 200 ==> r.body <= |db.applied|
    ensures r.status == 200 ==>
      Given(employer) && r.body == |Indices(db.applied, Shortlisted(PaidJobsOf(db, employer.value)))|
  {
    if !Given(employer) then Reply(400, 0)
    else
      var posts := PaidJobsOf(db, employer.value);
      assert forall j :: j in db.jobs && Get(db.jobs[j], "user_id") == Str(employer.value) ==> j in posts;
      if posts == {} then Reply(404, 0)
      else
        CountAtMostLength(db.applied, Shortlisted(posts));
        CountIndices(db.applied, Shortlisted(posts));
        Reply(200, Count(db.applied, Shortlisted(posts)))
  }

  lemma {:induction false} CountAtMostLength<T>(s: seq<T>, f: T -> bool)
    ensures Count(s, f) <= |s|
  {
    if |s| > 0 {
      CountAtMostLength(s[1..], f);
    }
  }

  // ---------------------------------------------------------------------
  // How the operations move the readers
  // ---------------------------------------------------------------------

  /** A successful apply adds exactly one to the applicant's application count. */
  lemma ApplyCountsOnce(db: Db, db': Db, u: Id, p: Id, now: int, newId: Id)
    requires db'.applied == db.applied + [NewApplication(newId, u, p, now)]
    ensures Count(db'.applied, ByUser(u)) == Count(db.applied, ByUser(u)) + 1
    ensures forall v :: v != u ==> Count(db'.applied, ByUser(v)) == Count(db.applied, ByUser(v))
    ensures Count(db'.applied, HasPostId(p)) == Count(db.applied, HasPostId(p)) + 1
    ensures Given(Some(u)) ==> AppliedJobsCount(db', Some(u)).body == AppliedJobsCount(db, Some(u)).body + 1
  {
    CountAppend(db.applied, NewApplication(newId, u, p, now), ByUser(u));
    CountAppend(db.applied, NewApplication(newId, u, p, now), HasPostId(p));
    forall v | v != u
      ensures Count(db'.applied, ByUser(v)) == Count(db.applied, ByUser(v))
    {
      CountAppend(db.applied, NewApplication(newId, u, p, now), ByUser(v));
    }
  }

  /** A successful withdrawal removes exactly one application of the user. */
  lemma WithdrawCountsOnce(s: seq<AppliedJob>, k: nat, u: Id, p: Id)
    requires k < |s| && IsPair(u, p)(s[k])
    ensures Count(Remove(s, k), ByUser(u)) == Count(s, ByUser(u)) - 1
    ensures Count(Remove(s, k), IsPair(u, p)) == Count(s, IsPair(u, p)) - 1
  {
    CountRemove(s, k, ByUser(u));
    CountRemove(s, k, IsPair(u, p));
  }

  /**
   * Approving an application that was not shortlisted raises the shortlisted
   * count of its post's employer by one; approving it again changes nothing.
   */
  lemma ApproveRaisesShortlisted(s: seq<AppliedJob>, k: nat, posts: set<Id>)
    requires k < |s|
    ensures var s' := s[k := s[k].(status := 1)];
      && (s[k].postId in posts && s[k].status != 1 ==> Count(s', Shortlisted(posts)) == Count(s, Shortlisted(posts)) + 1)
      && (s[k].postId !in posts || s[k].status == 1 ==> Count(s', Shortlisted(posts)) == Count(s, Shortlisted(posts)))
  {
    CountUpdate(s, k, s[k].(status := 1), Shortlisted(posts));
  }
}

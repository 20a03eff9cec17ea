/**
 * Free-job posting of controllers/freeJobController.js: every required field
 * must be truthy, the plan named by `plan_id` must exist and still allow a
 * free post, and a successful post spends one of the plan's `free_jobs`.
 *
 * The push notification sent to every candidate afterwards never changes
 * the store and is not modelled.
 */
module FreeJobs {
  import opened Ledger

  /** The fields a free job post must carry, in the order they are checked. */
  const RequiredFields: seq<string> := [
    "jobTitle", "jobCategory", "jobDescription", "email", "username", "specialisms",
    "jobType", "keyResponsibilities", "skillsAndExperience", "offeredSalary", "careerLevel",
    "experienceYears", "experienceMonths", "gender", "industry", "qualification",
    "applicationDeadlineDate", "country", "city", "completeAddress", "user_id",
    "plan_id", "employmentStatus", "vacancies", "companyName"
  ]

  /** `!jobData[field]`. */
  function MissingIn(jobData: JobDoc): string -> bool
  {
    (field: string) => !Truthy(Get(jobData, field))
  }

  /** `Plan.findById(jobData.plan_id)`: only a string can name a plan. */
  function PlanOf(db: Db, planId: JsValue): Option<nat>
  {
    if planId.Str? then FindFirst(db.plans, HasPlanId(planId.s)) else None
  }

  /**
   * The required-field check of postFreeJob: the first field of `fields`, in
   * order, that `jobData` lacks or holds a falsy value for.
   */
  function FirstMissing(fields: seq<string>, jobData: JobDoc): (r: Option<string>)
    ensures r.Some? ==> r.value in fields && !Truthy(Get(jobData, r.value))
    ensures r.Some? ==> exists i :: 0 <= i < |fields| && fields[i] == r.value
                          && forall j :: 0 <= j < i ==> Truthy(Get(jobData, fields[j]))
    ensures r.None? ==> forall f :: f in fields ==> Truthy(Get(jobData, f))
  {
    var m := FindFirst(fields, MissingIn(jobData));
    if m.Some? then Some(fields[m.value]) else None
  }

  /** The loop of postFreeJob over the required fields, returning at the first one missing. */
  method FirstMissingField(fields: seq<string>, jobData: JobDoc) returns (missing: Option<string>)
    ensures missing == FirstMissing(fields, jobData)
  {
    var i := 0;
    while i < |fields|
      invariant 0 <= i <= |fields|
      invariant forall j :: 0 <= j < i ==> !MissingIn(jobData)(fields[j])
    {
      var field := fields[i];
      if !Truthy(Get(jobData, field)) {
        assert FindFirst(fields, MissingIn(jobData)) == Some(i);
        return Some(field);
      }
      i := i + 1;
    }
    return None;
  }

  /**
   * postFreeJob.  `missing` names the first required field, in
   * `RequiredFields` order, that is absent or falsy; `newId` is the
   * identifier the store gives the new free job.
   */
  method PostFreeJob(db: Db, jobData: JobDoc, newId: Id) returns (status: int, missing: Option<string>, db': Db)
    requires newId !in db.freeJobs && newId !in db.jobs
    ensures status == 201 || status == 400
    ensures status != 201 ==> db' == db
    ensures missing == FirstMissing(RequiredFields, jobData)
    ensures
      && (missing.Some? ==> status == 400)
      && (missing.None? ==>
            && var pl := PlanOf(db, Get(jobData, "plan_id"));
            && (pl.None? ==> status == 400)
            && (pl.Some? ==>
                  var plan := db.plans[pl.value];
                  && (Exhausted(plan.freeJobs) ==> status == 400)
                  && (!Exhausted(plan.freeJobs) ==>
                        && status == 201
                        && db' == db.(freeJobs := db.freeJobs[newId := jobData],
                                      plans := db.plans[pl.value := plan.(freeJobs := Dec(plan.freeJobs))]))))
  {
    missing := FirstMissingField(RequiredFields, jobData);
    if missing.Some? {
      return 400, missing, db;
    }

    var pl := PlanOf(db, Get(jobData, "plan_id"));
    if pl.None? {
      return 400, None, db;
    }
    var plan := db.plans[pl.value];
    if Exhausted(plan.freeJobs) {
      return 400, None, db;
    }
    var freeJobs := db.freeJobs[newId := jobData];
    plan := plan.(freeJobs := Dec(plan.freeJobs));
    status, db' := 201, db.(freeJobs := freeJobs, plans := db.plans[pl.value := plan]);
  }

  /**
   * What a successful post does to the store: exactly one free job more
   * (for a fresh identifier), and of all plans only the chosen plan's
   * `free_jobs` moves, down by one, staying at or above zero.
   */
  lemma PostSpendsOneFreeJob(db: Db, k: nat, jobData: JobDoc, newId: Id)
    requires k < |db.plans| && !Exhausted(db.plans[k].freeJobs)
    ensures var db' := db.(freeJobs := db.freeJobs[newId := jobData],
                           plans := db.plans[k := db.plans[k].(freeJobs := Dec(db.plans[k].freeJobs))]);
      && db'.applied == db.applied && db'.jobs == db.jobs && db'.logs == db.logs
      && (newId !in db.freeJobs ==> |db'.freeJobs| == |db.freeJobs| + 1)
      && db'.freeJobs[newId] == jobData
      && (forall j :: j in db.freeJobs && j != newId ==> j in db'.freeJobs && db'.freeJobs[j] == db.freeJobs[j])
      && |db'.plans| == |db.plans|
      && (forall j :: 0 <= j < |db.plans| && j != k ==> db'.plans[j] == db.plans[j])
      && db'.plans[k].(freeJobs := db.plans[k].freeJobs) == db.plans[k]
      && (db.plans[k].freeJobs.Some? ==>
            db'.plans[k].freeJobs == Some(db.plans[k].freeJobs.value - 1) && db'.plans[k].freeJobs.value >= 0)
  {
  }
}

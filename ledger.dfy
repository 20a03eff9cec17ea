/**
 * The document store behind the job-board controllers, as a value.
 *
 * Every controller operation of the model takes a `Db` and returns the
 * status code it answers with and the `Db` it leaves behind.  The
 * collections keep the enumeration order of the store where the
 * controllers depend on it (plans, applications, notification logs);
 * the two job collections are maps from identifier to document.
 */
module Ledger {

  datatype Option<T> = None | Some(value: T)

  /** A reply of a read-only endpoint: the HTTP status and the body it carries. */
  datatype Reply<T> = Reply(status: int, body: T)

  /** Document identifiers (ObjectIds) are compared as strings. */
  type Id = string

  /** A textual field of a request body or path; `None` is an absent field. */
  type Field = Option<string>

  /** JavaScript truthiness of a textual field (`!field` is false): present and not empty. */
  predicate Given(f: Field)
  {
    f.Some? && f.value != ""
  }

  /**
   * A JSON value of a request body.  `Composite` stands for any array or
   * object; numbers are integers (NaN and fractions are not modelled).
   */
  datatype JsValue = Undefined | Null | Bool(b: bool) | Num(n: int) | Str(s: string) | Composite

  /** JavaScript truthiness: `undefined`, `null`, `false`, `0` and `''` are falsy. */
  predicate Truthy(v: JsValue)
  {
    match v
    case Undefined => false
    case Null => false
    case Bool(b) => b
    case Num(n) => n != 0
    case Str(s) => s != ""
    case Composite => true
  }

  /** A job document: its fields by name, as posted. */
  type JobDoc = map<string, JsValue>

  /** Reading a field of a document; an absent field reads as `undefined`. */
  function Get(doc: JobDoc, name: string): JsValue
  {
    if name in doc then doc[name] else Undefined
  }

  // ---------------------------------------------------------------------
  // Plan counters
  // ---------------------------------------------------------------------

  /**
   * A numeric counter of a plan document.  `None` is a counter that is
   * missing (`undefined`) or has become NaN: both are falsy, both compare
   * false with any number, and `+= 1` / `-= 1` leave them NaN.
   */
  type Counter = Option<int>

  /** `counter || 0`: the balance the plan selection reads. */
  function Credits(c: Counter): int
  {
    if c.Some? then c.value else 0
  }

  /** `counter <= 0`, which is false for a missing or NaN counter. */
  predicate Exhausted(c: Counter)
  {
    c.Some? && c.value <= 0
  }

  /** `counter -= 1`. */
  function Dec(c: Counter): Counter
  {
    if c.Some? then Some(c.value - 1) else None
  }

  /** `counter += 1`. */
  function Inc(c: Counter): Counter
  {
    if c.Some? then Some(c.value + 1) else None
  }

  /**
   * A subscription plan.  `applyPaidJobs` and `applyFreeJobs` are the
   * application credits a candidate spends; `freeJobs` is the number of free
   * job posts an employer may still publish.  Dates are milliseconds.
   */
  datatype Plan = Plan(
    id: Id,
    userId: Id,
    startDate: int,
    endDate: int,
    applyPaidJobs: Counter,
    applyFreeJobs: Counter,
    freeJobs: Counter)

  /** Which of the two job collections answered a lookup. */
  datatype JobClass = Paid | Free

  function Other(c: JobClass): JobClass
  {
    if c == Paid then Free else Paid
  }

  /** The application counter of `p` that a job of class `c` spends. */
  function Relevant(p: Plan, c: JobClass): Counter
  {
    if c == Paid then p.applyPaidJobs else p.applyFreeJobs
  }

  /**
   * `after` is `before` with the application counter for `c` moved by
   * `delta` (an unset counter stays unset) and every other field, the other
   * counter included, unchanged.
   */
  predicate MovedBy(before: Plan, after: Plan, c: JobClass, delta: int)
  {
    && Relevant(after, c) == (if Relevant(before, c).Some? then Some(Relevant(before, c).value + delta) else None)
    && Relevant(after, Other(c)) == Relevant(before, Other(c))
    && after.freeJobs == before.freeJobs
    && after.id == before.id
    && after.userId == before.userId
    && after.startDate == before.startDate
    && after.endDate == before.endDate
  }

  /** Spending one application credit of class `c`. */
  function Debit(p: Plan, c: JobClass): (r: Plan)
    ensures MovedBy(p, r, c, -1)
  {
    match c
    case Paid => p.(applyPaidJobs := Dec(p.applyPaidJobs))
    case Free => p.(applyFreeJobs := Dec(p.applyFreeJobs))
  }

  /** Giving one application credit of class `c` back. */
  function Refund(p: Plan, c: JobClass): (r: Plan)
    ensures MovedBy(p, r, c, 1)
  {
    match c
    case Paid => p.(applyPaidJobs := Inc(p.applyPaidJobs))
    case Free => p.(applyFreeJobs := Inc(p.applyFreeJobs))
  }

  /** Refunding a credit restores the plan as it was before the credit was spent. */
  lemma RefundUndoesDebit(p: Plan, c: JobClass)
    ensures Refund(Debit(p, c), c) == p
  {
  }

  // ---------------------------------------------------------------------
  // Documents
  // ---------------------------------------------------------------------

  /**
   * An application of a candidate to a job post.  `status` is the version
   * field the shortlist transition writes: 0 pending, 1 shortlisted,
   * -1 unshortlisted.
   */
  datatype AppliedJob = AppliedJob(
    id: Id,
    userId: Id,
    postId: Id,
    planId: Option<Id>,
    seen: bool,
    status: int,
    timestamp: int)

  datatype User = User(name: string, email: string)

  datatype Interview = Interview(
    postId: Id,
    userId: Id,
    employeeId: Id,
    meetDetails: string,
    interviewTimestamp: int)

  /** Whether the holder of `email` has read a notification. */
  datatype EmailStatus = EmailStatus(email: string, read: bool)

  datatype NotificationLog = NotificationLog(
    id: Id,
    userIds: seq<Id>,
    jobId: Option<Id>,
    interviewId: Option<Id>,
    notificationType: string,
    timestamp: int,
    emails: seq<string>,
    emailStatus: seq<EmailStatus>)

  /** The whole store. */
  datatype Db = Db(
    plans: seq<Plan>,
    jobs: map<Id, JobDoc>,
    freeJobs: map<Id, JobDoc>,
    applied: seq<AppliedJob>,
    users: map<Id, User>,
    interviews: map<Id, Interview>,
    logs: seq<NotificationLog>)

  /** No application has identifier `id` yet, as for one the store has just generated. */
  predicate FreshAppId(db: Db, id: Id)
  {
    forall i :: 0 <= i < |db.applied| ==> db.applied[i].id != id
  }

  /** No notification log has identifier `id` yet. */
  predicate FreshLogId(db: Db, id: Id)
  {
    forall i :: 0 <= i < |db.logs| ==> db.logs[i].id != id
  }

  /**
   * Job lookup: the paid collection is asked first, the free collection only
   * when the paid one does not know the identifier.
   */
  function Classify(db: Db, postId: Id): Option<JobClass>
  {
    if postId in db.jobs then Some(Paid)
    else if postId in db.freeJobs then Some(Free)
    else None
  }

  /** Matches the plan with identifier `id`; `findById` takes the first match. */
  function HasPlanId(id: Id): Plan -> bool
  {
    (p: Plan) => p.id == id
  }

  /** No two plans share an identifier, as the store guarantees. */
  predicate UniquePlanIds(plans: seq<Plan>)
  {
    forall i, j :: 0 <= i < j < |plans| ==> plans[i].id != plans[j].id
  }

  // ---------------------------------------------------------------------
  // Queries over ordered collections
  // ---------------------------------------------------------------------

  /** The index of the first element satisfying `f` (`findOne`, `Array.find`). */
  function FindFirst<T>(s: seq<T>, f: T -> bool): (r: Option<nat>)
    ensures r.Some? ==> r.value < |s| && f(s[r.value]) && forall j :: 0 <= j < r.value ==> !f(s[j])
    ensures r.None? ==> forall j :: 0 <= j < |s| ==> !f(s[j])
  {
    if |s| == 0 then None
    else if f(s[0]) then Some(0)
    else match FindFirst(s[1..], f)
      case None => None
      case Some(k) => Some(k + 1)
  }

  /** Replacing an element by one that `f` judges alike does not move the first match. */
  lemma {:induction false} FindFirstUpdate<T>(s: seq<T>, k: nat, x: T, f: T -> bool)
    requires k < |s| && f(x) == f(s[k])
    ensures FindFirst(s[k := x], f) == FindFirst(s, f)
  {
    if k > 0 {
      assert s[k := x][1..] == s[1..][k - 1 := x];
      FindFirstUpdate(s[1..], k - 1, x, f);
    }
  }

  /** After an append, the first match is the old one, or the new element if there was none. */
  lemma {:induction false} FindFirstAppend<T>(s: seq<T>, x: T, f: T -> bool)
    ensures FindFirst(s + [x], f) == if FindFirst(s, f).Some? then FindFirst(s, f) else if f(x) then Some(|s|) else None
  {
    if |s| > 0 {
      assert (s + [x])[1..] == s[1..] + [x];
      FindFirstAppend(s[1..], x, f);
    }
  }

  /** Removing the element at index `k`. */
  function Remove<T>(s: seq<T>, k: nat): (r: seq<T>)
    requires k < |s|
    ensures |r| == |s| - 1
    ensures forall j :: 0 <= j < k ==> r[j] == s[j]
    ensures forall j :: k <= j < |r| ==> r[j] == s[j + 1]
  {
    s[..k] + s[k + 1..]
  }

  /** The number of elements satisfying `f` (`countDocuments`, `find().length`). */
  function Count<T>(s: seq<T>, f: T -> bool): nat
  {
    if |s| == 0 then 0 else (if f(s[0]) then 1 else 0) + Count(s[1..], f)
  }

  /** The elements satisfying `f`, in order (`find` with a filter, `Array.filter`). */
  function Filter<T(!new)>(s: seq<T>, f: T -> bool): (r: seq<T>)
    ensures |r| == Count(s, f)
    ensures forall x :: x in r <==> x in s && f(x)
  {
    if |s| == 0 then []
    else if f(s[0]) then [s[0]] + Filter(s[1..], f)
    else Filter(s[1..], f)
  }

  /** `Array.map`. */
  function MapSeq<T, U>(s: seq<T>, g: T -> U): (r: seq<U>)
    ensures |r| == |s|
    ensures forall i :: 0 <= i < |s| ==> r[i] == g(s[i])
  {
    if |s| == 0 then [] else [g(s[0])] + MapSeq(s[1..], g)
  }

  /** An element is in a mapped sequence exactly when it is the image of an element. */
  lemma MapSeqMembership<T(!new), U(!new)>(s: seq<T>, g: T -> U)
    ensures forall u :: u in MapSeq(s, g) <==> exists x :: x in s && u == g(x)
  {
    var r := MapSeq(s, g);
    forall u | u in r
      ensures exists x :: x in s && u == g(x)
    {
      var i :| 0 <= i < |r| && r[i] == u;
      assert s[i] in s && u == g(s[i]);
    }
    forall x | x in s
      ensures g(x) in r
    {
      var i :| 0 <= i < |s| && s[i] == x;
      assert r[i] == g(x);
    }
  }

  /** Counting within a filtered sequence is counting both conditions at once. */
  lemma {:induction false} CountFilter<T(!new)>(s: seq<T>, f: T -> bool, g: T -> bool, fg: T -> bool)
    requires forall x :: fg(x) == (f(x) && g(x))
    ensures Count(Filter(s, f), g) == Count(s, fg)
  {
    if |s| > 0 {
      CountFilter(s[1..], f, g, fg);
      if f(s[0]) {
        assert ([s[0]] + Filter(s[1..], f))[1..] == Filter(s[1..], f);
      }
    }
  }

  /** Filtering keeps order: it distributes over concatenation. */
  lemma {:induction false} FilterAppend<T(!new)>(s: seq<T>, t: seq<T>, f: T -> bool)
    ensures Filter(s + t, f) == Filter(s, f) + Filter(t, f)
  {
    if |s| == 0 {
      assert s + t == t;
    } else {
      assert (s + t)[1..] == s[1..] + t;
      FilterAppend(s[1..], t, f);
    }
  }

  /** Mapping keeps order: it distributes over concatenation. */
  lemma {:induction false} MapSeqAppend<T, U>(s: seq<T>, t: seq<T>, g: T -> U)
    ensures MapSeq(s + t, g) == MapSeq(s, g) + MapSeq(t, g)
  {
    if |s| == 0 {
      assert s + t == t;
    } else {
      assert (s + t)[1..] == s[1..] + t;
      MapSeqAppend(s[1..], t, g);
    }
  }

  /** No element satisfies `f` exactly when none is counted. */
  lemma {:induction false} CountZero<T>(s: seq<T>, f: T -> bool)
    ensures Count(s, f) == 0 <==> forall j :: 0 <= j < |s| ==> !f(s[j])
  {
    if |s| > 0 {
      CountZero(s[1..], f);
      assert forall j :: 1 <= j < |s| ==> s[j] == s[1..][j - 1];
    }
  }

  /** Appending one element adds one to the count when it qualifies. */
  lemma {:induction false} CountAppend<T>(s: seq<T>, x: T, f: T -> bool)
    ensures Count(s + [x], f) == Count(s, f) + (if f(x) then 1 else 0)
  {
    if |s| > 0 {
      assert (s + [x])[1..] == s[1..] + [x];
      CountAppend(s[1..], x, f);
    }
  }

  /** Removing the element at `k` takes one from the count when it qualified. */
  lemma {:induction false} CountRemove<T>(s: seq<T>, k: nat, f: T -> bool)
    requires k < |s|
    ensures Count(Remove(s, k), f) == Count(s, f) - (if f(s[k]) then 1 else 0)
  {
    if k > 0 {
      assert Remove(s, k)[1..] == Remove(s[1..], k - 1);
      CountRemove(s[1..], k - 1, f);
    } else {
      assert Remove(s, k) == s[1..];
    }
  }

  /** Replacing the element at `k` changes the count by the change in that one element. */
  lemma {:induction false} CountUpdate<T>(s: seq<T>, k: nat, x: T, f: T -> bool)
    requires k < |s|
    ensures Count(s[k := x], f) == Count(s, f) - (if f(s[k]) then 1 else 0) + (if f(x) then 1 else 0)
  {
    if k > 0 {
      assert s[k := x][1..] == s[1..][k - 1 := x];
      CountUpdate(s[1..], k - 1, x, f);
    }
  }

  /** The positions of the elements satisfying `f`: what `countDocuments` with that filter counts. */
  function Indices<T>(s: seq<T>, f: T -> bool): set<int>
  {
    set i | 0 <= i < |s| && f(s[i])
  }

  /** Counting the matching elements gives the number of matching positions. */
  lemma {:induction false} CountIndices<T>(s: seq<T>, f: T -> bool)
    ensures Count(s, f) == |Indices(s, f)|
  {
    if |s| > 0 {
      var init, x := s[..|s| - 1], s[|s| - 1];
      assert s == init + [x];
      CountIndices(init, f);
      CountAppend(init, x, f);
      assert forall i :: 0 <= i < |init| ==> s[i] == init[i];
      if f(x) {
        assert Indices(s, f) == Indices(init, f) + {|init|};
      } else {
        assert Indices(s, f) == Indices(init, f);
      }
    }
  }
}

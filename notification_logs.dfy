/**
 * Notification logs of controllers/notificationLogController.js: marking
 * one recipient's entry read, and the candidate and employer feeds built
 * from the logs and the applications.
 *
 * The feeds' `messages` part reads a message collection that is not part of
 * this model, and `populate` is not modelled: a feed carries the referenced
 * identifiers themselves.
 */
module NotificationLogs {
  import opened Ledger

  /** The interview log types both feeds list. */
  const InterviewTypes: set<string> := {"interview", "interviewUpdated", "interviewCancelled"}

  /** `NotificationLog.findById(id)`. */
  function HasLogId(id: Id): NotificationLog -> bool
  {
    (l: NotificationLog) => l.id == id
  }

  /** `item.email === email`. */
  function HasEmail(email: string): EmailStatus -> bool
  {
    (es: EmailStatus) => es.email == email
  }

  /** `emailStatus.read = true` on the entry at index `e`. */
  function MarkRead(l: NotificationLog, e: nat): (r: NotificationLog)
    requires e < |l.emailStatus|
    ensures r.(emailStatus := l.emailStatus) == l
    ensures |r.emailStatus| == |l.emailStatus|
    ensures r.emailStatus[e] == EmailStatus(l.emailStatus[e].email, true)
    ensures forall j :: 0 <= j < |l.emailStatus| && j != e ==> r.emailStatus[j] == l.emailStatus[j]
  {
    l.(emailStatus := l.emailStatus[e := l.emailStatus[e].(read := true)])
  }

  /**
   * updateNotificationReadStatus: the first entry of the log that carries
   * `email` becomes read; the email is checked before the identifier's
   * format, and every failure leaves the store as it was.
   */
  method UpdateNotificationReadStatus(db: Db, isValid: Id -> bool, id: Id, email: Field)
    returns (status: int, db': Db)
    ensures status == 200 || status == 400 || status == 404
    ensures !Given(email) ==> status == 400 && db' == db
    ensures Given(email) && !isValid(id) ==> status == 400 && db' == db
    ensures Given(email) && isValid(id) ==>
      var r := FindFirst(db.logs, HasLogId(id));
      && (r.None? ==> status == 404 && db' == db)
      && (r.Some? ==>
            var e := FindFirst(db.logs[r.value].emailStatus, HasEmail(email.value));
            && (e.None? ==> status == 404 && db' == db)
            && (e.Some? ==>
                  status == 200 && db' == db.(logs := db.logs[r.value := MarkRead(db.logs[r.value], e.value)])))
    ensures status == 200 ==> |db'.logs| == |db.logs| && db'.applied == db.applied && db'.plans == db.plans
  {
    if !Given(email) {
      return 400, db;
    }
    if !isValid(id) {
      return 400, db;
    }
    var r := FindFirst(db.logs, HasLogId(id));
    if r.None? {
      return 404, db;
    }
    var notification := db.logs[r.value];
    var e := 0;
    while e < |notification.emailStatus| && notification.emailStatus[e].email != email.value
      invariant 0 <= e <= |notification.emailStatus|
      invariant forall j :: 0 <= j < e ==> !HasEmail(email.value)(notification.emailStatus[j])
    {
      e := e + 1;
    }
    if e == |notification.emailStatus| {
      return 404, db;
    }
    assert FindFirst(notification.emailStatus, HasEmail(email.value)) == Some(e);
    var entries := notification.emailStatus;
    entries := entries[e := entries[e].(read := true)];
    status, db' := 200, db.(logs := db.logs[r.value := notification.(emailStatus := entries)]);
  }

  /** Marking the same entry read twice answers the same and changes nothing more. */
  method RepeatUpdateNotificationReadStatus(db: Db, isValid: Id -> bool, id: Id, email: Field)
    returns (first: int, second: int, db1: Db, db2: Db)
    ensures second == first && db2 == db1
  {
    first, db1 := UpdateNotificationReadStatus(db, isValid, id, email);
    if first == 200 {
      var k := FindFirst(db.logs, HasLogId(id)).value;
      var l := db.logs[k];
      var e := FindFirst(l.emailStatus, HasEmail(email.value)).value;
      FindFirstUpdate(db.logs, k, MarkRead(l, e), HasLogId(id));
      FindFirstUpdate(l.emailStatus, e, l.emailStatus[e].(read := true), HasEmail(email.value));
      assert MarkRead(MarkRead(l, e), e) == MarkRead(l, e);
    }
    second, db2 := UpdateNotificationReadStatus(db1, isValid, id, email);
  }

  // ---------------------------------------------------------------------
  // Candidate feed
  // ---------------------------------------------------------------------

  /**
   * The candidate query `{ "emailStatus.email": email, "emailStatus.read": false }`:
   * some entry carries the email and some entry, not necessarily the same
   * one, is unread.
   */
  predicate SelectedFor(l: NotificationLog, email: string)
  {
    && (exists i :: 0 <= i < |l.emailStatus| && l.emailStatus[i].email == email)
    && (exists j :: 0 <= j < |l.emailStatus| && !l.emailStatus[j].read)
  }

  function SelectsFor(email: string): NotificationLog -> bool
  {
    (l: NotificationLog) => SelectedFor(l, email)
  }

  function IsJobLog(l: NotificationLog): bool
  {
    l.notificationType == "job"
  }

  function IsInterviewLog(l: NotificationLog): bool
  {
    l.notificationType in InterviewTypes
  }

  /** What a feed shows of an interview log. */
  datatype InterviewNote = InterviewNote(interviewId: Option<Id>, jobId: Option<Id>, notificationType: string, time: int)

  function NoteOf(l: NotificationLog): InterviewNote
  {
    InterviewNote(l.interviewId, l.jobId, l.notificationType, l.timestamp)
  }

  function JobIdOf(l: NotificationLog): Option<Id>
  {
    l.jobId
  }

  datatype CandidateFeed = CandidateFeed(jobs: seq<Option<Id>>, interviews: seq<InterviewNote>)

  /**
   * getCandidateNotifications without its messages part: the jobs of the
   * selected `job` logs and the selected interview logs, in log order.
   */
  function CandidateNotifications(db: Db, isValid: Id -> bool, id: Id): (r: Reply<CandidateFeed>)
    ensures !isValid(id) ==> r.status == 400
    ensures isValid(id) && id !in db.users ==> r.status == 404
    ensures isValid(id) && id in db.users ==>
      var email := db.users[id].email;
      && r.status == 200
      && (forall j :: j in r.body.jobs <==>
            exists l :: l in db.logs && SelectedFor(l, email) && l.notificationType == "job" && j == l.jobId)
      && (forall n :: n in r.body.interviews <==>
            exists l :: l in db.logs && SelectedFor(l, email) && l.notificationType in InterviewTypes && n == NoteOf(l))
      && |r.body.jobs| == Count(Filter(db.logs, SelectsFor(email)), IsJobLog)
      && |r.body.interviews| == Count(Filter(db.logs, SelectsFor(email)), IsInterviewLog)
  {
    if !isValid(id) then Reply(400, CandidateFeed([], []))
    else if id !in db.users then Reply(404, CandidateFeed([], []))
    else
      var email := db.users[id].email;
      MapSeqMembership(Filter(Filter(db.logs, SelectsFor(email)), IsJobLog), JobIdOf);
      MapSeqMembership(Filter(Filter(db.logs, SelectsFor(email)), IsInterviewLog), NoteOf);
      Reply(200, CandidateFeed(Listed(db.logs, email, IsJobLog, JobIdOf), Listed(db.logs, email, IsInterviewLog, NoteOf)))
  }

  /** The selected logs of one kind, in store order, each shown through `g`. */
  function Listed<U>(logs: seq<NotificationLog>, email: string, kind: NotificationLog -> bool, g: NotificationLog -> U): seq<U>
  {
    MapSeq(Filter(Filter(logs, SelectsFor(email)), kind), g)
  }

  /** Appending a log extends a list of the feed at its end, when the log belongs to it. */
  lemma ListedAppend<U>(logs: seq<NotificationLog>, email: string, kind: NotificationLog -> bool, g: NotificationLog -> U, l: NotificationLog)
    ensures Listed(logs + [l], email, kind, g) == Listed(logs, email, kind, g) + (if SelectedFor(l, email) && kind(l) then [g(l)] else [])
  {
    var sel := SelectsFor(email);
    var a, b := Filter(logs, sel), Filter([l], sel);
    FilterAppend(logs, [l], sel);
    FilterAppend(a, b, kind);
    MapSeqAppend(Filter(a, kind), Filter(b, kind), g);
  }

  /**
   * The feed keeps the order of the logs: a log appended to the store lands
   * at the end of the list its type belongs to, when it is selected, and
   * leaves both lists as they were otherwise.
   */
  lemma CandidateFeedAppend(db: Db, isValid: Id -> bool, id: Id, l: NotificationLog)
    requires isValid(id) && id in db.users
    ensures var email := db.users[id].email;
      var before := CandidateNotifications(db, isValid, id).body;
      var after := CandidateNotifications(db.(logs := db.logs + [l]), isValid, id).body;
      && after.jobs == before.jobs + (if SelectedFor(l, email) && IsJobLog(l) then [l.jobId] else [])
      && after.interviews == before.interviews + (if SelectedFor(l, email) && IsInterviewLog(l) then [NoteOf(l)] else [])
  {
    ListedAppend(db.logs, db.users[id].email, IsJobLog, JobIdOf, l);
    ListedAppend(db.logs, db.users[id].email, IsInterviewLog, NoteOf, l);
  }

  /**
   * The selection ignores who read: marking one entry read keeps the log
   * listed for `email` exactly when some other entry is still unread.
   */
  lemma SelectionAfterRead(l: NotificationLog, e: nat, email: string)
    requires e < |l.emailStatus|
    requires exists i :: 0 <= i < |l.emailStatus| && l.emailStatus[i].email == email
    ensures SelectedFor(MarkRead(l, e), email) <==>
      exists j :: 0 <= j < |l.emailStatus| && j != e && !l.emailStatus[j].read
  {
    var r := MarkRead(l, e);
    var i :| 0 <= i < |l.emailStatus| && l.emailStatus[i].email == email;
    assert r.emailStatus[i].email == email;
    if exists j :: 0 <= j < |l.emailStatus| && j != e && !l.emailStatus[j].read {
      var j :| 0 <= j < |l.emailStatus| && j != e && !l.emailStatus[j].read;
      assert !r.emailStatus[j].read;
    }
  }

  // ---------------------------------------------------------------------
  // Employer feed
  // ---------------------------------------------------------------------

  /** The paid and the free jobs an employer posted. */
  function OwnedJobIds(db: Db, employer: Id): set<Id>
  {
    (set j | j in db.jobs && Get(db.jobs[j], "user_id") == Str(employer))
    + (set j | j in db.freeJobs && Get(db.freeJobs[j], "user_id") == Str(employer))
  }

  /** `AppliedJob.find({ post_id: { $in: jobIds }, seen: false })`. */
  function Unseen(posts: set<Id>): AppliedJob -> bool
  {
    (a: AppliedJob) => a.postId in posts && !a.seen
  }

  /** The applicant and the job of the application can both be found. */
  function Resolvable(users: map<Id, User>, jobs: map<Id, JobDoc>, freeJobs: map<Id, JobDoc>): AppliedJob -> bool
  {
    (a: AppliedJob) => a.userId in users && (a.postId in jobs || a.postId in freeJobs)
  }

  /** An application the employer of `posts` is notified of. */
  function Notifies(users: map<Id, User>, jobs: map<Id, JobDoc>, freeJobs: map<Id, JobDoc>, posts: set<Id>): AppliedJob -> bool
  {
    (a: AppliedJob) => Unseen(posts)(a) && Resolvable(users, jobs, freeJobs)(a)
  }

  /** What the employer feed shows of an application. */
  datatype AppliedNote = AppliedNote(appliedJobId: Id, appliedUserId: Id, userName: string, userEmail: string, postId: Id)

  function AppliedNoteOf(a: AppliedJob, u: User): AppliedNote
  {
    AppliedNote(a.id, a.userId, u.name, u.email, a.postId)
  }

  /** The mapping step with its `null` results filtered out: applications whose user or job is gone are dropped. */
  function AppliedNotes(users: map<Id, User>, jobs: map<Id, JobDoc>, freeJobs: map<Id, JobDoc>, apps: seq<AppliedJob>): (r: seq<AppliedNote>)
    ensures |r| == Count(apps, Resolvable(users, jobs, freeJobs))
    ensures forall n :: n in r <==>
      exists a :: a in apps && Resolvable(users, jobs, freeJobs)(a) && n == AppliedNoteOf(a, users[a.userId])
  {
    if |apps| == 0 then []
    else
      var a := apps[0];
      var rest := AppliedNotes(users, jobs, freeJobs, apps[1..]);
      assert forall x :: x in apps <==> x == a || x in apps[1..];
      if a.userId !in users then rest
      else if a.postId !in jobs && a.postId !in freeJobs then rest
      else [AppliedNoteOf(a, users[a.userId])] + rest
  }

  /** The employer query: a log naming the employer, of an interview type, with some entry unread. */
  function InterviewLogFor(employer: Id): NotificationLog -> bool
  {
    (l: NotificationLog) =>
      && employer in l.userIds
      && l.notificationType in InterviewTypes
      && exists j :: 0 <= j < |l.emailStatus| && !l.emailStatus[j].read
  }

  datatype EmployerFeed = EmployerFeed(jobs: set<Id>, appliedJobs: seq<AppliedNote>, interviews: seq<InterviewNote>)

  /**
   * getEmployerNotifications without its messages part: the employer's
   * jobs, the unseen applications to them, and the unread interview logs
   * that name the employer.
   */
  function EmployerNotifications(db: Db, isValid: Id -> bool, id: Id): (r: Reply<EmployerFeed>)
    ensures !isValid(id) ==> r.status == 400
    ensures isValid(id) ==>
      var posts := OwnedJobIds(db, id);
      && r.status == 200
      && (forall j :: j in r.body.jobs <==>
            || (j in db.jobs && Get(db.jobs[j], "user_id") == Str(id))
            || (j in db.freeJobs && Get(db.freeJobs[j], "user_id") == Str(id)))
      && (forall n :: n in r.body.appliedJobs <==>
            exists a :: a in db.applied && a.postId in posts && !a.seen && a.userId in db.users
                     && n == AppliedNoteOf(a, db.users[a.userId]))
      && |r.body.appliedJobs| == Count(db.applied, Notifies(db.users, db.jobs, db.freeJobs, posts))
      && (forall n :: n in r.body.interviews <==>
            exists l :: l in db.logs && id in l.userIds && l.notificationType in InterviewTypes
                     && (exists j :: 0 <= j < |l.emailStatus| && !l.emailStatus[j].read)
                     && n == NoteOf(l))
  {
    if !isValid(id) then Reply(400, EmployerFeed({}, [], []))
    else
      var posts := OwnedJobIds(db, id);
      var unseen := Filter(db.applied, Unseen(posts));
      var interviewLogs := Filter(db.logs, InterviewLogFor(id));
      CountFilter(db.applied, Unseen(posts), Resolvable(db.users, db.jobs, db.freeJobs), Notifies(db.users, db.jobs, db.freeJobs, posts));
      MapSeqMembership(interviewLogs, NoteOf);
      Reply(200, EmployerFeed(posts, AppliedNotes(db.users, db.jobs, db.freeJobs, unseen), MapSeq(interviewLogs, NoteOf)))
  }

  /** The employer's interview list keeps the order of the logs in the same way. */
  lemma EmployerFeedAppend(db: Db, isValid: Id -> bool, id: Id, l: NotificationLog)
    requires isValid(id)
    ensures var before := EmployerNotifications(db, isValid, id).body;
      var after := EmployerNotifications(db.(logs := db.logs + [l]), isValid, id).body;
      && after.interviews == before.interviews + (if InterviewLogFor(id)(l) then [NoteOf(l)] else [])
      && after.appliedJobs == before.appliedJobs
      && after.jobs == before.jobs
  {
    FilterAppend(db.logs, [l], InterviewLogFor(id));
    MapSeqAppend(Filter(db.logs, InterviewLogFor(id)), Filter([l], InterviewLogFor(id)), NoteOf);
  }

  /**
   * Marking an application seen takes it out of its employer's feed: the
   * unseen-application list shrinks by one exactly when that application
   * was listed, and nothing else in the feed changes.
   */
  lemma SeenLeavesEmployerFeed(db: Db, isValid: Id -> bool, id: Id, k: nat)
    requires isValid(id) && k < |db.applied|
    ensures var db' := db.(applied := db.applied[k := db.applied[k].(seen := true)]);
      && |EmployerNotifications(db', isValid, id).body.appliedJobs|
         == |EmployerNotifications(db, isValid, id).body.appliedJobs|
            - (if Notifies(db.users, db.jobs, db.freeJobs, OwnedJobIds(db, id))(db.applied[k]) then 1 else 0)
      && EmployerNotifications(db', isValid, id).body.interviews == EmployerNotifications(db, isValid, id).body.interviews
      && EmployerNotifications(db', isValid, id).body.jobs == EmployerNotifications(db, isValid, id).body.jobs
  {
    var db' := db.(applied := db.applied[k := db.applied[k].(seen := true)]);
    assert OwnedJobIds(db', id) == OwnedJobIds(db, id);
    CountUpdate(db.applied, k, db.applied[k].(seen := true), Notifies(db.users, db.jobs, db.freeJobs, OwnedJobIds(db, id)));
  }
}

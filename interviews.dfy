/**
 * Interview scheduling of controllers/interviewController.js: creating,
 * rescheduling and cancelling an interview, each of which appends a
 * notification log addressed to the candidate and the employer.
 *
 * The e-mails and the push message sent alongside never change the store
 * and are not modelled.  Identifiers the store generates and the clock are
 * parameters (`interviewId`, `logId`, `now`).
 */
module Interviews {
  import opened Ledger
  import opened NotificationLogs

  /**
   * sendNotificationLog: a log addressed to `userIds`, with one unread
   * entry per e-mail address, in order.
   */
  function NewNotificationLog(
    logId: Id, userIds: seq<Id>, jobId: Id, interviewId: Id, kind: string, emails: seq<string>, now: int): (l: NotificationLog)
    ensures l.id == logId && l.userIds == userIds && l.jobId == Some(jobId) && l.interviewId == Some(interviewId)
    ensures l.notificationType == kind && l.timestamp == now && l.emails == emails
    ensures |l.emailStatus| == |emails|
    ensures forall i :: 0 <= i < |emails| ==> l.emailStatus[i] == EmailStatus(emails[i], false)
  {
    NotificationLog(logId, userIds, Some(jobId), Some(interviewId), kind, now, emails,
                    MapSeq(emails, (e: string) => EmailStatus(e, false)))
  }

  /**
   * A fresh log reaches everyone it is addressed to: the candidate feed of
   * every recipient address selects it, and for an interview type the
   * employer feed of every addressed user does.
   */
  lemma NewLogReachesRecipients(
    logId: Id, userIds: seq<Id>, jobId: Id, interviewId: Id, kind: string, emails: seq<string>, now: int)
    ensures var l := NewNotificationLog(logId, userIds, jobId, interviewId, kind, emails, now);
      && (forall e :: e in emails ==> SelectedFor(l, e))
      && (kind in InterviewTypes && |emails| > 0 ==> forall u :: u in userIds ==> InterviewLogFor(u)(l))
  {
    var l := NewNotificationLog(logId, userIds, jobId, interviewId, kind, emails, now);
    forall e | e in emails
      ensures SelectedFor(l, e)
    {
      var i :| 0 <= i < |emails| && emails[i] == e;
      assert l.emailStatus[i].email == e && !l.emailStatus[i].read;
    }
    if |emails| > 0 {
      assert !l.emailStatus[0].read;
    }
  }

  /** The log written for a meeting between `iv.userId` (candidate) and `iv.employeeId` (employer). */
  function MeetingLog(db: Db, logId: Id, iv: Interview, interviewId: Id, kind: string, now: int): NotificationLog
    requires iv.userId in db.users && iv.employeeId in db.users
  {
    NewNotificationLog(logId, [iv.userId, iv.employeeId], iv.postId, interviewId, kind,
                       [db.users[iv.userId].email, db.users[iv.employeeId].email], now)
  }

  /** Both participants of a meeting log find it in their feeds. */
  lemma MeetingLogReachesParticipants(db: Db, logId: Id, iv: Interview, interviewId: Id, kind: string, now: int)
    requires iv.userId in db.users && iv.employeeId in db.users
    ensures var l := MeetingLog(db, logId, iv, interviewId, kind, now);
      && SelectedFor(l, db.users[iv.userId].email)
      && SelectedFor(l, db.users[iv.employeeId].email)
      && (kind in InterviewTypes ==> InterviewLogFor(iv.userId)(l) && InterviewLogFor(iv.employeeId)(l))
  {
    NewLogReachesRecipients(logId, [iv.userId, iv.employeeId], iv.postId, interviewId, kind,
                            [db.users[iv.userId].email, db.users[iv.employeeId].email], now);
  }

  /**
   * createInterview: the job must exist in either collection and both the
   * candidate and the employer must be users; then the interview is saved
   * and an `interview` log is appended.
   */
  method CreateInterview(
    db: Db, postId: Id, userId: Id, employeeId: Id, meetDetails: string, interviewTimestamp: int,
    interviewId: Id, logId: Id, now: int)
    returns (status: int, db': Db)
    requires interviewId !in db.interviews && FreshLogId(db, logId)
    ensures status == 201 || status == 404
    ensures Classify(db, postId).None? ==> status == 404 && db' == db
    ensures Classify(db, postId).Some? && (userId !in db.users || employeeId !in db.users) ==>
      status == 404 && db' == db
    ensures Classify(db, postId).Some? && userId in db.users && employeeId in db.users ==> status == 201
    ensures status == 201 ==>
      && Classify(db, postId).Some? && userId in db.users && employeeId in db.users
      && var iv := Interview(postId, userId, employeeId, meetDetails, interviewTimestamp);
      && db' == db.(interviews := db.interviews[interviewId := iv],
                    logs := db.logs + [MeetingLog(db, logId, iv, interviewId, "interview", now)])
      && SelectedFor(db'.logs[|db.logs|], db.users[userId].email)
      && SelectedFor(db'.logs[|db.logs|], db.users[employeeId].email)
      && InterviewLogFor(employeeId)(db'.logs[|db.logs|])
  {
    var job := Classify(db, postId);
    if job.None? {
      return 404, db;
    }
    if userId !in db.users || employeeId !in db.users {
      return 404, db;
    }
    var iv := Interview(postId, userId, employeeId, meetDetails, interviewTimestamp);
    var log := MeetingLog(db, logId, iv, interviewId, "interview", now);
    MeetingLogReachesParticipants(db, logId, iv, interviewId, "interview", now);
    status, db' := 201, db.(interviews := db.interviews[interviewId := iv], logs := db.logs + [log]);
  }

  /**
   * updateInterview: the meeting details and time are written first; the
   * `interviewUpdated` log is appended only when both participants are
   * still users, and otherwise the answer is 404 with the update kept.
   */
  method UpdateInterview(db: Db, interviewId: Id, meetDetails: string, interviewTimestamp: int, logId: Id, now: int)
    returns (status: int, db': Db)
    requires FreshLogId(db, logId)
    ensures status == 200 || status == 404
    ensures interviewId !in db.interviews ==> status == 404 && db' == db
    ensures interviewId in db.interviews ==>
      var iv := db.interviews[interviewId].(meetDetails := meetDetails, interviewTimestamp := interviewTimestamp);
      var updated := db.(interviews := db.interviews[interviewId := iv]);
      && (iv.userId !in db.users || iv.employeeId !in db.users ==> status == 404 && db' == updated)
      && (iv.userId in db.users && iv.employeeId in db.users ==>
            && status == 200
            && db' == updated.(logs := db.logs + [MeetingLog(db, logId, iv, interviewId, "interviewUpdated", now)])
            && SelectedFor(db'.logs[|db.logs|], db.users[iv.userId].email)
            && InterviewLogFor(iv.employeeId)(db'.logs[|db.logs|]))
    ensures db'.logs[..|db.logs|] == db.logs && db'.plans == db.plans && db'.applied == db.applied
  {
    if interviewId !in db.interviews {
      return 404, db;
    }
    var iv := db.interviews[interviewId].(meetDetails := meetDetails, interviewTimestamp := interviewTimestamp);
    var updated := db.(interviews := db.interviews[interviewId := iv]);
    if iv.userId !in db.users || iv.employeeId !in db.users {
      return 404, updated;
    }
    MeetingLogReachesParticipants(db, logId, iv, interviewId, "interviewUpdated", now);
    status := 200;
    db' := updated.(logs := db.logs + [MeetingLog(db, logId, iv, interviewId, "interviewUpdated", now)]);
  }

  /**
   * deleteInterview: the interview is removed; the `interviewCancelled` log
   * is appended only when both participants are still users, and the
   * answer is 200 either way.
   */
  method DeleteInterview(db: Db, interviewId: Id, logId: Id, now: int) returns (status: int, db': Db)
    requires FreshLogId(db, logId)
    ensures status == 200 || status == 404
    ensures interviewId !in db.interviews ==> status == 404 && db' == db
    ensures interviewId in db.interviews ==>
      var iv := db.interviews[interviewId];
      var removed := db.(interviews := db.interviews - {interviewId});
      && status == 200
      && interviewId !in db'.interviews
      && (iv.userId !in db.users || iv.employeeId !in db.users ==> db' == removed)
      && (iv.userId in db.users && iv.employeeId in db.users ==>
            && db' == removed.(logs := db.logs + [MeetingLog(db, logId, iv, interviewId, "interviewCancelled", now)])
            && SelectedFor(db'.logs[|db.logs|], db.users[iv.userId].email)
            && InterviewLogFor(iv.employeeId)(db'.logs[|db.logs|]))
    ensures db'.logs[..|db.logs|] == db.logs && db'.plans == db.plans && db'.applied == db.applied
  {
    if interviewId !in db.interviews {
      return 404, db;
    }
    var iv := db.interviews[interviewId];
    var removed := db.(interviews := db.interviews - {interviewId});
    if iv.userId in db.users && iv.employeeId in db.users {
      MeetingLogReachesParticipants(db, logId, iv, interviewId, "interviewCancelled", now);
      status, db' := 200, removed.(logs := db.logs + [MeetingLog(db, logId, iv, interviewId, "interviewCancelled", now)]);
    } else {
      status, db' := 200, removed;
    }
  }

  /**
   * A meeting log of an interview type extends the feeds of both
   * participants at their end: the candidate feed of each participant's
   * address and the employer feed of each participant.
   */
  lemma MeetingLogExtendsFeeds(db: Db, isValid: Id -> bool, logId: Id, iv: Interview, interviewId: Id, kind: string, now: int)
    requires iv.userId in db.users && iv.employeeId in db.users && kind in InterviewTypes
    ensures var l := MeetingLog(db, logId, iv, interviewId, kind, now);
      var db' := db.(logs := db.logs + [l]);
      && (isValid(iv.userId) ==>
            CandidateNotifications(db', isValid, iv.userId).body.interviews
            == CandidateNotifications(db, isValid, iv.userId).body.interviews + [NoteOf(l)])
      && (isValid(iv.employeeId) ==>
            CandidateNotifications(db', isValid, iv.employeeId).body.interviews
            == CandidateNotifications(db, isValid, iv.employeeId).body.interviews + [NoteOf(l)])
      && (isValid(iv.userId) ==>
            EmployerNotifications(db', isValid, iv.userId).body.interviews
            == EmployerNotifications(db, isValid, iv.userId).body.interviews + [NoteOf(l)])
      && (isValid(iv.employeeId) ==>
            EmployerNotifications(db', isValid, iv.employeeId).body.interviews
            == EmployerNotifications(db, isValid, iv.employeeId).body.interviews + [NoteOf(l)])
  {
    var l := MeetingLog(db, logId, iv, interviewId, kind, now);
    MeetingLogReachesParticipants(db, logId, iv, interviewId, kind, now);
    if isValid(iv.userId) {
      CandidateFeedAppend(db, isValid, iv.userId, l);
      EmployerFeedAppend(db, isValid, iv.userId, l);
    }
    if isValid(iv.employeeId) {
      CandidateFeedAppend(db, isValid, iv.employeeId, l);
      EmployerFeedAppend(db, isValid, iv.employeeId, l);
    }
  }
}

/**
 * controller/requirementController.js: submitting a requirement, assigning
 * recruiters to one or many requirements, the open/closed flag, and the
 * list views of the requirement collection.
 */
module RequirementController {
  import opened Wrappers
  import opened Text
  import opened Clock
  import opened Seqs
  import opened Notify
  import opened RequirementSchema
  import opened Store

  /**
   * The fields of a submit request that decide the stored record. A missing
   * `priority` is "", a missing `workAuthorization` is []; `leadEmails`,
   * `recruiterAssignedTo` and `requirementStatus` keep their absence.
   */
  datatype RequirementBody = RequirementBody(
    title: string,
    description: string,
    leadEmails: Option<seq<string>>,
    recruiterAssignedTo: Option<seq<string>>,
    priority: string,
    workAuthorization: seq<string>,
    duration: string,
    requirementStatus: Option<string>)

  /** `title.replace(/\s+/g, "").substring(0, 10)` */
  function CleanTitle(title: string): (r: string)
    ensures |r| <= 10
    ensures forall i :: 0 <= i < |r| ==> !IsSpace(r[i])
  {
    var squeezed := RemoveSpaces(title);
    var r := Take(squeezed, 10);
    assert forall i :: 0 <= i < |r| ==> r[i] == squeezed[i];
    r
  }

  /** The custom id: the cleaned title, an underscore, and the local time as `HHMMSS`. */
  function RequirementId(title: string, now: Instant): (id: string)
    ensures |id| == |CleanTitle(title)| + 7
  {
    CleanTitle(title) + "_" + CompactTime(now)
  }

  /**
   * Two submissions get the same id exactly when their cleaned titles agree and
   * they fall in the same second of the day; the date plays no part.
   */
  lemma RequirementIdCollision(title1: string, now1: Instant, title2: string, now2: Instant)
    ensures RequirementId(title1, now1) == RequirementId(title2, now2) <==>
      CleanTitle(title1) == CleanTitle(title2)
      && now1.hour == now2.hour && now1.minute == now2.minute && now1.second == now2.second
  {
    StampedIdInjective(CleanTitle(title1), now1, CleanTitle(title2), now2);
  }

  predicate HasRecruiters(body: RequirementBody) {
    body.recruiterAssignedTo.Some? && |body.recruiterAssignedTo.value| > 0
  }

  /** What `Requirement.create` accepts from a submission, path by path. */
  predicate SubmissionAccepted(body: RequirementBody, creatorEmail: string) {
    && body.title != "" && body.description != "" && LowerTrim(creatorEmail) != ""
    && (body.priority == "" || body.priority in Priorities)
    && body.requirementStatus.GetOr(DefaultRequirementStatus) in RequirementStatuses
    && body.duration in Durations
    && (forall w :: w in body.workAuthorization ==> w in WorkAuthorizations)
  }

  /**
   * The document `submitRequirement` hands to `Requirement.create`, after the
   * schema's setters and defaults.
   */
  function NewRequirement(body: RequirementBody, creatorEmail: string, oid: Oid, now: Instant): (r: Requirement)
    ensures r.oid == oid && r.requirementId == RequirementId(body.title, now) && r.createdAt == now.epochMillis
    ensures r.status == "recruiterAssigned" <==> HasRecruiters(body)
    ensures r.status == "leadAssigned" <==> !HasRecruiters(body)
    ensures r.recruiterAssignedBy == (if HasRecruiters(body) then [LowerTrim(creatorEmail)] else [])
    ensures r.recruiterAssignedTo == Some(NormaliseEmails(body.recruiterAssignedTo.GetOr([])))
    ensures r.leadAssignedTo == NormaliseEmails(body.leadEmails.GetOr([]))
    ensures Normalised(r.recruiterAssignedTo.value) && Normalised(r.leadAssignedTo)
    ensures r.createdBy == LowerTrim(creatorEmail)
    ensures r.title == body.title && r.description == body.description && r.duration == body.duration
    ensures r.workAuthorization == body.workAuthorization
    ensures r.priority == (if body.priority == "" then "Medium" else body.priority)
    ensures r.requirementStatus == body.requirementStatus.GetOr("open")
    ensures ValidRequirement(r) <==> SubmissionAccepted(body, creatorEmail)
  {
    var recruiters := body.recruiterAssignedTo.GetOr([]);
    var leads := body.leadEmails.GetOr([]);
    NormaliseEmailsIdempotent(recruiters);
    NormaliseEmailsIdempotent(leads);
    WithDefaults(oid, RequirementId(body.title, now), body.title, body.description,
                 creatorEmail, body.duration, now.epochMillis)
      .(leadAssignedTo := NormaliseEmails(leads),
        recruiterAssignedTo := Some(NormaliseEmails(recruiters)),
        recruiterAssignedBy := if |recruiters| > 0 then NormaliseEmails([creatorEmail]) else [],
        status := if |recruiters| > 0 then "recruiterAssigned" else "leadAssigned",
        priority := if body.priority == "" then "Medium" else body.priority,
        requirementStatus := body.requirementStatus.GetOr(DefaultRequirementStatus),
        workAuthorization := body.workAuthorization)
  }

  /**
   * submitRequirement: 400 without a title or description; otherwise the record
   * is created (500 when validation or the unique index refuses it) and every
   * lead e-mail, as given, is notified once, a failed send being logged only.
   * A request without `leadEmails` creates the record and then fails with 500
   * when the notification loop reads the missing list.
   */
  method SubmitRequirement(db: Db, creatorEmail: string, body: RequirementBody, now: Instant, delivers: Notice -> bool)
    returns (code: int, created: Option<Requirement>, attempted: seq<Notice>, undelivered: seq<Notice>)
    requires db.Valid()
    modifies db`requirements, db`nextOid
    ensures db.Valid()
    ensures code == 201 || code == 400 || code == 500
    ensures code == 400 <==> body.title == "" || body.description == ""
    ensures code != 400 ==>
      (created.Some? <==> SubmissionAccepted(body, creatorEmail) && !old(db.RequirementIdTaken(RequirementId(body.title, now))))
    ensures created.None? ==> db.requirements == old(db.requirements)
    ensures created.Some? ==>
      && created.value == NewRequirement(body, creatorEmail, created.value.oid, now)
      && old(db.OidUnused(created.value.oid))
      && db.requirements == old(db.requirements) + [created.value]
    ensures code == 201 <==> created.Some? && body.leadEmails.Some?
    ensures attempted == if code == 201 then NoticesTo(body.leadEmails.value, created.value.requirementId) else []
    ensures undelivered == Undelivered(attempted, delivers)
  {
    created, attempted, undelivered := None, [], [];
    if body.title == "" || body.description == "" {
      code := 400;
      return;
    }
    var oid := db.NewOid();
    var r := NewRequirement(body, creatorEmail, oid, now);
    var ok := db.CreateRequirement(r);
    if !ok {
      code := 500;
      return;
    }
    created := Some(r);
    if body.leadEmails.None? {
      code := 500;
      return;
    }
    attempted := NoticesTo(body.leadEmails.value, r.requirementId);
    undelivered := SendEachLoggingFailures(attempted, delivers);
    code := 201;
  }

  /** Creating a requirement with no recruiters puts it in the unassigned views; with recruiters, not. */
  lemma NewRequirementUnassigned(body: RequirementBody, creatorEmail: string, oid: Oid, now: Instant)
    ensures Unassigned(NewRequirement(body, creatorEmail, oid, now)) <==> !HasRecruiters(body)
  {
  }

  predicate NoDuplicates(xs: seq<string>) {
    forall i, j :: 0 <= i < j < |xs| ==> xs[i] != xs[j]
  }

  /** `$addToSet`: `x` is appended unless it is already there. */
  function AddToSet(xs: seq<string>, x: string): (r: seq<string>)
    ensures x in r
    ensures forall y :: y in r <==> y in xs || y == x
    ensures NoDuplicates(xs) ==> NoDuplicates(r)
    ensures xs <= r && |r| <= |xs| + 1
  {
    if x in xs then xs else xs + [x]
  }

  /** Adding a normalised address to a normalised list keeps it normalised. */
  lemma AddToSetKeepsNormalised(xs: seq<string>, email: string)
    requires LowerTrim(email) == email
    ensures Normalised(xs) ==> Normalised(AddToSet(xs, email))
  {
    if Normalised(xs) && email !in xs {
      var r := xs + [email];
      forall i | 0 <= i < |r| ensures LowerTrim(r[i]) == r[i] {
        if i < |xs| {
          assert r[i] == xs[i];
        }
      }
      assert AddToSet(xs, email) == r;
    }
  }

  /** Adding an element twice is adding it once. */
  lemma AddToSetIdempotent(xs: seq<string>, x: string)
    ensures AddToSet(AddToSet(xs, x), x) == AddToSet(xs, x)
  {
  }

  /** `recruiterEmails.map(email => email.toLowerCase())` */
  function LowerAll(emails: seq<string>): (r: seq<string>)
    ensures |r| == |emails|
    ensures forall i :: 0 <= i < |r| ==> NoUpper(r[i])
  {
    seq(|emails|, i requires 0 <= i < |emails| => Lower(emails[i]))
  }

  /**
   * The assignment update shared by assignRequirement and assignMultipleRequirements:
   * the lower-cased recruiter list (which the schema setter then trims) replaces
   * `recruiterAssignedTo`, the lower-cased lead (which the same setter trims) is
   * added to `recruiterAssignedBy`,
   * and the workflow status becomes "recruiterAssigned". No validator runs.
   */
  function Assigned(r: Requirement, recruiterEmails: seq<string>, leadEmail: string): (a: Requirement)
    ensures a == r.(recruiterAssignedTo := a.recruiterAssignedTo, recruiterAssignedBy := a.recruiterAssignedBy,
                    status := "recruiterAssigned")
    ensures a.recruiterAssignedTo == Some(NormaliseEmails(recruiterEmails))
    ensures forall y :: y in a.recruiterAssignedBy <==> y in r.recruiterAssignedBy || y == LowerTrim(leadEmail)
    ensures NoDuplicates(r.recruiterAssignedBy) ==> NoDuplicates(a.recruiterAssignedBy)
    ensures Normalised(r.recruiterAssignedBy) ==> Normalised(a.recruiterAssignedBy)
    ensures ValidRequirement(r) ==> ValidRequirement(a)
  {
    LowerTrimOfLowered(leadEmail);
    LowerTrimIdempotent(leadEmail);
    AddToSetKeepsNormalised(r.recruiterAssignedBy, LowerTrim(leadEmail));
    var lowered := LowerAll(recruiterEmails);
    assert NormaliseEmails(lowered) == NormaliseEmails(recruiterEmails) by {
      forall i | 0 <= i < |recruiterEmails|
        ensures LowerTrim(lowered[i]) == LowerTrim(recruiterEmails[i])
      {
        LowerIdempotent(recruiterEmails[i]);
      }
    }
    r.(recruiterAssignedTo := Some(NormaliseEmails(lowered)),
       recruiterAssignedBy := AddToSet(r.recruiterAssignedBy, LowerTrim(Lower(leadEmail))),
       status := "recruiterAssigned")
  }

  /** Repeating an assignment changes nothing more. */
  lemma AssignedIdempotent(r: Requirement, recruiterEmails: seq<string>, leadEmail: string)
    ensures Assigned(Assigned(r, recruiterEmails, leadEmail), recruiterEmails, leadEmail)
         == Assigned(r, recruiterEmails, leadEmail)
  {
    var a := Assigned(r, recruiterEmails, leadEmail);
    AddToSetIdempotent(r.recruiterAssignedBy, LowerTrim(leadEmail));
  }

  /** The last assignment wins: assigning after an earlier assignment keeps none of the earlier recruiters. */
  lemma AssignmentReplacesRecruiters(r: Requirement, first: seq<string>, second: seq<string>, lead1: string, lead2: string)
    ensures Assigned(Assigned(r, first, lead1), second, lead2).recruiterAssignedTo
         == Assigned(r, second, lead2).recruiterAssignedTo
    ensures LowerTrim(lead1) in Assigned(Assigned(r, first, lead1), second, lead2).recruiterAssignedBy
  {
  }

  /** The collection after the assignment update of every requirement whose `_id` is in `ids`. */
  function AssignedIn(rs: seq<Requirement>, ids: set<Oid>, recruiterEmails: seq<string>, leadEmail: string)
    : (r: seq<Requirement>)
    ensures |r| == |rs|
    ensures forall i :: 0 <= i < |rs| ==>
      r[i] == if rs[i].oid in ids then Assigned(rs[i], recruiterEmails, leadEmail) else rs[i]
  {
    UpdateRequirementsIn(rs, ids, (x: Requirement) => Assigned(x, recruiterEmails, leadEmail))
  }

  /**
   * assignRequirement: 400 unless `recruiterEmails` is a non-empty list. The
   * update needs the lead e-mail (a missing one fails with 500 before any
   * write). An unknown `_id` updates nothing and fails with 500 when the
   * notification reads the missing record. Otherwise every recruiter, lower-cased,
   * is sent one notice in turn, and the first failed send ends the request with 500.
   */
  method AssignRequirement(db: Db, reqOid: Oid, recruiterEmails: Option<seq<string>>, leadEmail: Option<string>,
                           delivers: Notice -> bool)
    returns (code: int, attempted: seq<Notice>)
    requires db.Valid()
    modifies db`requirements
    ensures db.Valid()
    ensures code == 200 || code == 400 || code == 500
    ensures code == 400 <==> recruiterEmails.None? || recruiterEmails.value == []
    ensures code == 400 || leadEmail.None? ==> db.requirements == old(db.requirements) && attempted == []
    ensures code != 400 && leadEmail.None? ==> code == 500
    ensures code != 400 && leadEmail.Some? ==>
      db.requirements == AssignedIn(old(db.requirements), {reqOid}, recruiterEmails.value, leadEmail.value)
    ensures code != 400 && leadEmail.Some? ==>
      match RequirementById(old(db.requirements), reqOid)
      case None => code == 500 && attempted == []
      case Some(r) =>
        var notices := NoticesTo(LowerAll(recruiterEmails.value), r.requirementId);
        attempted == AttemptedUntilFailure(notices, delivers) && (code == 200 <==> AllDelivered(notices, delivers))
  {
    attempted := [];
    if recruiterEmails.None? || recruiterEmails.value == [] {
      code := 400;
      return;
    }
    if leadEmail.None? {
      code := 500;
      return;
    }
    var emails, lead := recruiterEmails.value, leadEmail.value;
    ghost var before := db.requirements;
    var updated := db.FindRequirementAndUpdate(reqOid, (x: Requirement) => Assigned(x, emails, lead));
    assert db.requirements == AssignedIn(before, {reqOid}, emails, lead);
    if updated.None? {
      code := 500;
      return;
    }
    var ok;
    attempted, ok := SendUntilFailure(NoticesTo(LowerAll(emails), updated.value.requirementId), delivers);
    code := if ok then 200 else 500;
  }

  /** `Requirement.find({ _id: { $in: ids } })`: the listed requirements, in collection order. */
  function Selected(rs: seq<Requirement>, ids: set<Oid>): (r: seq<Requirement>)
    ensures forall x :: x in r <==> x in rs && x.oid in ids
  {
    Filter(rs, (x: Requirement) => x.oid in ids)
  }

  /** One notice per (requirement, recruiter) pair: requirement by requirement, recruiters in list order. */
  function AssignmentNotices(rs: seq<Requirement>, emails: seq<string>): (ns: seq<Notice>)
    ensures |ns| == |rs| * |emails|
  {
    if rs == [] then []
    else
      assert |rs| * |emails| == |emails| + (|rs| - 1) * |emails|;
      NoticesTo(emails, rs[0].requirementId) + AssignmentNotices(rs[1..], emails)
  }

  /** Every (requirement, recruiter) pair gets its notice. */
  lemma {:induction false} AssignmentNoticesCoverPairs(rs: seq<Requirement>, emails: seq<string>, i: nat, j: nat)
    requires i < |rs| && j < |emails|
    ensures Notice([emails[j]], rs[i].requirementId) in AssignmentNotices(rs, emails)
  {
    var head := NoticesTo(emails, rs[0].requirementId);
    if i == 0 {
      assert head[j] == Notice([emails[j]], rs[0].requirementId);
    } else {
      AssignmentNoticesCoverPairs(rs[1..], emails, i - 1, j);
      assert rs[1..][i - 1] == rs[i];
    }
  }

  /** Every notice is about a listed requirement and goes to a listed recruiter. */
  lemma {:induction false} AssignmentNoticesOnlyPairs(rs: seq<Requirement>, emails: seq<string>, n: Notice)
    requires n in AssignmentNotices(rs, emails)
    ensures exists i, j :: 0 <= i < |rs| && 0 <= j < |emails| && n == Notice([emails[j]], rs[i].requirementId)
  {
    var head := NoticesTo(emails, rs[0].requirementId);
    if n in head {
      var j :| 0 <= j < |head| && head[j] == n;
      assert n == Notice([emails[j]], rs[0].requirementId);
    } else {
      AssignmentNoticesOnlyPairs(rs[1..], emails, n);
      var i, j :| 0 <= i < |rs[1..]| && 0 <= j < |emails| && n == Notice([emails[j]], rs[1..][i].requirementId);
      assert n == Notice([emails[j]], rs[i + 1].requirementId);
    }
  }

  /**
   * assignMultipleRequirements: 400 unless `requirementIds` and `recruiterEmails`
   * are lists and `leadEmail` is non-empty (an empty recruiter list is accepted).
   * Every listed requirement gets the assignment update and no other changes;
   * then each listed requirement, in collection order, has each recruiter
   * notified in turn, and the first failed send ends the request with 500.
   */
  method AssignMultipleRequirements(db: Db, requirementIds: Option<seq<Oid>>, recruiterEmails: Option<seq<string>>,
                                    leadEmail: string, delivers: Notice -> bool)
    returns (code: int, attempted: seq<Notice>)
    requires db.Valid()
    modifies db`requirements
    ensures db.Valid()
    ensures code == 200 || code == 400 || code == 500
    ensures code == 400 <==> requirementIds.None? || recruiterEmails.None? || leadEmail == ""
    ensures code == 400 ==> db.requirements == old(db.requirements) && attempted == []
    ensures code != 400 ==>
      var ids := set k | k in requirementIds.value;
      var notices := AssignmentNotices(Selected(db.requirements, ids), LowerAll(recruiterEmails.value));
      && db.requirements == AssignedIn(old(db.requirements), ids, recruiterEmails.value, leadEmail)
      && attempted == AttemptedUntilFailure(notices, delivers)
      && (code == 200 <==> AllDelivered(notices, delivers))
  {
    attempted := [];
    if requirementIds.None? || recruiterEmails.None? || leadEmail == "" {
      code := 400;
      return;
    }
    var ids := set k | k in requirementIds.value;
    var emails := recruiterEmails.value;
    ghost var before := db.requirements;
    db.UpdateRequirements(ids, (x: Requirement) => Assigned(x, emails, leadEmail));
    assert db.requirements == AssignedIn(before, ids, emails, leadEmail);
    var selected := Selected(db.requirements, ids);
    var ok;
    attempted, ok := SendUntilFailure(AssignmentNotices(selected, LowerAll(emails)), delivers);
    code := if ok then 200 else 500;
  }

  /** A requirement with no recruiter list, or an empty one. */
  predicate Unassigned(r: Requirement) {
    r.recruiterAssignedTo.None? || r.recruiterAssignedTo.value == []
  }

  predicate NewestFirst(rs: seq<Requirement>) {
    forall i, j :: 0 <= i < j < |rs| ==> rs[i].createdAt >= rs[j].createdAt
  }

  function CreatedAt(r: Requirement): int {
    r.createdAt
  }

  /** `.sort({ createdAt: -1 })` over the documents a filter selected. */
  function SortedNewestFirst(rs: seq<Requirement>): (r: seq<Requirement>)
    ensures NewestFirst(r)
    ensures multiset(r) == multiset(rs)
    ensures forall x :: x in r <==> x in rs
  {
    SortKeepsMembers(rs, CreatedAt);
    var r := SortDescending(rs, CreatedAt);
    assert forall i, j :: 0 <= i < j < |r| ==> CreatedAt(r[i]) >= CreatedAt(r[j]);
    r
  }

  /**
   * viewSalesRequirements: the requirements the caller created, newest first.
   * The query value is cast through the `createdBy` setters, so the caller's
   * e-mail is compared lower-cased and trimmed.
   */
  function SalesRequirements(rs: seq<Requirement>, callerEmail: string): (v: seq<Requirement>)
    ensures NewestFirst(v)
    ensures forall x :: x in v <==> x in rs && x.createdBy == LowerTrim(callerEmail)
    ensures multiset(v) <= multiset(rs)
  {
    var email := LowerTrim(callerEmail);
    SortedNewestFirst(Filter(rs, (x: Requirement) => x.createdBy == email))
  }

  /** A stored requirement shows in the sales view of the e-mail that submitted it, whatever its letter case or padding. */
  lemma SubmittedRequirementInSalesView(rs: seq<Requirement>, body: RequirementBody, creatorEmail: string,
                                        oid: Oid, now: Instant)
    requires NewRequirement(body, creatorEmail, oid, now) in rs
    ensures NewRequirement(body, creatorEmail, oid, now) in SalesRequirements(rs, creatorEmail)
  {
  }

  /** recruiterViewRequirements: the requirements listing the lower-cased query e-mail as a recruiter, newest first. */
  function RecruiterRequirements(rs: seq<Requirement>, queryEmail: string): (v: seq<Requirement>)
    ensures NewestFirst(v)
    ensures forall x :: x in v <==> x in rs && x.recruiterAssignedTo.Some? && Lower(queryEmail) in x.recruiterAssignedTo.value
    ensures multiset(v) <= multiset(rs)
  {
    var email := Lower(queryEmail);
    SortedNewestFirst(Filter(rs, (x: Requirement) => x.recruiterAssignedTo.Some? && email in x.recruiterAssignedTo.value))
  }

  /** viewUnassignedLeads: every unassigned requirement, whoever the lead, newest first. */
  function UnassignedLeads(rs: seq<Requirement>): (v: seq<Requirement>)
    ensures NewestFirst(v)
    ensures forall x :: x in v <==> x in rs && Unassigned(x)
    ensures multiset(v) <= multiset(rs)
  {
    SortedNewestFirst(Filter(rs, Unassigned))
  }

  /**
   * unassignedRequirements: 403 unless the caller's role is exactly "lead";
   * otherwise the unassigned requirements listing the caller among their leads,
   * in collection order.
   */
  function UnassignedRequirements(rs: seq<Requirement>, callerRole: string, callerEmail: string)
    : (v: Result<seq<Requirement>, int>)
    ensures v.Err? <==> callerRole != "lead"
    ensures v.Err? ==> v.error == 403
    ensures v.Ok? ==> forall x :: x in v.value <==> x in rs && callerEmail in x.leadAssignedTo && Unassigned(x)
    ensures v.Ok? ==> multiset(v.value) <= multiset(rs)
  {
    if callerRole != "lead" then Err(403)
    else Ok(Filter(rs, (x: Requirement) => callerEmail in x.leadAssignedTo && Unassigned(x)))
  }

  /** The lead view is the all-leads view restricted to the caller, up to order. */
  lemma LeadViewWithinUnassignedLeads(rs: seq<Requirement>, callerEmail: string)
    ensures var v := UnassignedRequirements(rs, "lead", callerEmail);
      v.Ok? && forall x :: x in v.value ==> x in UnassignedLeads(rs)
  {
  }

  /** The requirement as it stands after an assignment, at the position it held before. */
  lemma AssignedInPlace(rs: seq<Requirement>, reqOid: Oid, recruiterEmails: seq<string>, leadEmail: string)
    requires RequirementById(rs, reqOid).Some?
    ensures Assigned(RequirementById(rs, reqOid).value, recruiterEmails, leadEmail)
            in AssignedIn(rs, {reqOid}, recruiterEmails, leadEmail)
  {
    var r := RequirementById(rs, reqOid).value;
    var i :| 0 <= i < |rs| && rs[i] == r;
    assert AssignedIn(rs, {reqOid}, recruiterEmails, leadEmail)[i] == Assigned(r, recruiterEmails, leadEmail);
  }

  /**
   * After an assignment with at least one recruiter, the requirement leaves the
   * unassigned view, and a recruiter whose e-mail has no surrounding white space
   * finds it in the recruiter view, whatever the letter case of the query.
   */
  lemma AssignmentMovesBetweenViews(rs: seq<Requirement>, reqOid: Oid, recruiterEmails: seq<string>, leadEmail: string,
                                    j: nat, queryEmail: string)
    requires RequirementById(rs, reqOid).Some?
    requires j < |recruiterEmails|
    requires recruiterEmails[j] != [] && Trimmed(recruiterEmails[j])
    requires Lower(queryEmail) == Lower(recruiterEmails[j])
    ensures var after := AssignedIn(rs, {reqOid}, recruiterEmails, leadEmail);
      var a := Assigned(RequirementById(rs, reqOid).value, recruiterEmails, leadEmail);
      a !in UnassignedLeads(after) && a in RecruiterRequirements(after, queryEmail)
  {
    var a := Assigned(RequirementById(rs, reqOid).value, recruiterEmails, leadEmail);
    AssignedInPlace(rs, reqOid, recruiterEmails, leadEmail);
    LowerKeepsTrimmed(recruiterEmails[j]);
    TrimOfTrimmed(Lower(recruiterEmails[j]));
    assert a.recruiterAssignedTo.value[j] == Lower(queryEmail);
  }

  /** The document with `requirementStatus` replaced, and nothing else. */
  function WithRequirementStatus(r: Requirement, requirementStatus: string): (u: Requirement)
    ensures u.requirementStatus == requirementStatus
    ensures u.(requirementStatus := r.requirementStatus) == r
  {
    r.(requirementStatus := requirementStatus)
  }

  /**
   * `findByIdAndUpdate` runs no validators: a valid requirement stays valid
   * exactly when the new value is one of the enum's.
   */
  lemma StatusUpdateBypassesEnum(r: Requirement, requirementStatus: string)
    requires ValidRequirement(r)
    ensures ValidRequirement(WithRequirementStatus(r, requirementStatus)) <==> requirementStatus in RequirementStatuses
  {
  }

  /** The collection after the status update of the requirement with `_id` `oid`. */
  function StatusUpdatedIn(rs: seq<Requirement>, oid: Oid, requirementStatus: string): (r: seq<Requirement>)
    ensures |r| == |rs|
    ensures forall i :: 0 <= i < |rs| ==>
      r[i] == if rs[i].oid == oid then WithRequirementStatus(rs[i], requirementStatus) else rs[i]
  {
    seq(|rs|, i requires 0 <= i < |rs| =>
      if rs[i].oid == oid then WithRequirementStatus(rs[i], requirementStatus) else rs[i])
  }

  /**
   * updateRequirementStatus: 400 when the id or the new status is missing, 404
   * when no requirement has that `_id`; otherwise that requirement's
   * `requirementStatus` is replaced and the updated document returned.
   */
  method UpdateRequirementStatus(db: Db, requirementOid: Option<Oid>, requirementStatus: string)
    returns (code: int, updated: Option<Requirement>)
    requires db.Valid()
    modifies db`requirements
    ensures db.Valid()
    ensures code == 400 <==> requirementOid.None? || requirementStatus == ""
    ensures code == 400 ==> db.requirements == old(db.requirements) && updated == None
    ensures code != 400 ==>
      && db.requirements == StatusUpdatedIn(old(db.requirements), requirementOid.value, requirementStatus)
      && match RequirementById(old(db.requirements), requirementOid.value)
         case None => code == 404 && updated == None
         case Some(r) => code == 200 && updated == Some(WithRequirementStatus(r, requirementStatus))
  {
    if requirementOid.None? || requirementStatus == "" {
      code, updated := 400, None;
      return;
    }
    ghost var before := db.requirements;
    updated := db.FindRequirementAndUpdate(requirementOid.value, (x: Requirement) => WithRequirementStatus(x, requirementStatus));
    assert db.requirements == StatusUpdatedIn(before, requirementOid.value, requirementStatus);
    code := if updated.None? then 404 else 200;
  }
}

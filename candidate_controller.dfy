/**
 * controller/candidateController.js: candidate identifiers, the two ways a
 * candidate enters the store (a JSON submission and an upload with resumes),
 * the three candidate queues with their requirement-title join, forwarding to
 * sales, and the partial update of the review fields.
 */
module CandidateController {
  import opened Wrappers
  import opened Text
  import opened Clock
  import opened Seqs
  import opened Notify
  import opened Request
  import opened RequirementSchema
  import opened CandidateSchema
  import opened Store

  /** Squeezing the spaces out of a lower-cased string leaves no upper-case letter. */
  lemma SqueezedHasNoUpper(s: string)
    ensures forall i :: 0 <= i < |RemoveSpaces(Lower(s))| ==> !IsUpper(RemoveSpaces(Lower(s))[i])
  {
    var lowered := Lower(s);
    var squeezed := RemoveSpaces(lowered);
    RemoveSpacesMembers(lowered);
    forall i | 0 <= i < |squeezed| ensures !IsUpper(squeezed[i]) {
      assert squeezed[i] in lowered;
    }
  }

  /** `name?.trim().toLowerCase().replace(/\s+/g, "") || "unknown"` */
  function SafeName(name: Option<string>): (r: string)
    ensures r != []
    ensures forall i :: 0 <= i < |r| ==> !IsSpace(r[i]) && !IsUpper(r[i])
  {
    var squeezed := if name.Some? then RemoveSpaces(Lower(Trim(name.value))) else "";
    if squeezed == "" then "unknown"
    else
      SqueezedHasNoUpper(Trim(name.value));
      squeezed
  }

  /** The controller's generateCandidateId: the safe name, an underscore, and the local time as `HHMMSS`. */
  function CandidateId(name: Option<string>, now: Instant): (id: string)
    ensures |id| == |SafeName(name)| + 7
  {
    SafeName(name) + "_" + CompactTime(now)
  }

  /**
   * Two candidate ids coincide exactly when the safe names agree and the
   * submissions fall in the same second of the day.
   */
  lemma CandidateIdCollision(name1: Option<string>, now1: Instant, name2: Option<string>, now2: Instant)
    ensures CandidateId(name1, now1) == CandidateId(name2, now2) <==>
      SafeName(name1) == SafeName(name2)
      && now1.hour == now2.hour && now1.minute == now2.minute && now1.second == now2.second
  {
    StampedIdInjective(SafeName(name1), now1, SafeName(name2), now2);
  }

  /** The upload's id: the trimmed name keeping only `[\w\-]`, an underscore, and the unpadded time. */
  function UploadCandidateId(name: string, now: Instant): (id: string)
    ensures forall i :: 0 <= i < |id| ==> IsWordOrHyphen(id[i])
  {
    var kept := KeepWordOrHyphen(Trim(name));
    var time := UnpaddedTime(now);
    var id := kept + "_" + time;
    forall i | 0 <= i < |id| ensures IsWordOrHyphen(id[i]) {
      if i < |kept| {
        assert id[i] == kept[i];
      } else if i > |kept| {
        assert id[i] == time[i - |kept| - 1] && IsDigit(time[i - |kept| - 1]);
      }
    }
    id
  }

  /** For every name there are two different times of day that give the upload the same id. */
  lemma UploadCandidateIdCollides(name: string)
    ensures exists a: Instant, b: Instant :: a.hour != b.hour && UploadCandidateId(name, a) == UploadCandidateId(name, b)
  {
    UnpaddedTimeCollides();
    var a: Instant, b: Instant :| a.hour != b.hour && UnpaddedTime(a) == UnpaddedTime(b);
    assert UploadCandidateId(name, a) == UploadCandidateId(name, b);
  }

  /** A character of a folder name: word characters and `-` kept, anything else `_`. */
  function FolderChar(ch: char): (r: char)
    ensures IsWordOrHyphen(r)
  {
    if IsWordOrHyphen(ch) then ch else '_'
  }

  /** `.replace(/[@.]/g, "_").replace(/[^\w\-]/g, "_")` */
  function FolderChars(t: string): (r: string)
    ensures |r| == |t|
    ensures forall i :: 0 <= i < |t| ==> r[i] == FolderChar(t[i])
  {
    var a := ReplaceAtAndDot(t);
    var r := ReplaceNonWord(a);
    forall i | 0 <= i < |t| ensures r[i] == FolderChar(t[i]) {
      assert a[i] == if t[i] == '@' || t[i] == '.' then '_' else t[i];
    }
    r
  }

  /** The Drive folder of a candidate: the trimmed e-mail with every character outside `[\w\-]` turned into `_`. */
  function FolderName(email: string): (r: string)
    ensures |r| == |Trim(email)|
    ensures forall i :: 0 <= i < |r| ==> IsWordOrHyphen(r[i])
  {
    FolderChars(Trim(email))
  }

  /** Two strings give the same folder characters exactly when they agree character by character up to `FolderChar`. */
  lemma FolderCharsCollision(s: string, t: string)
    ensures FolderChars(s) == FolderChars(t) <==>
      |s| == |t| && forall i :: 0 <= i < |s| ==> FolderChar(s[i]) == FolderChar(t[i])
  {
    var fs, ft := FolderChars(s), FolderChars(t);
    if |s| == |t| && forall i :: 0 <= i < |s| ==> FolderChar(s[i]) == FolderChar(t[i]) {
      assert forall i :: 0 <= i < |fs| ==> fs[i] == ft[i];
    }
    if fs == ft {
      assert forall i :: 0 <= i < |s| ==> FolderChar(s[i]) == fs[i] == ft[i] == FolderChar(t[i]);
    }
  }

  /**
   * Two addresses share a Drive folder exactly when their trimmed forms have
   * the same length and agree wherever a word character or `-` stands.
   */
  lemma FolderNameCollision(a: string, b: string)
    ensures FolderName(a) == FolderName(b) <==>
      |Trim(a)| == |Trim(b)| && forall i :: 0 <= i < |Trim(a)| ==> FolderChar(Trim(a)[i]) == FolderChar(Trim(b)[i])
  {
    FolderCharsCollision(Trim(a), Trim(b));
  }

  /** The folder name of an address without surrounding white space, character by character. */
  lemma FolderNameOfTrimmed(s: string)
    requires s != [] && !IsSpace(s[0]) && !IsSpace(s[|s| - 1])
    ensures FolderName(s) == FolderChars(s)
  {
    TrimOfTrimmed(s);
  }

  /** Replacing one character by another with the same folder character leaves the folder characters alone. */
  lemma {:induction false} SpliceSameFolder(x: string, c: char, d: char, tail: string)
    requires FolderChar(c) == FolderChar(d)
    ensures FolderChars(x + [c] + tail) == FolderChars(x + [d] + tail)
  {
    var a, b := x + [c] + tail, x + [d] + tail;
    forall i | 0 <= i < |a| ensures FolderChar(a[i]) == FolderChar(b[i]) {
      if i < |x| {
        assert a[i] == x[i] == b[i];
      } else if i > |x| {
        assert a[i] == tail[i - |x| - 1] == b[i];
      }
    }
    FolderCharsCollision(a, b);
  }

  /** An address with a dot in its local part shares its folder with the one that has `_` there instead. */
  lemma DotAndUnderscoreShareFolder(x: string, y: string, domain: string)
    requires x != [] && !IsSpace(x[0])
    requires domain != [] && !IsSpace(domain[|domain| - 1])
    ensures x + "." + y + "@" + domain != x + "_" + y + "@" + domain
    ensures FolderName(x + "." + y + "@" + domain) == FolderName(x + "_" + y + "@" + domain)
  {
    var tail := y + "@" + domain;
    var a, b := x + ['.'] + tail, x + ['_'] + tail;
    assert a == x + "." + y + "@" + domain && b == x + "_" + y + "@" + domain;
    assert a[|x|] == '.' && b[|x|] == '_';
    assert a[0] == x[0] == b[0];
    assert a[|a| - 1] == domain[|domain| - 1] == b[|b| - 1];
    FolderNameOfTrimmed(a);
    FolderNameOfTrimmed(b);
    SpliceSameFolder(x, '.', '_', tail);
  }

  /** The Drive link stored in `resumeUrls`: the folders URL ending in the folder's id. */
  function FolderLink(folderId: string): (link: string)
    ensures |link| > |folderId| && link[|link| - |folderId|..] == folderId
  {
    "https://drive.google.com/drive/folders/" + folderId
  }

  /** `isActive === "true" || isActive === true`: the form's string or a boolean. */
  function UploadIsActive(v: Value): (active: bool)
    ensures active <==> v == Str("true") || v == Bool(true)
  {
    match v
    case Str(s) => s == "true"
    case Bool(b) => b
    case _ => false
  }

  /** A list is kept, a string becomes a one-element list, anything else the empty list. */
  function WorkAuthorizationList(v: Value): (r: seq<string>)
    ensures v.List? ==> r == v.items
    ensures v.Str? ==> r == [v.s]
    ensures !v.List? && !v.Str? ==> r == []
  {
    match v
    case List(items) => items
    case Str(s) => [s]
    case _ => []
  }

  /** Normalising the list once more gives it back. */
  lemma WorkAuthorizationListStable(v: Value)
    ensures WorkAuthorizationList(List(WorkAuthorizationList(v))) == WorkAuthorizationList(v)
  {
  }

  /**
   * The paths of a submission body the model carries, other than those the
   * handler destructures (name, requirementId, email, isActive). Each spreads
   * over the handler's own value when present.
   */
  datatype Overrides = Overrides(
    candidateId: Option<string>,
    phone: Option<string>,
    role: Option<string>,
    relocation: Option<string>,
    sourceRole: Option<string>,
    status: Option<string>,
    addedBy: Option<string>,
    candidateUpdate: Option<string>,
    leadUpdate: Option<string>,
    isDeleted: Option<bool>)

  /** A submission: `requirementId` is a single id or a list; `isActive` is `None` for null or missing. */
  datatype SubmitBody = SubmitBody(
    name: string,
    requirementId: Option<IdList>,
    email: string,
    isActive: Option<bool>,
    rest: Overrides)

  /** `!requirementId` is false: present, and not the empty string. */
  predicate HasRequirementId(body: SubmitBody) {
    body.requirementId.Some? && body.requirementId.value != OneId("")
  }

  /**
   * The document submitCandidate builds from a body: the schema's setters
   * applied to name and e-mail, and the handler's own values (source role
   * "recruiter", status "submitted", `isActive` false, the caller as
   * `addedBy`) wherever the body does not supply the path.
   */
  function SubmittedCandidate(oid: Oid, body: SubmitBody, callerEmail: string, now: Instant): (c: Candidate)
    ensures c.email == LowerTrim(body.email) && c.name == Trim(body.name)
    ensures c.candidateId == body.rest.candidateId.GetOr(CandidateId(Some(body.name), now))
    ensures c.sourceRole == body.rest.sourceRole.GetOr("recruiter")
    ensures c.status == body.rest.status.GetOr("submitted")
    ensures c.isActive == Some(body.isActive.GetOr(false))
    ensures c.addedBy == Some(body.rest.addedBy.GetOr(callerEmail))
    ensures c.isDeleted == Some(body.rest.isDeleted.GetOr(false))
  {
    var rest := body.rest;
    var doc := NewDocument(oid, rest.candidateId.GetOr(CandidateId(Some(body.name), now)), body.name, body.email,
                           rest.phone.GetOr(""), rest.role.GetOr(""),
                           IdsOf(body.requirementId.GetOr(IdArray([]))), rest.sourceRole.GetOr("recruiter"));
    doc.(relocation := rest.relocation,
         status := rest.status.GetOr("submitted"),
         isActive := Some(body.isActive.GetOr(false)),
         addedBy := Some(rest.addedBy.GetOr(callerEmail)),
         candidateUpdate := rest.candidateUpdate,
         leadUpdate := rest.leadUpdate.GetOr(""),
         isDeleted := Some(rest.isDeleted.GetOr(false)))
  }

  /** What `save()` accepts of a submission, path by path. */
  predicate SubmissionValid(body: SubmitBody) {
    var rest := body.rest;
    && Trim(body.name) != "" && LowerTrim(body.email) != ""
    && rest.phone.GetOr("") != "" && rest.role.GetOr("") != "" && rest.sourceRole.GetOr("recruiter") != ""
    && (forall id :: id in IdsOf(body.requirementId.GetOr(IdArray([]))) ==> id != "")
    && rest.status.GetOr("submitted") in CandidateStatuses
    && (rest.relocation.Some? ==> rest.relocation.value in Relocations)
    && (rest.candidateUpdate.Some? ==> rest.candidateUpdate.value in CandidateUpdates)
    && rest.leadUpdate.GetOr("") in LeadUpdates
  }

  /** The paths validation reads, as the submitted document holds them. */
  lemma SubmittedCandidatePaths(oid: Oid, body: SubmitBody, callerEmail: string, now: Instant)
    ensures var c := SubmittedCandidate(oid, body, callerEmail, now);
      && c.phone == body.rest.phone.GetOr("") && c.role == body.rest.role.GetOr("")
      && c.requirementId == IdArray(IdsOf(body.requirementId.GetOr(IdArray([]))))
      && c.relocation == body.rest.relocation && c.candidateUpdate == body.rest.candidateUpdate
      && c.leadUpdate == body.rest.leadUpdate.GetOr("")
  {
  }

  /** A submitted document passes validation exactly when the body's paths do. */
  lemma SubmittedCandidateValid(oid: Oid, body: SubmitBody, callerEmail: string, now: Instant)
    ensures ValidCandidate(SubmittedCandidate(oid, body, callerEmail, now)) <==> SubmissionValid(body)
  {
    var c := SubmittedCandidate(oid, body, callerEmail, now);
    SubmittedCandidatePaths(oid, body, callerEmail, now);
    if SubmissionValid(body) {
      assert ValidCandidate(c);
    }
    if ValidCandidate(c) {
      assert SubmissionValid(body);
    }
  }

  /**
   * The document submitCandidate builds, as written. The body's `email` is
   * destructured under another name and never passed on, so the record has no
   * e-mail, and the schema's `required` refuses every submission.
   */
  function SubmittedCandidateAsWritten(oid: Oid, body: SubmitBody, callerEmail: string, now: Instant): (c: Candidate)
    ensures c.email == ""
  {
    SubmittedCandidate(oid, body.(email := ""), callerEmail, now)
  }

  /** As written, no submission passes validation, whatever the body holds. */
  lemma SubmissionAsWrittenAlwaysRefused(oid: Oid, body: SubmitBody, callerEmail: string, now: Instant)
    ensures !ValidCandidate(SubmittedCandidateAsWritten(oid, body, callerEmail, now))
  {
  }

  /** `Requirement.findOne({ requirementId })`: the first requirement with one of the given ids. */
  function FindOneByRequirementId(rs: seq<Requirement>, ids: seq<string>): (r: Option<Requirement>)
    ensures r.Some? ==> r.value in rs && r.value.requirementId in ids
    ensures r.None? <==> forall i :: 0 <= i < |rs| ==> rs[i].requirementId !in ids
  {
    if rs == [] then None
    else if rs[0].requirementId in ids then Some(rs[0])
    else FindOneByRequirementId(rs[1..], ids)
  }

  /** The leads told of a new candidate: those of the requirement it was submitted under, if one is found. */
  function SubmissionNotices(rs: seq<Requirement>, ids: seq<string>): (ns: seq<Notice>)
    ensures (forall i :: 0 <= i < |rs| ==> rs[i].requirementId !in ids) ==> ns == []
    ensures forall n :: n in ns ==>
      && n.about in ids && |n.to| == 1
      && exists r :: r in rs && r.requirementId == n.about && n.to[0] in r.leadAssignedTo
  {
    match FindOneByRequirementId(rs, ids)
    case None => []
    case Some(r) =>
      var ns := NoticesTo(r.leadAssignedTo, r.requirementId);
      assert forall n :: n in ns ==> n.about == r.requirementId && |n.to| == 1 && n.to[0] in r.leadAssignedTo;
      ns
  }

  /**
   * submitCandidate, with the e-mail carried over: 400 without a name or a
   * requirement id; otherwise the record is saved (500 when validation or the
   * unique index refuses it), and every lead of the requirement is mailed at
   * once; any failed send turns the answer into 500 after the save.
   */
  method SubmitCandidate(db: Db, body: SubmitBody, callerEmail: string, now: Instant, delivers: Notice -> bool)
    returns (code: int, saved: Option<Candidate>, notices: seq<Notice>)
    requires db.Valid()
    modifies db`candidates, db`nextOid
    ensures db.Valid()
    ensures code == 201 || code == 400 || code == 500
    ensures code == 400 <==> body.name == "" || !HasRequirementId(body)
    ensures code != 400 ==>
      var candidateId := body.rest.candidateId.GetOr(CandidateId(Some(body.name), now));
      (saved.Some? <==> SubmissionValid(body) && !old(db.CandidateIdTaken(candidateId)))
    ensures saved.None? ==> db.candidates == old(db.candidates) && notices == []
    ensures saved.Some? ==>
      && body.name != "" && HasRequirementId(body)
      && saved.value == SubmittedCandidate(saved.value.oid, body, callerEmail, now)
      && old(db.OidUnused(saved.value.oid))
      && db.candidates == old(db.candidates) + [saved.value]
      && notices == SubmissionNotices(db.requirements, IdsOf(body.requirementId.value))
    ensures code == 201 <==> saved.Some? && AllDelivered(notices, delivers)
  {
    saved, notices := None, [];
    if body.name == "" || !HasRequirementId(body) {
      code := 400;
      return;
    }
    var oid := db.NewOid();
    var c := SubmittedCandidate(oid, body, callerEmail, now);
    SubmittedCandidateValid(oid, body, callerEmail, now);
    var ok := db.SaveCandidate(c);
    if !ok {
      code := 500;
      return;
    }
    saved := Some(c);
    notices := SubmissionNotices(db.requirements, IdsOf(body.requirementId.value));
    code := if AllDelivered(notices, delivers) then 201 else 500;
  }

  /**
   * An upload's form fields. `name` and `email` are `None` when missing (the
   * handler calls `trim` on them); `requirementId` is `None` when missing;
   * `forwardToLeads` is `None` when not a list.
   */
  datatype UploadBody = UploadBody(
    name: Option<string>,
    email: Option<string>,
    phone: string,
    role: string,
    requirementId: Option<IdList>,
    relocation: Option<string>,
    isActive: Value,
    workAuthorization: Value,
    forwardToLeads: Option<seq<string>>)

  /**
   * `Array.isArray(requirementId) ? requirementId : [requirementId]`. A missing
   * field becomes `[undefined]`; its one element fails the element's `required`
   * as an empty id does, and is written "" here.
   */
  function UploadIds(l: Option<IdList>): (ids: seq<string>)
    ensures l.None? ==> ids == [""]
    ensures l.Some? ==> ids == IdsOf(l.value)
  {
    match l
    case None => [""]
    case Some(v) => IdsOf(v)
  }

  /** A call the handler makes to Google Drive. */
  datatype DriveCall = CreateFolder(folderName: string) | UploadFile(fileName: string, folderId: string)

  function UploadCalls(files: seq<string>, folderId: string): (calls: seq<DriveCall>)
    ensures |calls| == |files|
    ensures forall i :: 0 <= i < |files| ==> calls[i] == UploadFile(files[i], folderId)
  {
    seq(|files|, i requires 0 <= i < |files| => UploadFile(files[i], folderId))
  }

  /**
   * The document an upload saves. The normalised work-authorisation list has no
   * path in the candidate schema and is dropped.
   */
  function UploadedCandidate(oid: Oid, body: UploadBody, name: string, email: string, now: Instant,
                             folderId: string, userEmail: Option<string>, userRole: string): (c: Candidate)
    ensures c.candidateId == UploadCandidateId(name, now)
    ensures c.status == "submitted" && c.candidateUpdate == Some("submitted")
    ensures c.isActive == Some(UploadIsActive(body.isActive))
    ensures c.resumeUrls == [FolderLink(folderId)] && c.folderId == Some(folderId)
    ensures c.sourceRole == (if userRole != "" then userRole else "recruiter")
    ensures IdsOf(c.requirementId) == UploadIds(body.requirementId)
    ensures c.name == Trim(name) && c.email == LowerTrim(email) && c.relocation == body.relocation
    ensures c.phone == body.phone && c.role == body.role && c.leadUpdate == ""
  {
    NewDocument(oid, UploadCandidateId(name, now), name, email, body.phone, body.role, UploadIds(body.requirementId),
                if userRole != "" then userRole else "recruiter")
      .(relocation := body.relocation,
        isActive := Some(UploadIsActive(body.isActive)),
        candidateUpdate := Some("submitted"),
        resumeUrls := [FolderLink(folderId)],
        folderId := Some(folderId),
        addedBy := userEmail)
  }

  /** What `save()` accepts of an upload, path by path. */
  predicate UploadValid(body: UploadBody, name: string, email: string) {
    && Trim(name) != "" && LowerTrim(email) != "" && body.phone != "" && body.role != ""
    && (forall id :: id in UploadIds(body.requirementId) ==> id != "")
    && (body.relocation.Some? ==> body.relocation.value in Relocations)
  }

  /** An uploaded document passes validation exactly when the form's fields do. */
  lemma UploadedCandidateValid(oid: Oid, body: UploadBody, name: string, email: string, now: Instant,
                               folderId: string, userEmail: Option<string>, userRole: string)
    ensures ValidCandidate(UploadedCandidate(oid, body, name, email, now, folderId, userEmail, userRole))
        <==> UploadValid(body, name, email)
  {
    var c := UploadedCandidate(oid, body, name, email, now, folderId, userEmail, userRole);
    assert c.status in CandidateStatuses;
    assert c.candidateUpdate.value in CandidateUpdates;
    assert c.leadUpdate in LeadUpdates;
    assert c.sourceRole != "";
    assert c.requirementId.IdArray? && c.requirementId.ids == UploadIds(body.requirementId);
  }

  /** An upload without `requirementId` is refused at save, after its Drive folder and files exist. */
  lemma UploadWithoutRequirementIdRefused(oid: Oid, body: UploadBody, name: string, email: string, now: Instant,
                                          folderId: string, userEmail: Option<string>, userRole: string)
    requires body.requirementId.None?
    ensures !UploadValid(body, name, email)
    ensures !ValidCandidate(UploadedCandidate(oid, body, name, email, now, folderId, userEmail, userRole))
  {
    UploadedCandidateValid(oid, body, name, email, now, folderId, userEmail, userRole);
    assert "" in UploadIds(body.requirementId);
  }

  /** Drive accepted the folder and every file. */
  predicate DriveSucceeded(email: string, files: seq<string>, createFolder: string -> Option<string>,
                           uploadFile: (string, string) -> bool)
  {
    && createFolder(FolderName(email)).Some?
    && forall i :: 0 <= i < |files| ==> uploadFile(files[i], createFolder(FolderName(email)).value)
  }

  /**
   * uploadCandidateWithResume: 400 before any Drive call when no file is given.
   * The folder is created and every file uploaded before the single save, so a
   * Drive failure answers 500 with the store unchanged; a failed save leaves
   * the Drive folder behind. The optional mail to `forwardToLeads` goes out
   * after the save, and its failure alone turns the answer into 500.
   */
  method UploadCandidateWithResume(db: Db, body: UploadBody, files: seq<string>, userEmail: Option<string>,
                                   userRole: string, now: Instant, createFolder: string -> Option<string>,
                                   uploadFile: (string, string) -> bool, delivers: Notice -> bool)
    returns (code: int, driveCalls: seq<DriveCall>, saved: Option<Candidate>, notices: seq<Notice>)
    requires db.Valid()
    modifies db`candidates, db`nextOid
    ensures db.Valid()
    ensures code == 201 || code == 400 || code == 500
    ensures code == 400 <==> files == []
    ensures files == [] || body.name.None? || body.email.None? ==> driveCalls == [] && saved == None
    ensures files != [] && body.name.Some? && body.email.Some? ==>
      var folderName := FolderName(body.email.value);
      driveCalls == [CreateFolder(folderName)] +
        match createFolder(folderName)
        case None => []
        case Some(folderId) => UploadCalls(files, folderId)
    ensures saved.None? ==> db.candidates == old(db.candidates) && notices == []
    ensures saved.Some? ==>
      && files != [] && body.name.Some? && body.email.Some?
      && DriveSucceeded(body.email.value, files, createFolder, uploadFile)
      && var folderId := createFolder(FolderName(body.email.value)).value;
      && saved.value == UploadedCandidate(saved.value.oid, body, body.name.value, body.email.value, now,
                                          folderId, userEmail, userRole)
      && old(db.OidUnused(saved.value.oid))
      && db.candidates == old(db.candidates) + [saved.value]
    ensures files != [] && body.name.Some? && body.email.Some?
            && DriveSucceeded(body.email.value, files, createFolder, uploadFile) ==>
      (saved.Some? <==> UploadValid(body, body.name.value, body.email.value)
                        && !old(db.CandidateIdTaken(UploadCandidateId(body.name.value, now))))
    ensures saved.Some? ==>
      notices == if body.forwardToLeads.Some? && body.forwardToLeads.value != []
                 then [Notice(body.forwardToLeads.value, saved.value.candidateId)] else []
    ensures code == 201 <==> saved.Some? && AllDelivered(notices, delivers)
    ensures files != [] && body.requirementId.None? ==> saved.None? && code == 500
  {
    driveCalls, saved, notices := [], None, [];
    if files == [] {
      code := 400;
      return;
    }
    if body.name.None? || body.email.None? {
      code := 500;
      return;
    }
    var name, email := body.name.value, body.email.value;
    var folderName := FolderName(email);
    driveCalls := [CreateFolder(folderName)];
    var folder := createFolder(folderName);
    if folder.None? {
      code := 500;
      return;
    }
    var folderId := folder.value;
    driveCalls := driveCalls + UploadCalls(files, folderId);
    if !(forall i :: 0 <= i < |files| ==> uploadFile(files[i], folderId)) {
      code := 500;
      return;
    }
    if body.requirementId.None? {
      UploadWithoutRequirementIdRefused(0, body, name, email, now, folderId, userEmail, userRole);
    }
    code, saved, notices := SaveUpload(db, body, name, email, now, folderId, userEmail, userRole, delivers);
  }

  /**
   * The save and the optional mail that follow a completed Drive upload: the
   * document is appended exactly when it validates and its id is free, and only
   * then is `forwardToLeads` mailed.
   */
  method SaveUpload(db: Db, body: UploadBody, name: string, email: string, now: Instant, folderId: string,
                    userEmail: Option<string>, userRole: string, delivers: Notice -> bool)
    returns (code: int, saved: Option<Candidate>, notices: seq<Notice>)
    requires db.Valid()
    modifies db`candidates, db`nextOid
    ensures db.Valid()
    ensures code == 201 || code == 500
    ensures saved.None? ==> db.candidates == old(db.candidates) && notices == []
    ensures saved.Some? ==>
      && saved.value == UploadedCandidate(saved.value.oid, body, name, email, now, folderId, userEmail, userRole)
      && old(db.OidUnused(saved.value.oid))
      && db.candidates == old(db.candidates) + [saved.value]
    ensures saved.Some? <==> UploadValid(body, name, email) && !old(db.CandidateIdTaken(UploadCandidateId(name, now)))
    ensures saved.Some? ==>
      notices == if body.forwardToLeads.Some? && body.forwardToLeads.value != []
                 then [Notice(body.forwardToLeads.value, saved.value.candidateId)] else []
    ensures code == 201 <==> saved.Some? && AllDelivered(notices, delivers)
  {
    saved, notices := None, [];
    var oid := db.NewOid();
    var c := UploadedCandidate(oid, body, name, email, now, folderId, userEmail, userRole);
    UploadedCandidateValid(oid, body, name, email, now, folderId, userEmail, userRole);
    var ok := db.SaveCandidate(c);
    if !ok {
      code := 500;
      return;
    }
    saved := Some(c);
    if body.forwardToLeads.Some? && body.forwardToLeads.value != [] {
      notices := [Notice(body.forwardToLeads.value, c.candidateId)];
    }
    code := if AllDelivered(notices, delivers) then 201 else 500;
  }

  /** A candidate as the queues return it: the document plus the titles of its requirements. */
  datatype Enriched = Enriched(candidate: Candidate, requirementTitles: seq<string>)

  /** The last requirement in `rs` with business id `id`; in the title map later entries overwrite earlier ones. */
  function LastWithId(rs: seq<Requirement>, id: string): (r: Option<Requirement>)
    ensures r.Some? ==> r.value in rs && r.value.requirementId == id
    ensures r.None? <==> forall i :: 0 <= i < |rs| ==> rs[i].requirementId != id
  {
    if rs == [] then None
    else if rs[|rs| - 1].requirementId == id then Some(rs[|rs| - 1])
    else LastWithId(rs[..|rs| - 1], id)
  }

  /**
   * The title a queue shows for requirement id `id`: the requirement's title,
   * or the id itself when no requirement has it or its title is empty.
   */
  function TitleFor(rs: seq<Requirement>, id: string): (t: string)
    ensures t == id || exists r :: r in rs && r.requirementId == id && r.title == t
    ensures t != "" || id == ""
  {
    match LastWithId(rs, id)
    case None => id
    case Some(r) => if r.title != "" then r.title else id
  }

  function TitlesFor(rs: seq<Requirement>, ids: seq<string>): (ts: seq<string>)
    ensures |ts| == |ids|
    ensures forall k :: 0 <= k < |ids| ==> ts[k] == TitleFor(rs, ids[k])
  {
    seq(|ids|, k requires 0 <= k < |ids| => TitleFor(rs, ids[k]))
  }

  /** With unique requirement ids, the title shown is that of the one requirement with the id. */
  lemma TitleOfUniqueRequirement(rs: seq<Requirement>, i: nat)
    requires RequirementKeysUnique(rs) && i < |rs|
    ensures TitleFor(rs, rs[i].requirementId) == if rs[i].title != "" then rs[i].title else rs[i].requirementId
  {
    var r := LastWithId(rs, rs[i].requirementId).value;
    var j :| 0 <= j < |rs| && rs[j] == r;
    assert j == i;
  }

  /** The ids of the given candidates' requirements, a scalar id counting as a one-element list. */
  function ReferencedIds(cs: seq<Candidate>): (ids: set<string>)
    ensures forall id :: id in ids ==> exists i :: 0 <= i < |cs| && id in IdsOf(cs[i].requirementId)
  {
    if cs == [] then {}
    else
      var init := cs[..|cs| - 1];
      assert forall i :: 0 <= i < |init| ==> init[i] == cs[i];
      ReferencedIds(init) + IdSet(IdsOf(cs[|cs| - 1].requirementId))
  }

  function IdSet(ids: seq<string>): (r: set<string>)
    ensures forall id :: id in r <==> id in ids
  {
    set id | id in ids
  }

  lemma {:induction false} ReferencedIdsContain(cs: seq<Candidate>, i: nat, id: string)
    requires i < |cs| && id in IdsOf(cs[i].requirementId)
    ensures id in ReferencedIds(cs)
  {
    if i < |cs| - 1 {
      ReferencedIdsContain(cs[..|cs| - 1], i, id);
    }
  }

  /** `Requirement.find({ requirementId: { $in: ids } })`, in collection order. */
  function RequirementsWithIds(rs: seq<Requirement>, ids: set<string>): (r: seq<Requirement>)
    ensures |r| <= |rs|
  {
    if rs == [] then []
    else
      var last := rs[|rs| - 1];
      RequirementsWithIds(rs[..|rs| - 1], ids) + (if last.requirementId in ids then [last] else [])
  }

  /** Fetching only the referenced requirements changes no title. */
  lemma {:induction false} LastWithIdOfFetched(rs: seq<Requirement>, ids: set<string>, id: string)
    requires id in ids
    ensures LastWithId(RequirementsWithIds(rs, ids), id) == LastWithId(rs, id)
  {
    if rs != [] {
      var init, last := rs[..|rs| - 1], rs[|rs| - 1];
      LastWithIdOfFetched(init, ids, id);
      var fetched := RequirementsWithIds(rs, ids);
      var fetchedInit := RequirementsWithIds(init, ids);
      if last.requirementId in ids {
        assert fetched == fetchedInit + [last];
        assert fetched[..|fetched| - 1] == fetchedInit;
        assert fetched[|fetched| - 1] == last;
      } else {
        assert fetched == fetchedInit;
        assert LastWithId(rs, id) == LastWithId(init, id);
      }
    }
  }

  /** `reqMap[r.requirementId] = r.title || r.requirementId`, requirement by requirement. */
  function TitleMap(rs: seq<Requirement>): (m: map<string, string>)
    ensures m.Keys == set r | r in rs :: r.requirementId
    ensures forall id :: id in m ==> m[id] != "" || id == ""
  {
    if rs == [] then map[]
    else
      var init, last := rs[..|rs| - 1], rs[|rs| - 1];
      assert rs == init + [last];
      TitleMap(init)[last.requirementId := if last.title != "" then last.title else last.requirementId]
  }

  /** `reqMap[id] || id` over the map the loop builds agrees with the title of the last matching requirement. */
  lemma {:induction false} TitleMapAgrees(rs: seq<Requirement>, id: string)
    ensures id in TitleMap(rs) <==> LastWithId(rs, id).Some?
    ensures (if id in TitleMap(rs) && TitleMap(rs)[id] != "" then TitleMap(rs)[id] else id) == TitleFor(rs, id)
  {
    if rs != [] {
      TitleMapAgrees(rs[..|rs| - 1], id);
    }
  }

  /** `ids.map(id => reqMap[id] || id)` */
  function TitlesFromMap(ids: seq<string>, m: map<string, string>): (ts: seq<string>)
    ensures |ts| == |ids|
  {
    seq(|ids|, k requires 0 <= k < |ids| => if ids[k] in m && m[ids[k]] != "" then m[ids[k]] else ids[k])
  }

  /**
   * The join shared by the three queues: collect the referenced ids in a set,
   * fetch those requirements, build the id-to-title map, and give every
   * candidate the titles of its ids, in the order of its id list.
   */
  method EnrichWithTitles(cs: seq<Candidate>, rs: seq<Requirement>) returns (out: seq<Enriched>)
    ensures |out| == |cs|
    ensures forall i :: 0 <= i < |cs| ==>
      out[i] == Enriched(cs[i], TitlesFor(rs, IdsOf(cs[i].requirementId)))
  {
    var wanted := CollectRequirementIds(cs);
    var found := RequirementsWithIds(rs, wanted);
    var reqMap := BuildTitleMap(found);
    out := seq(|cs|, n requires 0 <= n < |cs| => Enriched(cs[n], TitlesFromMap(IdsOf(cs[n].requirementId), reqMap)));
    forall n | 0 <= n < |cs|
      ensures out[n] == Enriched(cs[n], TitlesFor(rs, IdsOf(cs[n].requirementId)))
    {
      ReferencedIdsContainAll(cs, n);
      FetchedTitlesAgree(rs, wanted, IdsOf(cs[n].requirementId));
    }
  }

  /** The `Set` of every requirement id the candidates reference. */
  method CollectRequirementIds(cs: seq<Candidate>) returns (wanted: set<string>)
    ensures wanted == ReferencedIds(cs)
  {
    wanted := {};
    var i := 0;
    while i < |cs|
      invariant 0 <= i <= |cs|
      invariant wanted == ReferencedIds(cs[..i])
    {
      var ids := IdsOf(cs[i].requirementId);
      var k := 0;
      while k < |ids|
        invariant 0 <= k <= |ids|
        invariant wanted == ReferencedIds(cs[..i]) + IdSet(ids[..k])
      {
        assert ids[..k + 1] == ids[..k] + [ids[k]];
        wanted := wanted + {ids[k]};
        k := k + 1;
      }
      assert ids[..k] == ids;
      assert cs[..i + 1][..i] == cs[..i];
      i := i + 1;
    }
    assert cs[..i] == cs;
  }

  /** `reqMap`: each fetched requirement's title by its id, the id itself for an empty title; later entries win. */
  method BuildTitleMap(found: seq<Requirement>) returns (reqMap: map<string, string>)
    ensures reqMap == TitleMap(found)
  {
    reqMap := map[];
    var j := 0;
    while j < |found|
      invariant 0 <= j <= |found|
      invariant reqMap == TitleMap(found[..j])
    {
      var r := found[j];
      assert found[..j + 1][..j] == found[..j];
      reqMap := reqMap[r.requirementId := if r.title != "" then r.title else r.requirementId];
      j := j + 1;
    }
    assert found[..j] == found;
  }

  lemma ReferencedIdsContainAll(cs: seq<Candidate>, n: nat)
    requires n < |cs|
    ensures forall id :: id in IdsOf(cs[n].requirementId) ==> id in ReferencedIds(cs)
  {
    forall id | id in IdsOf(cs[n].requirementId) ensures id in ReferencedIds(cs) {
      ReferencedIdsContain(cs, n, id);
    }
  }

  /** The titles read from the map built over the fetched requirements are the titles over the whole collection. */
  lemma FetchedTitlesAgree(rs: seq<Requirement>, wanted: set<string>, ids: seq<string>)
    requires forall id :: id in ids ==> id in wanted
    ensures TitlesFromMap(ids, TitleMap(RequirementsWithIds(rs, wanted))) == TitlesFor(rs, ids)
  {
    var found := RequirementsWithIds(rs, wanted);
    forall k | 0 <= k < |ids|
      ensures TitlesFromMap(ids, TitleMap(found))[k] == TitleFor(rs, ids[k])
    {
      TitleMapAgrees(found, ids[k]);
      LastWithIdOfFetched(rs, wanted, ids[k]);
    }
  }

  /** Soft delete: `isDeleted` false or absent. */
  predicate NotDeleted(c: Candidate) {
    c.isDeleted != Some(true)
  }

  const LeadQueueStatuses: set<string> := {"submitted", "forwarded-to-sales", "new"}

  /** getLeadsCandidates' query: a queue status, and not soft-deleted. */
  function LeadCandidates(cs: seq<Candidate>): (v: seq<Candidate>)
    ensures forall c :: c in v <==> c in cs && c.status in LeadQueueStatuses && NotDeleted(c)
    ensures multiset(v) <= multiset(cs)
  {
    Filter(cs, (c: Candidate) => c.status in LeadQueueStatuses && NotDeleted(c))
  }

  /** getSalesCandidates' query: forwarded to sales, with no soft-delete filter. */
  function SalesCandidates(cs: seq<Candidate>): (v: seq<Candidate>)
    ensures forall c :: c in v <==> c in cs && c.status == "forwarded-to-sales"
    ensures multiset(v) <= multiset(cs)
  {
    Filter(cs, (c: Candidate) => c.status == "forwarded-to-sales")
  }

  /**
   * getRecruiterCandidates' query: added by the recruiter and not soft-deleted.
   * The query object repeats the `$or` key, so the soft-delete clause replaces
   * the source-role clause, and the source role plays no part.
   */
  function RecruiterCandidates(cs: seq<Candidate>, userEmail: string): (v: seq<Candidate>)
    ensures forall c :: c in v <==> c in cs && c.addedBy == Some(userEmail) && NotDeleted(c)
    ensures multiset(v) <= multiset(cs)
  {
    Filter(cs, (c: Candidate) => c.addedBy == Some(userEmail) && NotDeleted(c))
  }

  /** What `JSON.parse(s)` gives, as far as the handler reads it: a failure, or the `email` property ("" when absent or falsy). */
  datatype Parsed = NotJson | Json(email: string)

  /**
   * The `forwardedBy` the handler stores: from an object its `email`, from
   * anything else `JSON.parse(x)?.email || x`, and "unknown" for a falsy result.
   * `null` (whose `email` cannot be read), a missing value and a string that is
   * not JSON throw, and the request fails with 500.
   */
  function ResolveForwardedBy(v: Value, parse: string -> Parsed): (r: Result<string, int>)
    ensures r.Err? <==> v.Null? || v.Missing? || (v.Str? && parse(v.s).NotJson?)
    ensures r.Err? ==> r.error == 500
    ensures r.Ok? ==> r.value != ""
    ensures v.Obj? && v.email != "" ==> r == Ok(v.email)
  {
    match v
    case Missing => Err(500)
    case Null => Err(500)
    case Obj(email) => Ok(if email != "" then email else "unknown")
    case List(_) => Ok("unknown")
    case Str(s) =>
      (match parse(s)
       case NotJson => Err(500)
       case Json(email) =>
         var chosen := if email != "" then email else s;
         Ok(if chosen != "" then chosen else "unknown"))
    case Bool(b) => Ok(if b then "true" else "unknown")
    case Num(n) => Ok(if n != 0 then IntToString(n) else "unknown")
  }

  /** An object and a JSON string that carry the same e-mail are resolved alike. */
  lemma ForwardedByEncodingsAgree(email: string, s: string, parse: string -> Parsed)
    requires email != "" && parse(s) == Json(email)
    ensures ResolveForwardedBy(Obj(email), parse) == ResolveForwardedBy(Str(s), parse) == Ok(email)
  {
  }

  /** The forward update: exactly status, source role and `forwardedBy` change. */
  function Forwarded(c: Candidate, sender: string): (f: Candidate)
    ensures f.status == "forwarded-to-sales" && f.sourceRole == "leads" && f.forwardedBy == Some(sender)
    ensures f.(status := c.status, sourceRole := c.sourceRole, forwardedBy := c.forwardedBy) == c
    ensures ValidCandidate(c) ==> ValidCandidate(f)
  {
    c.(status := "forwarded-to-sales", sourceRole := "leads", forwardedBy := Some(sender))
  }

  /** The collection after forwarding the candidate with `_id` `oid`. */
  function ForwardedIn(cs: seq<Candidate>, oid: Oid, sender: string): (r: seq<Candidate>)
    ensures |r| == |cs|
    ensures forall i :: 0 <= i < |cs| ==> r[i] == if cs[i].oid == oid then Forwarded(cs[i], sender) else cs[i]
  {
    UpdateCandidateWith(cs, oid, (c: Candidate) => Forwarded(c, sender))
  }

  /**
   * forwardCandidateToSales: 500 when `forwardedBy` cannot be resolved;
   * otherwise the candidate with that `_id` is forwarded and the answer is
   * success, with no candidate at all when the id is unknown.
   */
  method ForwardCandidateToSales(db: Db, candidateOid: Oid, forwardedBy: Value, parse: string -> Parsed)
    returns (code: int, candidate: Option<Candidate>)
    requires db.Valid()
    modifies db`candidates
    ensures db.Valid()
    ensures code == 200 || code == 500
    ensures code == 500 <==> ResolveForwardedBy(forwardedBy, parse).Err?
    ensures code == 500 ==> db.candidates == old(db.candidates) && candidate == None
    ensures code == 200 ==>
      var sender := ResolveForwardedBy(forwardedBy, parse).value;
      && db.candidates == ForwardedIn(old(db.candidates), candidateOid, sender)
      && candidate == match CandidateById(old(db.candidates), candidateOid)
                      case None => None
                      case Some(c) => Some(Forwarded(c, sender))
  {
    var resolved := ResolveForwardedBy(forwardedBy, parse);
    if resolved.Err? {
      code, candidate := 500, None;
      return;
    }
    var sender := resolved.value;
    ghost var before := db.candidates;
    candidate := db.FindCandidateAndUpdate(candidateOid, (c: Candidate) => Forwarded(c, sender));
    assert db.candidates == ForwardedIn(before, candidateOid, sender);
    code := 200;
  }

  /**
   * A forwarded candidate that was not soft-deleted shows in the sales queue and
   * stays in the lead queue.
   */
  lemma ForwardedCandidateInQueues(cs: seq<Candidate>, oid: Oid, sender: string)
    requires CandidateById(cs, oid).Some? && NotDeleted(CandidateById(cs, oid).value)
    ensures var f := Forwarded(CandidateById(cs, oid).value, sender);
      var after := ForwardedIn(cs, oid, sender);
      f in SalesCandidates(after) && f in LeadCandidates(after)
  {
    var c := CandidateById(cs, oid).value;
    var i :| 0 <= i < |cs| && cs[i] == c;
    assert ForwardedIn(cs, oid, sender)[i] == Forwarded(c, sender);
  }

  /** The update updateCandidateFields builds; `None` for a field it leaves out. */
  datatype FieldUpdate = FieldUpdate(isActive: Option<bool>, candidateUpdate: Option<string>)

  /**
   * `isActive` is taken only when it is a boolean; `candidate_update` only when
   * it is a string that is not blank, and then as given, untrimmed.
   */
  function FieldUpdateOf(isActive: Value, candidateUpdate: Value): (u: FieldUpdate)
    ensures u.isActive.Some? <==> isActive.Bool?
    ensures u.isActive.Some? ==> u.isActive.value == isActive.b
    ensures u.candidateUpdate.Some? <==> candidateUpdate.Str? && Trim(candidateUpdate.s) != ""
    ensures u.candidateUpdate.Some? ==> u.candidateUpdate.value == candidateUpdate.s
  {
    FieldUpdate(
      if isActive.Bool? then Some(isActive.b) else None,
      if candidateUpdate.Str? && Trim(candidateUpdate.s) != "" then Some(candidateUpdate.s) else None)
  }

  /** The supplied fields replaced, and nothing else. */
  function ApplyFieldUpdate(c: Candidate, u: FieldUpdate): (d: Candidate)
    ensures d.isActive == (if u.isActive.Some? then u.isActive else c.isActive)
    ensures d.candidateUpdate == (if u.candidateUpdate.Some? then u.candidateUpdate else c.candidateUpdate)
    ensures d.(isActive := c.isActive, candidateUpdate := c.candidateUpdate) == c
  {
    c.(isActive := if u.isActive.Some? then u.isActive else c.isActive,
       candidateUpdate := if u.candidateUpdate.Some? then u.candidateUpdate else c.candidateUpdate)
  }

  /**
   * `findByIdAndUpdate` runs no validators: a valid candidate stays valid after
   * a `candidate_update` exactly when the value is one of the enum's.
   */
  lemma CandidateUpdateBypassesEnum(c: Candidate, value: string)
    requires ValidCandidate(c)
    ensures ValidCandidate(ApplyFieldUpdate(c, FieldUpdate(None, Some(value)))) <==> value in CandidateUpdates
  {
  }

  /** The collection after the field update of the candidate with `_id` `oid`. */
  function FieldsUpdatedIn(cs: seq<Candidate>, oid: Oid, u: FieldUpdate): (r: seq<Candidate>)
    ensures |r| == |cs|
    ensures forall i :: 0 <= i < |cs| ==> r[i] == if cs[i].oid == oid then ApplyFieldUpdate(cs[i], u) else cs[i]
  {
    UpdateCandidateWith(cs, oid, (c: Candidate) => ApplyFieldUpdate(c, u))
  }

  /** Sending the same update twice leaves the collection as sending it once. */
  lemma FieldsUpdateIdempotent(cs: seq<Candidate>, oid: Oid, u: FieldUpdate)
    ensures FieldsUpdatedIn(FieldsUpdatedIn(cs, oid, u), oid, u) == FieldsUpdatedIn(cs, oid, u)
  {
    var once := FieldsUpdatedIn(cs, oid, u);
    var twice := FieldsUpdatedIn(once, oid, u);
    forall i | 0 <= i < |cs| ensures twice[i] == once[i] {
      if cs[i].oid == oid {
        assert once[i].oid == oid;
      }
    }
  }

  /**
   * updateCandidateFields: 400 without a candidate id, 400 when neither field
   * applies, 404 when no candidate has that `_id`; otherwise the supplied fields
   * are replaced and the updated document returned.
   */
  method UpdateCandidateFields(db: Db, candidateOid: Option<Oid>, isActive: Value, candidateUpdate: Value)
    returns (code: int, updated: Option<Candidate>)
    requires db.Valid()
    modifies db`candidates
    ensures db.Valid()
    ensures code == 200 || code == 400 || code == 404
    ensures code == 400 <==> candidateOid.None? || FieldUpdateOf(isActive, candidateUpdate) == FieldUpdate(None, None)
    ensures code == 400 ==> db.candidates == old(db.candidates) && updated == None
    ensures code != 400 ==>
      var u := FieldUpdateOf(isActive, candidateUpdate);
      && db.candidates == FieldsUpdatedIn(old(db.candidates), candidateOid.value, u)
      && match CandidateById(old(db.candidates), candidateOid.value)
         case None => code == 404 && updated == None
         case Some(c) => code == 200 && updated == Some(ApplyFieldUpdate(c, u))
  {
    if candidateOid.None? {
      code, updated := 400, None;
      return;
    }
    var u := FieldUpdateOf(isActive, candidateUpdate);
    if u == FieldUpdate(None, None) {
      code, updated := 400, None;
      return;
    }
    ghost var before := db.candidates;
    updated := db.FindCandidateAndUpdate(candidateOid.value, (c: Candidate) => ApplyFieldUpdate(c, u));
    assert db.candidates == FieldsUpdatedIn(before, candidateOid.value, u);
    code := if updated.None? then 404 else 200;
  }
}

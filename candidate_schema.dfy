/**
 * model/Candidate.js: the stored candidate record, the values its enum paths
 * admit and its defaults.
 */
module CandidateSchema {
  import opened Wrappers
  import opened Text
  import opened RequirementSchema

  const CandidateStatuses: set<string> := {"submitted", "forwarded-to-leads", "forwarded-to-sales"}

  /** `candidate_update`: nine review outcomes, no default. */
  const CandidateUpdates: set<string> := {
    "L1-cleared", "selected", "rejected", "Waiting-for-update", "To-be-interviewed",
    "Decision-pending", "submitted", "internal-rejection", "submitted-to-client"}

  /** `lead_update`: the empty default and eight outcomes; unlike `candidate_update` it has no "submitted". */
  const LeadUpdates: set<string> := {
    "", "L1-cleared", "selected", "rejected", "Waiting-for-update", "To-be-interviewed",
    "Decision-pending", "internal-rejection", "submitted-to-client"}

  const Relocations: set<string> := {"Yes", "No", "yes", "no"}

  /** A requirement reference as a document may hold it: a legacy single id, or the schema's list. */
  datatype IdList = OneId(id: string) | IdArray(ids: seq<string>)

  /** `Array.isArray(x) ? x : [x]` */
  function IdsOf(l: IdList): (ids: seq<string>)
    ensures l.OneId? ==> ids == [l.id]
    ensures l.IdArray? ==> ids == l.ids
  {
    match l
    case OneId(id) => [id]
    case IdArray(ids) => ids
  }

  /**
   * A stored candidate. `isActive` and `isDeleted` are `None` for a document
   * that lacks the path. The free-text attributes (rate, source, location,
   * passport, SSN digits, LinkedIn, visa, client details, notes) are not carried.
   */
  datatype Candidate = Candidate(
    oid: Oid,
    candidateId: string,
    name: string,
    email: string,
    phone: string,
    role: string,
    relocation: Option<string>,
    requirementId: IdList,
    sourceRole: string,
    status: string,
    isActive: Option<bool>,
    isDeleted: Option<bool>,
    candidateUpdate: Option<string>,
    leadUpdate: string,
    addedBy: Option<string>,
    forwardedBy: Option<string>,
    resumeUrls: seq<string>,
    folderId: Option<string>)

  /**
   * What `save()` validates: the required paths (name, email, phone, role,
   * sourceRole and every listed requirement id) are non-empty, and every enum
   * path holds one of its values.
   */
  predicate ValidCandidate(c: Candidate) {
    && c.name != "" && c.email != "" && c.phone != "" && c.role != "" && c.sourceRole != ""
    && c.requirementId.IdArray?
    && (forall id :: id in c.requirementId.ids ==> id != "")
    && c.status in CandidateStatuses
    && (c.relocation.Some? ==> c.relocation.value in Relocations)
    && (c.candidateUpdate.Some? ==> c.candidateUpdate.value in CandidateUpdates)
    && c.leadUpdate in LeadUpdates
  }

  /**
   * A new document built from the given paths with the schema's setters applied
   * (`name` trimmed, `email` lower-cased and trimmed, the id list cast to an
   * array) and every other path at its default: status "submitted", `isActive`
   * and `isDeleted` false, `lead_update` "", no `candidate_update`.
   */
  function NewDocument(oid: Oid, candidateId: string, name: string, email: string, phone: string,
                       role: string, requirementIds: seq<string>, sourceRole: string): (c: Candidate)
    ensures c.status == "submitted" && c.isActive == Some(false) && c.isDeleted == Some(false)
    ensures c.leadUpdate == "" && c.candidateUpdate == None
    ensures c.name == Trim(name) && c.email == LowerTrim(email)
    ensures IdsOf(c.requirementId) == requirementIds
    ensures ValidCandidate(c) <==>
      && Trim(name) != "" && LowerTrim(email) != "" && phone != "" && role != "" && sourceRole != ""
      && (forall id :: id in requirementIds ==> id != "")
  {
    Candidate(oid, candidateId, Trim(name), LowerTrim(email), phone, role, None,
              IdArray(requirementIds), sourceRole, "submitted", Some(false), Some(false),
              None, "", None, None, [], None)
  }

  /** The lead queue asks for status "new", a value no valid candidate can hold. */
  lemma NewIsNotACandidateStatus(c: Candidate)
    requires ValidCandidate(c)
    ensures c.status != "new"
  {
  }

  /** Two stored candidates never share a `candidateId` (the path's unique index), nor an `_id`. */
  predicate CandidateKeysUnique(cs: seq<Candidate>) {
    forall i, j :: 0 <= i < j < |cs| ==> cs[i].oid != cs[j].oid && cs[i].candidateId != cs[j].candidateId
  }
}

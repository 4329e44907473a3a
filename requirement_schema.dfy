/**
 * model/Requirement.js: the stored requirement record, the values its enum
 * paths admit, its defaults, and the setters that normalise the three
 * e-mail lists.
 */
module RequirementSchema {
  import opened Wrappers
  import opened Text

  /** A document's database key `_id`. */
  type Oid = nat

  const Priorities: set<string> := {"High", "Medium", "Low"}
  const WorkflowStatuses: set<string> := {"new", "leadAssigned", "recruiterAssigned", "inProgress", "closed"}
  const RequirementStatuses: set<string> := {"open", "closed"}
  const Durations: set<string> := {"longterm", "shortterm"}
  const WorkAuthorizations: set<string> :=
    {"USC", "GC", "GC-EAD", "H1B", "H4-EAD", "TN", "L2-EAD", "OPT", "Other"}

  const DefaultWorkflowStatus := "new"
  const DefaultRequirementStatus := "open"

  /**
   * A stored requirement. `recruiterAssignedTo` is `None` for a document that
   * lacks the path altogether, which the unassigned views test for. The free-text
   * job attributes (client, locations, employment type, work setting, rate,
   * primary skills) are not carried.
   */
  datatype Requirement = Requirement(
    oid: Oid,
    requirementId: string,
    title: string,
    description: string,
    createdBy: string,
    leadAssignedTo: seq<string>,
    recruiterAssignedTo: Option<seq<string>>,
    recruiterAssignedBy: seq<string>,
    priority: string,
    status: string,
    requirementStatus: string,
    workAuthorization: seq<string>,
    duration: string,
    createdAt: nat)

  /** The setter on the three e-mail lists: `emails.map((e) => e.toLowerCase().trim())`. */
  function NormaliseEmails(emails: seq<string>): (r: seq<string>)
    ensures |r| == |emails|
    ensures forall i :: 0 <= i < |r| ==> r[i] == LowerTrim(emails[i])
  {
    seq(|emails|, i requires 0 <= i < |emails| => LowerTrim(emails[i]))
  }

  /** Every element the setter stores is lower-case and has no surrounding white space. */
  predicate Normalised(emails: seq<string>) {
    forall i :: 0 <= i < |emails| ==> LowerTrim(emails[i]) == emails[i]
  }

  /** The setter keeps length and order, its output is normalised, and applying it twice equals applying it once. */
  lemma NormaliseEmailsIdempotent(emails: seq<string>)
    ensures Normalised(NormaliseEmails(emails))
    ensures NormaliseEmails(NormaliseEmails(emails)) == NormaliseEmails(emails)
  {
    forall i | 0 <= i < |emails| ensures LowerTrim(LowerTrim(emails[i])) == LowerTrim(emails[i]) {
      LowerTrimIdempotent(emails[i]);
    }
  }

  /**
   * What `Requirement.create` validates before it writes: the required paths
   * (title, description, createdBy, requirementId, duration) are present and
   * every enum path holds one of its values.
   */
  predicate ValidRequirement(r: Requirement) {
    && r.title != "" && r.description != "" && r.createdBy != "" && r.requirementId != ""
    && r.priority in Priorities
    && r.status in WorkflowStatuses
    && r.requirementStatus in RequirementStatuses
    && r.duration in Durations
    && (forall w :: w in r.workAuthorization ==> w in WorkAuthorizations)
  }

  /**
   * A requirement built from its required paths with every other path at its
   * schema default: no assignees, no work authorisations, workflow status "new",
   * requirement status "open". `priority` has no default in the schema; the
   * only writer sets "Medium" when none is given, and so does this.
   */
  function WithDefaults(oid: Oid, requirementId: string, title: string, description: string,
                        createdBy: string, duration: string, createdAt: nat): (r: Requirement)
    ensures r.status == "new" && r.requirementStatus == "open" && r.priority == "Medium"
    ensures r.leadAssignedTo == [] && r.recruiterAssignedTo == Some([]) && r.recruiterAssignedBy == []
    ensures r.workAuthorization == [] && r.createdBy == LowerTrim(createdBy)
    ensures ValidRequirement(r) <==>
      title != "" && description != "" && LowerTrim(createdBy) != "" && requirementId != "" && duration in Durations
  {
    Requirement(oid, requirementId, title, description, LowerTrim(createdBy), [], Some([]), [],
                "Medium", DefaultWorkflowStatus, DefaultRequirementStatus, [], duration, createdAt)
  }

  /** Two stored requirements never share a `requirementId` (the path's unique index), nor an `_id`. */
  predicate RequirementKeysUnique(rs: seq<Requirement>) {
    forall i, j :: 0 <= i < j < |rs| ==> rs[i].oid != rs[j].oid && rs[i].requirementId != rs[j].requirementId
  }
}

/**
 * The two collections the handlers read and write, and the document-level
 * operations they use: `create`/`save` (validate, check the unique index,
 * append), `findById`, `findByIdAndUpdate` and `updateMany` keyed by `_id`.
 */
module Store {
  import opened Wrappers
  import opened RequirementSchema
  import opened CandidateSchema

  /** `findById(oid)` on a collection whose documents carry their `_id` as `key`: the first document with that key. */
  function ById<T>(docs: seq<T>, key: T -> Oid, oid: Oid): (r: Option<T>)
    ensures r.Some? ==> r.value in docs && key(r.value) == oid
    ensures r.None? <==> forall i :: 0 <= i < |docs| ==> key(docs[i]) != oid
  {
    if docs == [] then None
    else if key(docs[0]) == oid then Some(docs[0])
    else ById(docs[1..], key, oid)
  }

  function RequirementOid(r: Requirement): Oid { r.oid }

  function CandidateOid(c: Candidate): Oid { c.oid }

  /** `Requirement.findById(oid)` */
  function RequirementById(rs: seq<Requirement>, oid: Oid): Option<Requirement> {
    ById(rs, RequirementOid, oid)
  }

  /** `Candidate.findById(oid)` */
  function CandidateById(cs: seq<Candidate>, oid: Oid): Option<Candidate> {
    ById(cs, CandidateOid, oid)
  }

  /** The collection after an update `f` of every requirement whose `_id` is in `ids`; the rest are kept as they are. */
  function UpdateRequirementsIn(rs: seq<Requirement>, ids: set<Oid>, f: Requirement -> Requirement): (r: seq<Requirement>)
    ensures |r| == |rs|
    ensures forall i :: 0 <= i < |rs| ==> r[i] == if rs[i].oid in ids then f(rs[i]) else rs[i]
  {
    seq(|rs|, i requires 0 <= i < |rs| => if rs[i].oid in ids then f(rs[i]) else rs[i])
  }

  /** The collection after an update `f` of the candidate with `_id` `oid`. */
  function UpdateCandidateWith(cs: seq<Candidate>, oid: Oid, f: Candidate -> Candidate): (r: seq<Candidate>)
    ensures |r| == |cs|
    ensures forall i :: 0 <= i < |cs| ==> r[i] == if cs[i].oid == oid then f(cs[i]) else cs[i]
  {
    seq(|cs|, i requires 0 <= i < |cs| => if cs[i].oid == oid then f(cs[i]) else cs[i])
  }

  /** Updating by key twice with an idempotent update is updating once. */
  lemma UpdateCandidateIdempotent(cs: seq<Candidate>, oid: Oid, f: Candidate -> Candidate)
    requires forall c :: f(c).oid == c.oid && f(f(c)) == f(c)
    ensures UpdateCandidateWith(UpdateCandidateWith(cs, oid, f), oid, f) == UpdateCandidateWith(cs, oid, f)
  {
    var once := UpdateCandidateWith(cs, oid, f);
    var twice := UpdateCandidateWith(once, oid, f);
    forall i | 0 <= i < |cs| ensures twice[i] == once[i] {
      if cs[i].oid == oid {
        assert once[i] == f(cs[i]) && once[i].oid == oid;
      }
    }
  }

  class Db {
    var requirements: seq<Requirement>
    var candidates: seq<Candidate>
    /** Keys handed out so far are all below this one. */
    var nextOid: Oid

    /** Keys and business ids are unique in each collection, and every key was handed out. */
    ghost predicate Valid()
      reads this
    {
      && RequirementKeysUnique(requirements)
      && CandidateKeysUnique(candidates)
      && (forall i :: 0 <= i < |requirements| ==> requirements[i].oid < nextOid)
      && (forall i :: 0 <= i < |candidates| ==> candidates[i].oid < nextOid)
    }

    /** No stored document has key `oid`. */
    predicate OidUnused(oid: Oid)
      reads this
    {
      && (forall i :: 0 <= i < |requirements| ==> requirements[i].oid != oid)
      && (forall i :: 0 <= i < |candidates| ==> candidates[i].oid != oid)
    }

    predicate RequirementIdTaken(requirementId: string)
      reads this
    {
      exists i :: 0 <= i < |requirements| && requirements[i].requirementId == requirementId
    }

    predicate CandidateIdTaken(candidateId: string)
      reads this
    {
      exists i :: 0 <= i < |candidates| && candidates[i].candidateId == candidateId
    }

    constructor ()
      ensures Valid() && requirements == [] && candidates == []
    {
      requirements, candidates, nextOid := [], [], 0;
    }

    /** A fresh ObjectId for a document about to be built. */
    method NewOid() returns (oid: Oid)
      requires Valid()
      modifies this`nextOid
      ensures Valid() && OidUnused(oid) && oid < nextOid
    {
      oid := nextOid;
      nextOid := nextOid + 1;
    }

    /** `Requirement.create(doc)`: validation, then the unique index on `requirementId`, then the insert. */
    method CreateRequirement(r: Requirement) returns (ok: bool)
      requires Valid() && OidUnused(r.oid) && r.oid < nextOid
      modifies this`requirements
      ensures Valid()
      ensures ok <==> ValidRequirement(r) && !old(RequirementIdTaken(r.requirementId))
      ensures requirements == if ok then old(requirements) + [r] else old(requirements)
    {
      ok := ValidRequirement(r) && !RequirementIdTaken(r.requirementId);
      if ok {
        requirements := requirements + [r];
      }
    }

    /** `candidate.save()`: validation, then the unique index on `candidateId`, then the insert. */
    method SaveCandidate(c: Candidate) returns (ok: bool)
      requires Valid() && OidUnused(c.oid) && c.oid < nextOid
      modifies this`candidates
      ensures Valid()
      ensures ok <==> ValidCandidate(c) && !old(CandidateIdTaken(c.candidateId))
      ensures candidates == if ok then old(candidates) + [c] else old(candidates)
    {
      ok := ValidCandidate(c) && !CandidateIdTaken(c.candidateId);
      if ok {
        candidates := candidates + [c];
      }
    }

    /** `Requirement.updateMany({ _id: { $in: ids } }, update)`: no validators run. */
    method UpdateRequirements(ids: set<Oid>, f: Requirement -> Requirement)
      requires Valid()
      requires forall r :: f(r).oid == r.oid && f(r).requirementId == r.requirementId
      modifies this`requirements
      ensures Valid()
      ensures requirements == UpdateRequirementsIn(old(requirements), ids, f)
    {
      requirements := UpdateRequirementsIn(requirements, ids, f);
    }

    /** `Requirement.findByIdAndUpdate(oid, update, { new: true })`: the updated document, or none. */
    method FindRequirementAndUpdate(oid: Oid, f: Requirement -> Requirement) returns (updated: Option<Requirement>)
      requires Valid()
      requires forall r :: f(r).oid == r.oid && f(r).requirementId == r.requirementId
      modifies this`requirements
      ensures Valid()
      ensures requirements == UpdateRequirementsIn(old(requirements), {oid}, f)
      ensures updated == match RequirementById(old(requirements), oid)
                         case Some(r) => Some(f(r))
                         case None => None
    {
      var found := RequirementById(requirements, oid);
      requirements := UpdateRequirementsIn(requirements, {oid}, f);
      updated := match found case Some(r) => Some(f(r)) case None => None;
    }

    /** `Candidate.findByIdAndUpdate(oid, update, { new: true })`: the updated document, or none. */
    method FindCandidateAndUpdate(oid: Oid, f: Candidate -> Candidate) returns (updated: Option<Candidate>)
      requires Valid()
      requires forall c :: f(c).oid == c.oid && f(c).candidateId == c.candidateId
      modifies this`candidates
      ensures Valid()
      ensures candidates == UpdateCandidateWith(old(candidates), oid, f)
      ensures updated == match CandidateById(old(candidates), oid)
                         case Some(c) => Some(f(c))
                         case None => None
    {
      var found := CandidateById(candidates, oid);
      candidates := UpdateCandidateWith(candidates, oid, f);
      updated := match found case Some(c) => Some(f(c)) case None => None;
    }
  }
}

/**
 * routes/stats.routes.js: the sales dashboard's figures, each a count over one
 * of the two collections. The route's `isDeleted: false` matches a stored
 * `false` only, so documents without the path are left out of every candidate
 * figure, while the candidate queues show them.
 */
module SalesDashboard {
  import opened Wrappers
  import opened RequirementSchema
  import opened CandidateSchema
  import RequirementController
  import CandidateController

  /** The review outcomes the dashboard reports, in report order. */
  const CandidateStages: seq<string> :=
    ["L1-cleared", "selected", "rejected", "Waiting-for-update", "To-be-interviewed", "Decision-pending", "submitted"]

  /** `Requirement.countDocuments({ requirementStatus: status })` */
  function RequirementCount(rs: seq<Requirement>, status: string): (n: nat)
    ensures n <= |rs|
  {
    if rs == [] then 0
    else RequirementCount(rs[..|rs| - 1], status) + (if rs[|rs| - 1].requirementStatus == status then 1 else 0)
  }

  /** `isDeleted: false` as a query: a stored false, not a missing path. */
  predicate Live(c: Candidate) {
    c.isDeleted == Some(false)
  }

  /** The candidates any candidate figure can count. */
  function LiveCount(cs: seq<Candidate>): (n: nat)
    ensures n <= |cs|
  {
    if cs == [] then 0
    else LiveCount(cs[..|cs| - 1]) + (if Live(cs[|cs| - 1]) then 1 else 0)
  }

  /** The documents the `$match` stage keeps: live, with a `candidate_update` among `stages`. */
  function StagedCount(cs: seq<Candidate>, stages: set<string>): (n: nat)
    ensures n <= LiveCount(cs)
  {
    if cs == [] then 0
    else
      var c := cs[|cs| - 1];
      StagedCount(cs[..|cs| - 1], stages)
      + (if Live(c) && c.candidateUpdate.Some? && c.candidateUpdate.value in stages then 1 else 0)
  }

  /** One group of the `$group` stage: live documents whose `candidate_update` is `stage`. */
  function StageCount(cs: seq<Candidate>, stage: string): (n: nat)
    ensures n == StagedCount(cs, {stage})
  {
    if cs == [] then 0
    else
      var c := cs[|cs| - 1];
      StageCount(cs[..|cs| - 1], stage) + (if Live(c) && c.candidateUpdate == Some(stage) then 1 else 0)
  }

  /** Live candidates with `isActive` stored as `active`. */
  function ActivityCount(cs: seq<Candidate>, active: bool): (n: nat)
    ensures n <= LiveCount(cs)
  {
    if cs == [] then 0
    else ActivityCount(cs[..|cs| - 1], active) + (if Live(cs[|cs| - 1]) && cs[|cs| - 1].isActive == Some(active) then 1 else 0)
  }

  /** The per-stage counts added up in the order of `stages`. */
  function StageSum(cs: seq<Candidate>, stages: seq<string>): nat {
    if stages == [] then 0 else StageCount(cs, stages[0]) + StageSum(cs, stages[1..])
  }

  /** Counting a set of stages is counting one of them and then the rest. */
  lemma {:induction false} StagedCountSplit(cs: seq<Candidate>, stage: string, stages: set<string>)
    requires stage in stages
    ensures StagedCount(cs, stages) == StageCount(cs, stage) + StagedCount(cs, stages - {stage})
  {
    if cs != [] {
      StagedCountSplit(cs[..|cs| - 1], stage, stages);
    }
  }

  predicate Distinct(s: seq<string>) {
    forall i, j :: 0 <= i < j < |s| ==> s[i] != s[j]
  }

  /**
   * The groups partition the matched documents: with distinct stages, the
   * per-stage counts add up to the number of documents the `$match` keeps.
   */
  lemma {:induction false} StageSumIsStagedCount(cs: seq<Candidate>, stages: seq<string>)
    requires Distinct(stages)
    ensures StageSum(cs, stages) == StagedCount(cs, set s | s in stages)
  {
    if stages == [] {
      assert (set s | s in stages) == {};
      EmptyStagesCountNothing(cs);
    } else {
      var all := set s | s in stages;
      var rest := set s | s in stages[1..];
      assert rest == all - {stages[0]} by {
        forall s ensures s in rest <==> s in all && s != stages[0] {
          if s in rest {
            var j :| 0 <= j < |stages[1..]| && stages[1..][j] == s;
            assert stages[j + 1] == s;
          }
          if s in all && s != stages[0] {
            var j :| 0 <= j < |stages| && stages[j] == s;
            assert stages[1..][j - 1] == s;
          }
        }
      }
      StagedCountSplit(cs, stages[0], all);
      StageSumIsStagedCount(cs, stages[1..]);
    }
  }

  lemma {:induction false} EmptyStagesCountNothing(cs: seq<Candidate>)
    ensures StagedCount(cs, {}) == 0
  {
    if cs != [] {
      EmptyStagesCountNothing(cs[..|cs| - 1]);
    }
  }

  /** No live candidate is counted both as active and as inactive. */
  lemma {:induction false} ActivityWithinLive(cs: seq<Candidate>)
    ensures ActivityCount(cs, true) + ActivityCount(cs, false) <= LiveCount(cs)
  {
    if cs != [] {
      ActivityWithinLive(cs[..|cs| - 1]);
    }
  }

  /** When every live candidate stores `isActive`, each is counted exactly once, as active or as inactive. */
  lemma {:induction false} ActivityCoversLive(cs: seq<Candidate>)
    requires forall i :: 0 <= i < |cs| ==> Live(cs[i]) ==> cs[i].isActive.Some?
    ensures ActivityCount(cs, true) + ActivityCount(cs, false) == LiveCount(cs)
  {
    if cs != [] {
      var init, last := cs[..|cs| - 1], cs[|cs| - 1];
      assert forall i :: 0 <= i < |init| ==> init[i] == cs[i];
      ActivityCoversLive(init);
      if Live(last) {
        assert last.isActive.Some?;
        if last.isActive.value {
          assert last.isActive == Some(true);
        } else {
          assert last.isActive == Some(false);
        }
      }
    }
  }

  /** The response body. */
  datatype DashboardStats = DashboardStats(
    activeRequirements: nat,
    closedRequirements: nat,
    activeCandidates: nat,
    inactiveCandidates: nat,
    candidateStats: map<string, nat>)

  /** The `reduce` over the stages: each stage's group count, 0 for a stage with no group. */
  function CandidateStats(cs: seq<Candidate>): (m: map<string, nat>)
    ensures m.Keys == set s | s in CandidateStages
    ensures forall s :: s in m ==> m[s] == StageCount(cs, s)
  {
    map s | s in CandidateStages :: StageCount(cs, s)
  }

  /** GET /sales-dashboard */
  function Dashboard(rs: seq<Requirement>, cs: seq<Candidate>): (d: DashboardStats)
    ensures d.activeRequirements + d.closedRequirements <= |rs|
    ensures d.activeCandidates + d.inactiveCandidates <= LiveCount(cs)
    ensures d.candidateStats == CandidateStats(cs)
  {
    ActivityWithinLive(cs);
    OpenAndClosedDisjoint(rs);
    DashboardStats(
      RequirementCount(rs, "open"),
      RequirementCount(rs, "closed"),
      ActivityCount(cs, true),
      ActivityCount(cs, false),
      CandidateStats(cs))
  }

  lemma {:induction false} OpenAndClosedDisjoint(rs: seq<Requirement>)
    ensures RequirementCount(rs, "open") + RequirementCount(rs, "closed") <= |rs|
  {
    if rs != [] {
      OpenAndClosedDisjoint(rs[..|rs| - 1]);
    }
  }

  /** The seven reported counts add up to the documents the `$match` keeps, never more than the live candidates. */
  lemma ReportedStagesTotal(cs: seq<Candidate>)
    ensures StageSum(cs, CandidateStages) == StagedCount(cs, set s | s in CandidateStages)
    ensures StageSum(cs, CandidateStages) <= LiveCount(cs)
  {
    StageSumIsStagedCount(cs, CandidateStages);
  }

  /** Two values `candidate_update` admits are never reported. */
  lemma UnreportedUpdates(cs: seq<Candidate>)
    ensures "internal-rejection" in CandidateUpdates && "internal-rejection" !in CandidateStats(cs)
    ensures "submitted-to-client" in CandidateUpdates && "submitted-to-client" !in CandidateStats(cs)
  {
    assert forall i :: 0 <= i < |CandidateStages| ==> CandidateStages[i] != "internal-rejection";
    assert forall i :: 0 <= i < |CandidateStages| ==> CandidateStages[i] != "submitted-to-client";
  }

  /** A candidate that is not stored as live changes no figure on the dashboard. */
  lemma {:induction false} UnmarkedCandidateUncounted(rs: seq<Requirement>, cs: seq<Candidate>, c: Candidate)
    requires !Live(c)
    ensures Dashboard(rs, cs + [c]) == Dashboard(rs, cs)
  {
    var more := cs + [c];
    assert more[..|cs|] == cs;
    forall s | s in CandidateStages ensures StageCount(more, s) == StageCount(cs, s) {
    }
    assert CandidateStats(more) == CandidateStats(cs);
  }

  /**
   * A legacy candidate with no `isDeleted` path, submitted and awaiting review,
   * is in the lead queue and yet changes no dashboard figure.
   */
  lemma LegacyCandidateQueuedButUncounted(rs: seq<Requirement>, cs: seq<Candidate>, c: Candidate)
    requires c.isDeleted.None? && c.status == "submitted"
    ensures c in CandidateController.LeadCandidates(cs + [c])
    ensures Dashboard(rs, cs + [c]) == Dashboard(rs, cs)
  {
    UnmarkedCandidateUncounted(rs, cs, c);
  }

  /** Replacing one requirement moves the counts only by what that requirement contributed. */
  lemma {:induction false} RequirementCountUpdate(rs: seq<Requirement>, i: nat, r: Requirement, status: string)
    requires i < |rs|
    ensures RequirementCount(rs[i := r], status) + (if rs[i].requirementStatus == status then 1 else 0)
         == RequirementCount(rs, status) + (if r.requirementStatus == status then 1 else 0)
  {
    var last := |rs| - 1;
    var updated := rs[i := r];
    assert RequirementCount(rs, status) == RequirementCount(rs[..last], status)
      + (if rs[last].requirementStatus == status then 1 else 0);
    assert RequirementCount(updated, status) == RequirementCount(updated[..last], status)
      + (if updated[last].requirementStatus == status then 1 else 0);
    if i == last {
      assert updated[..last] == rs[..last];
    } else {
      assert updated[..last] == rs[..last][i := r];
      assert updated[last] == rs[last];
      RequirementCountUpdate(rs[..last], i, r, status);
    }
  }

  /**
   * Closing an open requirement through the status update moves it from the
   * open count to the closed count, one each way.
   */
  lemma ClosingMovesOneRequirement(rs: seq<Requirement>, i: nat)
    requires RequirementKeysUnique(rs) && i < |rs| && rs[i].requirementStatus == "open"
    ensures var after := RequirementController.StatusUpdatedIn(rs, rs[i].oid, "closed");
      && RequirementCount(after, "open") + 1 == RequirementCount(rs, "open")
      && RequirementCount(after, "closed") == RequirementCount(rs, "closed") + 1
  {
    var closed := RequirementController.WithRequirementStatus(rs[i], "closed");
    var after := RequirementController.StatusUpdatedIn(rs, rs[i].oid, "closed");
    assert after == rs[i := closed] by {
      forall j | 0 <= j < |rs| ensures after[j] == rs[i := closed][j] {
        if j != i {
          assert rs[j].oid != rs[i].oid;
        }
      }
    }
    RequirementCountUpdate(rs, i, closed, "open");
    RequirementCountUpdate(rs, i, closed, "closed");
  }
}

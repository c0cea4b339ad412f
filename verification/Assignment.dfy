/** Assigning jobs to a workflow: the control service rewrites its job and priority-group rows
    statement by statement, and the celery side then processes the same request on its own
    copy of the job settings. */
module Assignment {
  import opened Wrappers

  type JobId = string
  type WorkflowId = string
  type GroupId = string

  // ---------------------------------------------------------------- requests

  /** A listed job: its id alone, or an object whose delay may be null. An object without a
      delay is read by both services as one with delay 0. */
  datatype JobEntry = Bare(id: JobId) | WithDelay(id: JobId, delay: Option<int>)

  datatype GroupRequest = GroupRequest(jobs: seq<JobEntry>, priority: Option<int>, ignoreResult: Option<bool>)

  function DelayOf(e: JobEntry): Option<int> {
    if e.WithDelay? then e.delay else Some(0)
  }

  function OrZero(delay: Option<int>): int {
    if delay.Some? then delay.value else 0
  }

  /** One mention of a job: the group it is in and what that group says. */
  datatype Listing = Listing(job: JobId, group: nat, priority: int, ignoreResult: bool, delay: Option<int>)

  function PriorityOf(r: GroupRequest): int {
    if r.priority.Some? then r.priority.value else 0
  }

  function IgnoreOf(r: GroupRequest): bool {
    r.ignoreResult == Some(true)
  }

  function GroupListings(r: GroupRequest, n: nat): seq<Listing> {
    seq(|r.jobs|, k requires 0 <= k < |r.jobs| =>
      Listing(r.jobs[k].id, n, PriorityOf(r), IgnoreOf(r), DelayOf(r.jobs[k])))
  }

  /** Every mention of the first `n` groups, in order. */
  function Listings(rs: seq<GroupRequest>, n: nat): seq<Listing>
    requires n <= |rs|
  {
    if n == 0 then [] else Listings(rs, n - 1) + GroupListings(rs[n - 1], n - 1)
  }

  /** The last mention of a job decides. */
  function LastListing(ls: seq<Listing>, j: JobId): Option<Listing> {
    if ls == [] then None
    else if ls[|ls| - 1].job == j then Some(ls[|ls| - 1])
    else LastListing(ls[..|ls| - 1], j)
  }

  lemma {:induction false} LastAppend(a: seq<Listing>, b: seq<Listing>, j: JobId)
    ensures LastListing(a + b, j) == if LastListing(b, j).Some? then LastListing(b, j) else LastListing(a, j)
    decreases |b|
  {
    if b == [] {
      assert a + b == a;
    } else {
      var n := |b| - 1;
      assert (a + b)[..|a + b| - 1] == a + b[..n];
      LastAppend(a, b[..n], j);
    }
  }

  lemma {:induction false} LastIsListed(ls: seq<Listing>, j: JobId)
    ensures LastListing(ls, j).Some? <==> exists k :: 0 <= k < |ls| && ls[k].job == j
    ensures LastListing(ls, j).Some? ==> LastListing(ls, j).value in ls && LastListing(ls, j).value.job == j
    decreases |ls|
  {
    if ls != [] && ls[|ls| - 1].job != j {
      LastIsListed(ls[..|ls| - 1], j);
      if LastListing(ls, j).None? {
        forall k | 0 <= k < |ls| ensures ls[k].job != j {
          if k < |ls| - 1 {
            assert ls[..|ls| - 1][k] == ls[k];
          }
        }
      }
    }
  }

  function Mentioned(ls: seq<Listing>): set<JobId> {
    set l | l in ls :: l.job
  }

  function IdsOf(r: GroupRequest): set<JobId> {
    set e | e in r.jobs :: e.id
  }

  lemma MentionedNext(ls: seq<Listing>, r: GroupRequest, n: nat)
    ensures Mentioned(ls + GroupListings(r, n)) == Mentioned(ls) + IdsOf(r)
  {
    var b := GroupListings(r, n);
    forall e | e in r.jobs ensures e.id in Mentioned(ls + b) {
      var k :| 0 <= k < |r.jobs| && r.jobs[k] == e;
      assert b[k] in ls + b;
    }
    forall l | l in b ensures l.job in IdsOf(r) {
      var k :| 0 <= k < |b| && b[k] == l;
      assert r.jobs[k] in r.jobs;
    }
    forall l | l in ls ensures l in ls + b {}
  }

  lemma LastMentioned(ls: seq<Listing>, j: JobId)
    ensures LastListing(ls, j).Some? <==> j in Mentioned(ls)
    ensures LastListing(ls, j).Some? ==> LastListing(ls, j).value in ls && LastListing(ls, j).value.job == j
  {
    LastIsListed(ls, j);
    if j in Mentioned(ls) {
      var l :| l in ls && l.job == j;
      var k :| 0 <= k < |ls| && ls[k] == l;
    }
  }

  /** Entry `k` of group `g` is the last mention of the job in the first `n` groups. */
  ghost predicate LastMention(rs: seq<GroupRequest>, n: nat, j: JobId, g: nat, k: nat)
    requires n <= |rs|
  {
    && g < n && k < |rs[g].jobs| && rs[g].jobs[k].id == j
    && (forall l :: k < l < |rs[g].jobs| ==> rs[g].jobs[l].id != j)
    && (forall h :: g < h < n ==> NotIn(rs[h], j))
  }

  ghost predicate NotIn(r: GroupRequest, j: JobId) {
    forall l :: 0 <= l < |r.jobs| ==> r.jobs[l].id != j
  }

  /** The first `n` groups do not mention the job. */
  ghost predicate Unmentioned(rs: seq<GroupRequest>, n: nat, j: JobId)
    requires n <= |rs|
  {
    forall h :: 0 <= h < n ==> NotIn(rs[h], j)
  }

  lemma {:induction false} LastOf(ls: seq<Listing>, j: JobId, k: nat)
    requires k < |ls| && ls[k].job == j && forall l :: k < l < |ls| ==> ls[l].job != j
    ensures LastListing(ls, j) == Some(ls[k])
    decreases |ls|
  {
    if k < |ls| - 1 {
      LastOf(ls[..|ls| - 1], j, k);
    }
  }

  lemma NoneOf(r: GroupRequest, n: nat, j: JobId)
    requires NotIn(r, j)
    ensures LastListing(GroupListings(r, n), j).None?
  {
    LastIsListed(GroupListings(r, n), j);
  }

  /** What the last mention says: the priority and flag of its group, and its own delay, which is 0
      for a bare id. */
  lemma {:induction false} LastListingIs(rs: seq<GroupRequest>, n: nat, j: JobId, g: nat, k: nat)
    requires n <= |rs| && LastMention(rs, n, j, g, k)
    ensures var e := rs[g].jobs[k];
      LastListing(Listings(rs, n), j) == Some(Listing(
        j, g, if rs[g].priority.Some? then rs[g].priority.value else 0, rs[g].ignoreResult == Some(true),
        match e case Bare(_) => Some(0) case WithDelay(_, delay) => delay))
  {
    LastAppend(Listings(rs, n - 1), GroupListings(rs[n - 1], n - 1), j);
    if g == n - 1 {
      LastOf(GroupListings(rs[g], g), j, k);
    } else {
      NoneOf(rs[n - 1], n - 1, j);
      LastListingIs(rs, n - 1, j, g, k);
    }
  }

  lemma {:induction false} UnmentionedIs(rs: seq<GroupRequest>, n: nat, j: JobId)
    requires n <= |rs| && Unmentioned(rs, n, j)
    ensures LastListing(Listings(rs, n), j).None?
  {
    if n > 0 {
      LastAppend(Listings(rs, n - 1), GroupListings(rs[n - 1], n - 1), j);
      NoneOf(rs[n - 1], n - 1, j);
      UnmentionedIs(rs, n - 1, j);
    }
  }

  /** A job that is mentioned is mentioned last somewhere. */
  lemma {:induction false} MentionedLast(rs: seq<GroupRequest>, n: nat, j: JobId) returns (g: nat, k: nat)
    requires n <= |rs| && !Unmentioned(rs, n, j)
    ensures LastMention(rs, n, j, g, k)
  {
    if NotIn(rs[n - 1], j) {
      g, k := MentionedLast(rs, n - 1, j);
    } else {
      g := n - 1;
      k := LastIn(rs[g].jobs, j);
    }
  }

  lemma {:induction false} LastIn(es: seq<JobEntry>, j: JobId) returns (k: nat)
    requires exists l :: 0 <= l < |es| && es[l].id == j
    ensures k < |es| && es[k].id == j && forall l :: k < l < |es| ==> es[l].id != j
    decreases |es|
  {
    k := |es| - 1;
    if es[k].id != j {
      var l :| 0 <= l < |es| && es[l].id == j;
      assert es[..k][l].id == j;
      k := LastIn(es[..k], j);
    }
  }

  // ---------------------------------------------------------------- the control side

  datatype JobRow = JobRow(
    workflow: Option<WorkflowId>, group: Option<GroupId>, priority: Option<int>, ignoreResult: bool, delay: int)

  datatype GroupRow = GroupRow(workflow: WorkflowId, priority: int, ignoreResult: bool)

  const RELEASED := JobRow(None, None, Some(3), false, 0)

  /** `ids` gives the ids drawn for the new group rows, by the position of the group. */
  function AssignedRow(l: Listing, w: WorkflowId, ids: nat -> GroupId): JobRow {
    JobRow(Some(w), Some(ids(l.group)), Some(l.priority), l.ignoreResult, OrZero(l.delay))
  }

  /** The job rows once the mentions `ls` have been written one after the other. */
  function Written(jobs: map<JobId, JobRow>, ls: seq<Listing>, w: WorkflowId, ids: nat -> GroupId): map<JobId, JobRow> {
    map j | j in jobs ::
      if LastListing(ls, j).Some? then AssignedRow(LastListing(ls, j).value, w, ids) else jobs[j]
  }

  function Released(jobs: map<JobId, JobRow>, listed: set<JobId>, w: WorkflowId): map<JobId, JobRow> {
    map j | j in jobs :: if jobs[j].workflow == Some(w) && j !in listed then RELEASED else jobs[j]
  }

  /** No job points to a missing group, and a job's group belongs to the job's workflow. */
  ghost predicate Integrity(jobs: map<JobId, JobRow>, groups: map<GroupId, GroupRow>) {
    forall j :: j in jobs && jobs[j].group.Some? ==>
      jobs[j].group.value in groups && jobs[j].workflow == Some(groups[jobs[j].group.value].workflow)
  }

  ghost predicate HasGroup(groups: map<GroupId, GroupRow>, w: WorkflowId) {
    exists g :: g in groups && groups[g].workflow == w
  }

  /** A job of a workflow is in one of its groups. */
  ghost predicate Anchored(jobs: map<JobId, JobRow>) {
    forall j :: j in jobs && jobs[j].workflow.Some? ==> jobs[j].group.Some?
  }

  predicate ControlAccepts(jobs: map<JobId, JobRow>, rs: seq<GroupRequest>) {
    forall n :: 0 <= n < |rs| ==> GroupAccepted(jobs, rs[n])
  }

  predicate GroupAccepted(jobs: map<JobId, JobRow>, r: GroupRequest) {
    r.jobs != [] && r.priority.Some? && IdsOf(r) <= jobs.Keys
  }

  /** The group has jobs, all known, and a priority. */
  predicate Complete(known: set<JobId>, r: GroupRequest) {
    r.jobs != [] && r.priority.Some? && forall k :: 0 <= k < |r.jobs| ==> r.jobs[k].id in known
  }

  predicate AllComplete(known: set<JobId>, rs: seq<GroupRequest>) {
    forall n :: 0 <= n < |rs| ==> Complete(known, rs[n])
  }

  lemma AcceptedExactly(jobs: map<JobId, JobRow>, rs: seq<GroupRequest>)
    ensures ControlAccepts(jobs, rs) <==> AllComplete(jobs.Keys, rs)
  {
    forall n | 0 <= n < |rs| ensures GroupAccepted(jobs, rs[n]) <==> Complete(jobs.Keys, rs[n]) {
      KnownIds(rs[n], jobs.Keys);
    }
  }

  lemma KnownIds(r: GroupRequest, known: set<JobId>)
    ensures IdsOf(r) <= known <==> forall k :: 0 <= k < |r.jobs| ==> r.jobs[k].id in known
  {
    if IdsOf(r) <= known {
      forall k | 0 <= k < |r.jobs| ensures r.jobs[k].id in known {
        assert r.jobs[k] in r.jobs;
      }
    }
  }

  lemma WrittenNext(jobs: map<JobId, JobRow>, ls: seq<Listing>, l: Listing, w: WorkflowId, ids: nat -> GroupId)
    requires l.job in jobs
    ensures Written(jobs, ls + [l], w, ids) == Written(jobs, ls, w, ids)[l.job := AssignedRow(l, w, ids)]
  {
    assert (ls + [l])[..|ls|] == ls;
  }

  function WithGroups(groups: map<GroupId, GroupRow>, w: WorkflowId, rs: seq<GroupRequest>, ids: nat -> GroupId,
      n: nat): map<GroupId, GroupRow>
    requires n <= |rs|
  {
    if n == 0 then groups
    else WithGroups(groups, w, rs, ids, n - 1)[ids(n - 1) := GroupRow(w, PriorityOf(rs[n - 1]), IgnoreOf(rs[n - 1]))]
  }

  lemma {:induction false} WithGroupsAre(groups: map<GroupId, GroupRow>, w: WorkflowId, rs: seq<GroupRequest>,
      ids: nat -> GroupId, n: nat)
    requires n <= |rs|
    ensures forall g :: g in WithGroups(groups, w, rs, ids, n) <==> g in groups || exists i: nat :: i < n && ids(i) == g
    ensures forall i: nat :: i < n ==>
      ids(i) in WithGroups(groups, w, rs, ids, n) && WithGroups(groups, w, rs, ids, n)[ids(i)].workflow == w
    ensures forall g :: g in groups && (forall i: nat :: i < n ==> ids(i) != g) ==>
      WithGroups(groups, w, rs, ids, n)[g] == groups[g]
  {
    if n > 0 {
      WithGroupsAre(groups, w, rs, ids, n - 1);
    }
  }

  ghost predicate NewIds(groups: map<GroupId, GroupRow>, ids: nat -> GroupId, n: nat) {
    && (forall i: nat :: i < n ==> ids(i) !in groups)
    && (forall i: nat, k: nat :: i < k < n ==> ids(i) != ids(k))
  }

  /** The id drawn for the next group is still free. */
  lemma NextIdIsFree(groups: map<GroupId, GroupRow>, w: WorkflowId, rs: seq<GroupRequest>, ids: nat -> GroupId, n: nat)
    requires NewIds(groups, ids, |rs|) && n < |rs|
    ensures ids(n) !in WithGroups(groups, w, rs, ids, n)
  {
    WithGroupsAre(groups, w, rs, ids, n);
  }

  /** What an accepted assignment leaves behind: the jobs of the workflow are exactly the listed
      ones, each with the group, priority, flag and delay of its last mention; unlisted jobs
      of the workflow are released; all other rows are as before; and the groups of the
      workflow are exactly the new ones. */
  ghost predicate Assigned(
    jobs: map<JobId, JobRow>, jobs': map<JobId, JobRow>,
    groups: map<GroupId, GroupRow>, groups': map<GroupId, GroupRow>,
    w: WorkflowId, rs: seq<GroupRequest>, ids: nat -> GroupId)
  {
    && jobs'.Keys == jobs.Keys
    && (forall j :: j in jobs ==>
      var last := LastListing(Listings(rs, |rs|), j);
      jobs'[j] ==
        if last.Some? then AssignedRow(last.value, w, ids)
        else if jobs[j].workflow == Some(w) then RELEASED
        else jobs[j])
    && (forall g :: g in groups' && groups'[g].workflow == w <==> exists i: nat :: i < |rs| && ids(i) == g)
    && (forall g :: g in groups && groups[g].workflow != w ==> g in groups' && groups'[g] == groups[g])
    && (forall g :: g in groups' && groups'[g].workflow != w ==> g in groups)
  }

  /** The tables after the first `n` groups, and the ids listed so far. */
  ghost predicate AfterGroups(
    jobs: map<JobId, JobRow>, groups: map<GroupId, GroupRow>, listed: set<JobId>,
    jobs0: map<JobId, JobRow>, groups0: map<GroupId, GroupRow>, w: WorkflowId, rs: seq<GroupRequest>,
      ids: nat -> GroupId, n: nat)
    requires n <= |rs|
  {
    && jobs == Written(jobs0, Listings(rs, n), w, ids)
    && groups == WithGroups(groups0, w, rs, ids, n)
    && listed == Mentioned(Listings(rs, n))
  }

  lemma NoGroupYet(jobs: map<JobId, JobRow>, groups: map<GroupId, GroupRow>, w: WorkflowId, rs: seq<GroupRequest>,
      ids: nat -> GroupId)
    ensures AfterGroups(jobs, groups, {}, jobs, groups, w, rs, ids, 0)
  {}

  lemma NextGroup(
    jobs: map<JobId, JobRow>, groups: map<GroupId, GroupRow>, listed: set<JobId>,
    jobs0: map<JobId, JobRow>, groups0: map<GroupId, GroupRow>, w: WorkflowId, rs: seq<GroupRequest>,
      ids: nat -> GroupId, n: nat)
    requires n < |rs|
    requires groups == WithGroups(groups0, w, rs, ids, n)[ids(n) := GroupRow(w, PriorityOf(rs[n]), IgnoreOf(rs[n]))]
    requires jobs == Written(jobs0, Listings(rs, n) + GroupListings(rs[n], n), w, ids)
    requires listed == Mentioned(Listings(rs, n)) + IdsOf(rs[n])
    ensures AfterGroups(jobs, groups, listed, jobs0, groups0, w, rs, ids, n + 1)
  {
    MentionedNext(Listings(rs, n), rs[n], n);
  }

  lemma {:induction false} ListingGroups(rs: seq<GroupRequest>, n: nat)
    requires n <= |rs|
    ensures forall l :: l in Listings(rs, n) ==>
      l.group < n && l.priority == PriorityOf(rs[l.group]) && l.ignoreResult == IgnoreOf(rs[l.group])
  {
    if n > 0 {
      ListingGroups(rs, n - 1);
      forall l | l in GroupListings(rs[n - 1], n - 1)
        ensures l.group == n - 1 && l.priority == PriorityOf(rs[n - 1]) && l.ignoreResult == IgnoreOf(rs[n - 1])
      {}
    }
  }

  function AfterRelease(jobs: map<JobId, JobRow>, w: WorkflowId, rs: seq<GroupRequest>,
      ids: nat -> GroupId): map<JobId, JobRow>
  {
    Released(Written(jobs, Listings(rs, |rs|), w, ids), Mentioned(Listings(rs, |rs|)), w)
  }

  lemma AfterReleaseIs(jobs: map<JobId, JobRow>, w: WorkflowId, rs: seq<GroupRequest>, ids: nat -> GroupId, j: JobId)
    requires j in jobs
    ensures var last := LastListing(Listings(rs, |rs|), j);
      AfterRelease(jobs, w, rs, ids)[j] ==
        if last.Some? then AssignedRow(last.value, w, ids)
        else if jobs[j].workflow == Some(w) then RELEASED
        else jobs[j]
  {
    LastMentioned(Listings(rs, |rs|), j);
  }

  /** After the release, a job in a group of the workflow is in a new one. */
  lemma OnlyNewGroups(
    jobs0: map<JobId, JobRow>, groups: map<GroupId, GroupRow>, w: WorkflowId, rs: seq<GroupRequest>,
      ids: nat -> GroupId, j: JobId)
    requires Integrity(AfterRelease(jobs0, w, rs, ids), groups) && j in jobs0
    requires var row := AfterRelease(jobs0, w, rs, ids)[j]; row.group.Some? && groups[row.group.value].workflow == w
    ensures exists i: nat :: i < |rs| && ids(i) == AfterRelease(jobs0, w, rs, ids)[j].group.value
  {
    AfterReleaseIs(jobs0, w, rs, ids, j);
    LastMentioned(Listings(rs, |rs|), j);
    ListingGroups(rs, |rs|);
    assert AfterRelease(jobs0, w, rs, ids)[j].workflow == Some(w);
  }

  function Remaining(groups: map<GroupId, GroupRow>, w: WorkflowId, keep: set<GroupId>): map<GroupId, GroupRow> {
    map g | g in groups && (groups[g].workflow != w || g in keep) :: groups[g]
  }

  /** The group rows an accepted request leaves: those of other workflows, and the new ones. */
  function AfterCleaning(
    groups: map<GroupId, GroupRow>, w: WorkflowId, rs: seq<GroupRequest>, ids: nat -> GroupId): map<GroupId, GroupRow>
  {
    Remaining(WithGroups(groups, w, rs, ids, |rs|), w, set i: nat | i < |rs| :: ids(i))
  }

  /** The same in the terms of the request: a job it lists has the group and the settings of its
      last mention, an unlisted job of the workflow is released, any other is as it was. */
  ghost predicate RowsSet(jobs: map<JobId, JobRow>, jobs': map<JobId, JobRow>, w: WorkflowId, rs: seq<GroupRequest>,
      ids: nat -> GroupId)
  {
    && jobs'.Keys == jobs.Keys
    && (forall j, g: nat, k: nat :: j in jobs && LastMention(rs, |rs|, j, g, k) ==>
      RowFrom(jobs'[j], rs[g], rs[g].jobs[k], w, ids(g)))
    && forall j :: j in jobs && Unmentioned(rs, |rs|, j) ==>
      jobs'[j] == if jobs[j].workflow == Some(w) then JobRow(None, None, Some(3), false, 0) else jobs[j]
  }

  /** A missing or null delay is stored as 0, a missing or null flag as off. */
  predicate RowFrom(row: JobRow, r: GroupRequest, e: JobEntry, w: WorkflowId, id: GroupId) {
    && row.workflow == Some(w) && row.group == Some(id)
    && row.priority == r.priority && row.ignoreResult == (r.ignoreResult == Some(true))
    && row.delay == if e.WithDelay? && e.delay.Some? then e.delay.value else 0
  }

  /** The groups of the workflow are the requested ones. */
  ghost predicate GroupsSet(groups: map<GroupId, GroupRow>, w: WorkflowId, rs: seq<GroupRequest>, ids: nat -> GroupId) {
    && (forall g :: g in groups && groups[g].workflow == w ==> exists i: nat :: i < |rs| && ids(i) == g)
    && forall i: nat :: i < |rs| ==> ids(i) in groups && GroupFrom(groups[ids(i)], w, rs[i])
  }

  predicate GroupFrom(row: GroupRow, w: WorkflowId, r: GroupRequest) {
    && row.workflow == w && Some(row.priority) == r.priority
    && row.ignoreResult == (r.ignoreResult == Some(true))
  }

  /** The control side has carried out the request: both descriptions hold. */
  ghost predicate CarriedOutBy(
    jobs: map<JobId, JobRow>, jobs': map<JobId, JobRow>,
    groups: map<GroupId, GroupRow>, groups': map<GroupId, GroupRow>,
    w: WorkflowId, rs: seq<GroupRequest>, ids: nat -> GroupId)
  {
    && Assigned(jobs, jobs', groups, groups', w, rs, ids)
    && RowsSet(jobs, jobs', w, rs, ids) && GroupsSet(groups', w, rs, ids)
  }

  lemma RowsAreSet(jobs: map<JobId, JobRow>, w: WorkflowId, rs: seq<GroupRequest>, ids: nat -> GroupId)
    requires ControlAccepts(jobs, rs)
    ensures RowsSet(jobs, AfterRelease(jobs, w, rs, ids), w, rs, ids)
  {
    forall j, g: nat, k: nat | j in jobs && LastMention(rs, |rs|, j, g, k)
      ensures RowFrom(AfterRelease(jobs, w, rs, ids)[j], rs[g], rs[g].jobs[k], w, ids(g))
    {
      AfterReleaseIs(jobs, w, rs, ids, j);
      LastListingIs(rs, |rs|, j, g, k);
      assert GroupAccepted(jobs, rs[g]);
    }
    forall j | j in jobs && Unmentioned(rs, |rs|, j)
      ensures AfterRelease(jobs, w, rs, ids)[j] ==
        if jobs[j].workflow == Some(w) then JobRow(None, None, Some(3), false, 0) else jobs[j]
    {
      AfterReleaseIs(jobs, w, rs, ids, j);
      UnmentionedIs(rs, |rs|, j);
    }
  }

  lemma {:induction false} NewGroupRows(groups: map<GroupId, GroupRow>, w: WorkflowId, rs: seq<GroupRequest>,
      ids: nat -> GroupId, n: nat)
    requires NewIds(groups, ids, |rs|) && n <= |rs|
    requires forall i :: 0 <= i < n ==> rs[i].priority.Some?
    ensures var groups' := WithGroups(groups, w, rs, ids, n);
      forall i: nat :: i < n ==> ids(i) in groups' && GroupFrom(groups'[ids(i)], w, rs[i])
  {
    if n > 0 {
      NewGroupRows(groups, w, rs, ids, n - 1);
    }
  }

  lemma GroupsAreSet(jobs: map<JobId, JobRow>, groups: map<GroupId, GroupRow>, w: WorkflowId, rs: seq<GroupRequest>,
      ids: nat -> GroupId)
    requires ControlAccepts(jobs, rs) && NewIds(groups, ids, |rs|)
    ensures GroupsSet(AfterCleaning(groups, w, rs, ids), w, rs, ids)
  {
    forall i | 0 <= i < |rs| ensures rs[i].priority.Some? {
      assert GroupAccepted(jobs, rs[i]);
    }
    NewGroupRows(groups, w, rs, ids, |rs|);
  }

  lemma AssignmentDone(
    jobs: map<JobId, JobRow>, groups: map<GroupId, GroupRow>, w: WorkflowId, rs: seq<GroupRequest>, ids: nat -> GroupId)
    requires NewIds(groups, ids, |rs|)
    ensures Assigned(jobs, AfterRelease(jobs, w, rs, ids), groups, AfterCleaning(groups, w, rs, ids), w, rs, ids)
  {
    WithGroupsAre(groups, w, rs, ids, |rs|);
    forall j | j in jobs
      ensures var last := LastListing(Listings(rs, |rs|), j);
        AfterRelease(jobs, w, rs, ids)[j] ==
          if last.Some? then AssignedRow(last.value, w, ids)
          else if jobs[j].workflow == Some(w) then RELEASED
          else jobs[j]
    {
      AfterReleaseIs(jobs, w, rs, ids, j);
    }
  }

  /** The control side's tables. Each method below is one SQL statement; each keeps integrity,
      so it holds between any two statements. */
  class ControlStore {
    var jobs: map<JobId, JobRow>
    var groups: map<GroupId, GroupRow>

    ghost predicate Valid()
      reads this
    {
      Integrity(jobs, groups)
    }

    method CreateGroup(id: GroupId, row: GroupRow)
      requires Valid() && id !in groups
      modifies this`groups
      ensures Valid() && groups == old(groups)[id := row]
    {
      groups := groups[id := row];
    }

    /** UPDATE … WHERE job_id = id; the row count is returned. */
    method UpdateJob(id: JobId, row: JobRow) returns (count: nat)
      requires Valid()
      requires row.group.Some? && row.group.value in groups && row.workflow == Some(groups[row.group.value].workflow)
      modifies this`jobs
      ensures Valid()
      ensures count == if id in old(jobs) then 1 else 0
      ensures jobs == if id in old(jobs) then old(jobs)[id := row] else old(jobs)
    {
      if id in jobs {
        jobs := jobs[id := row];
        count := 1;
      } else {
        count := 0;
      }
    }

    method ReleaseUnlisted(w: WorkflowId, listed: set<JobId>)
      requires Valid()
      modifies this`jobs
      ensures Valid() && jobs == Released(old(jobs), listed, w)
    {
      jobs := Released(jobs, listed, w);
    }

    /** DELETE of groups; the foreign key forbids it while a job points to one of them. */
    method DeleteGroups(w: WorkflowId, keep: set<GroupId>)
      requires Valid()
      requires forall j :: j in jobs && jobs[j].group.Some? && groups[jobs[j].group.value].workflow == w ==>
        jobs[j].group.value in keep
      modifies this`groups
      ensures Valid()
      ensures groups == Remaining(old(groups), w, keep)
    {
      groups := Remaining(groups, w, keep);
    }

    method UnsetGroups(ids: set<GroupId>)
      requires Valid()
      modifies this`jobs
      ensures Valid()
      ensures jobs == map j | j in old(jobs) ::
        if old(jobs)[j].group.Some? && old(jobs)[j].group.value in ids
        then old(jobs)[j].(workflow := None, group := None, priority := None) else old(jobs)[j]
    {
      jobs := map j | j in jobs ::
        if jobs[j].group.Some? && jobs[j].group.value in ids
        then jobs[j].(workflow := None, group := None, priority := None) else jobs[j];
    }

    /** The jobs of a group, one UPDATE each; it stops at a job that is not there. */
    method AssignListed(
      w: WorkflowId, r: GroupRequest, n: nat, id: GroupId,
      ghost ids: nat -> GroupId, ghost jobs0: map<JobId, JobRow>, ghost ls: seq<Listing>)
      returns (ok: bool)
      requires Valid() && id == ids(n) && id in groups && groups[id].workflow == w && r.priority.Some?
      requires jobs == Written(jobs0, ls, w, ids)
      modifies this`jobs
      ensures Valid()
      ensures ok <==> IdsOf(r) <= jobs0.Keys
      ensures ok ==> jobs == Written(jobs0, ls + GroupListings(r, n), w, ids)
    {
      ghost var all := GroupListings(r, n);
      assert ls + all[..0] == ls;
      for k := 0 to |r.jobs|
        invariant Valid() && jobs == Written(jobs0, ls + all[..k], w, ids)
        invariant forall i :: 0 <= i < k ==> r.jobs[i].id in jobs0
      {
        var e := r.jobs[k];
        assert ls + all[..k + 1] == (ls + all[..k]) + [all[k]];
        if e.id in jobs0 {
          WrittenNext(jobs0, ls + all[..k], all[k], w, ids);
        }
        var count := UpdateJob(e.id, JobRow(Some(w), Some(id), r.priority, IgnoreOf(r), OrZero(DelayOf(e))));
        if count != 1 {
          assert e in r.jobs;
          return false;
        }
      }
      assert all[..|r.jobs|] == all;
      return true;
    }

    /** One group of the request: its new row, then its jobs. */
    method AssignGroup(
      w: WorkflowId, rs: seq<GroupRequest>, n: nat, id: GroupId, listed: set<JobId>,
      ghost ids: nat -> GroupId, ghost jobs0: map<JobId, JobRow>, ghost groups0: map<GroupId, GroupRow>)
      returns (ok: bool, listed': set<JobId>)
      requires Valid() && n < |rs| && id == ids(n) && id !in groups
      requires AfterGroups(jobs, groups, listed, jobs0, groups0, w, rs, ids, n)
      modifies this
      ensures Valid()
      ensures ok <==> GroupAccepted(jobs0, rs[n])
      ensures ok ==> AfterGroups(jobs, groups, listed', jobs0, groups0, w, rs, ids, n + 1)
    {
      var r := rs[n];
      listed' := listed;
      if r.jobs == [] || r.priority == None {
        return false, listed;
      }
      CreateGroup(id, GroupRow(w, r.priority.value, r.ignoreResult == Some(true)));
      ok := AssignListed(w, r, n, id, ids, jobs0, Listings(rs, n));
      if ok {
        listed' := listed + IdsOf(r);
        NextGroup(jobs, groups, listed', jobs0, groups0, w, rs, ids, n);
      }
    }

    method AssignGroups(w: WorkflowId, rs: seq<GroupRequest>, ids: nat -> GroupId)
      returns (ok: bool, listed: set<JobId>)
      requires Valid() && NewIds(groups, ids, |rs|)
      modifies this
      ensures Valid() && (ok <==> ControlAccepts(old(jobs), rs))
      ensures ok ==> AfterGroups(jobs, groups, listed, old(jobs), old(groups), w, rs, ids, |rs|)
    {
      ghost var jobs0, groups0 := jobs, groups;
      ok, listed := true, {};
      NoGroupYet(jobs0, groups0, w, rs, ids);
      for n := 0 to |rs|
        invariant Valid() && AfterGroups(jobs, groups, listed, jobs0, groups0, w, rs, ids, n)
        invariant ok && forall i :: 0 <= i < n ==> GroupAccepted(jobs0, rs[i])
      {
        NextIdIsFree(groups0, w, rs, ids, n);
        ok, listed := AssignGroup(w, rs, n, ids(n), listed, ids, jobs0, groups0);
        if !ok {
          return;
        }
      }
    }

    /** assign_job_to_workflow up to its call of the celery side. The session rolls a refused
        request back. */
    method AssignJobs(w: WorkflowId, rs: seq<GroupRequest>, ids: nat -> GroupId) returns (ok: bool)
      requires Valid() && NewIds(groups, ids, |rs|)
      modifies this
      ensures Valid() && (ok <==> ControlAccepts(old(jobs), rs))
      ensures !ok ==> jobs == old(jobs) && groups == old(groups)
      ensures ok ==> jobs == AfterRelease(old(jobs), w, rs, ids) && groups == AfterCleaning(old(groups), w, rs, ids)
      ensures ok <==> AllComplete(old(jobs).Keys, rs)
      ensures ok ==> Assigned(old(jobs), jobs, old(groups), groups, w, rs, ids)
      ensures ok ==> RowsSet(old(jobs), jobs, w, rs, ids)
    {
      var jobs0, groups0 := jobs, groups;
      AcceptedExactly(jobs, rs);
      var listed;
      ok, listed := AssignGroups(w, rs, ids);
      if !ok {
        jobs, groups := jobs0, groups0;
        return;
      }
      ReleaseUnlisted(w, listed);
      var keep := set i: nat | i < |rs| :: ids(i);
      assert jobs == AfterRelease(jobs0, w, rs, ids);
      forall j | j in jobs && jobs[j].group.Some? && groups[jobs[j].group.value].workflow == w
        ensures jobs[j].group.value in keep
      {
        OnlyNewGroups(jobs0, groups, w, rs, ids, j);
      }
      DeleteGroups(w, keep);
      AssignmentDone(jobs0, groups0, w, rs, ids);
      RowsAreSet(jobs0, w, rs, ids);
    }

    /** delete_workflow_and_update_jobs on the same tables. */
    method DeleteWorkflow(w: WorkflowId) returns (found: bool)
      requires Valid()
      modifies this
      ensures Valid()
      ensures found <==> HasGroup(old(groups), w)
      ensures forall g :: g in groups <==> g in old(groups) && old(groups)[g].workflow != w
      ensures jobs.Keys == old(jobs).Keys
      ensures forall j :: j in jobs ==>
        jobs[j] == if old(jobs)[j].group.Some? && old(jobs)[j].workflow == Some(w)
          then old(jobs)[j].(workflow := None, group := None, priority := None) else old(jobs)[j]
      ensures Anchored(old(jobs)) ==> forall j :: j in jobs ==> jobs[j].workflow != Some(w)
    {
      var ids := set g | g in groups && groups[g].workflow == w;
      if ids == {} {
        assert forall g :: g in groups ==> g !in ids;
        return false;
      }
      assert exists g :: g in ids;
      UnsetGroups(ids);
      DeleteGroups(w, {});
      return true;
    }
  }

  // ---------------------------------------------------------------- the celery side

  datatype Setting = Setting(workflow: Option<WorkflowId>, priority: Option<int>, ignoreResult: bool,
    delay: Option<int>)

  const UNASSIGNED := Setting(None, None, false, Some(0))

  function SettingOf(l: Listing, w: WorkflowId): Setting {
    Setting(Some(w), Some(l.priority), l.ignoreResult, l.delay)
  }

  /** The settings once the mentions `ls` have been processed. */
  function Processed(settings: map<JobId, Setting>, ls: seq<Listing>, w: WorkflowId): map<JobId, Setting> {
    map j | j in settings ::
      if LastListing(ls, j).Some? then SettingOf(LastListing(ls, j).value, w) else settings[j]
  }

  function Unlisted(settings: map<JobId, Setting>, listed: set<JobId>, w: WorkflowId): map<JobId, Setting> {
    map j | j in settings :: if settings[j].workflow == Some(w) && j !in listed then UNASSIGNED else settings[j]
  }

  /** A group on which the processing returns early: its error value is ignored by the caller,
      so what the earlier groups wrote is committed. */
  predicate Skipped(known: set<JobId>, r: GroupRequest) {
    r.jobs == [] || r.priority == None || r.priority == Some(0) || !(IdsOf(r) <= known)
  }

  /** A group on which the processing raises: a null flag cannot be saved, and the scheduler
      refuses priorities outside 1..100 and the jobs not in `schedulable`. */
  predicate Refused(schedulable: set<JobId>, r: GroupRequest) {
    r.ignoreResult == None || PriorityOf(r) <= 0 || PriorityOf(r) > 100 || !(IdsOf(r) <= schedulable)
  }

  function FirstBad(known: set<JobId>, schedulable: set<JobId>, rs: seq<GroupRequest>, from: nat): (n: nat)
    requires from <= |rs|
    ensures from <= n <= |rs|
    ensures forall i :: from <= i < n ==> !Skipped(known, rs[i]) && !Refused(schedulable, rs[i])
    ensures n < |rs| ==> Skipped(known, rs[n]) || Refused(schedulable, rs[n])
    decreases |rs| - from
  {
    if from == |rs| || Skipped(known, rs[from]) || Refused(schedulable, rs[from]) then from
    else FirstBad(known, schedulable, rs, from + 1)
  }

  datatype Reply = Done | Stopped | Raised

  /** The job-to-delay dictionary of a group after its first `n` entries. */
  function Delays(r: GroupRequest, n: nat): map<JobId, Option<int>>
    requires n <= |r.jobs|
  {
    if n == 0 then map[] else Delays(r, n - 1)[r.jobs[n - 1].id := DelayOf(r.jobs[n - 1])]
  }

  lemma {:induction false} DelaysAreLast(r: GroupRequest, g: nat, n: nat, j: JobId)
    requires n <= |r.jobs|
    ensures var last := LastListing(GroupListings(r, g)[..n], j);
      && (last.Some? <==> j in Delays(r, n))
      && (last.Some? ==> last.value == Listing(j, g, PriorityOf(r), IgnoreOf(r), Delays(r, n)[j]))
  {
    if n > 0 {
      var b := GroupListings(r, g);
      assert b[..n][..n - 1] == b[..n - 1];
      DelaysAreLast(r, g, n - 1, j);
    }
  }

  lemma {:induction false} DelayKeys(r: GroupRequest, n: nat)
    requires n <= |r.jobs|
    ensures Delays(r, n).Keys == set k | 0 <= k < n :: r.jobs[k].id
  {
    if n > 0 {
      DelayKeys(r, n - 1);
    }
  }

  lemma AllDelayKeys(r: GroupRequest)
    ensures Delays(r, |r.jobs|).Keys == IdsOf(r)
  {
    DelayKeys(r, |r.jobs|);
    forall e | e in r.jobs ensures e.id in Delays(r, |r.jobs|).Keys {
      var k :| 0 <= k < |r.jobs| && r.jobs[k] == e;
    }
  }

  /** Processing a group is processing its mentions, in whatever order the rows come. */
  lemma ProcessedNext(settings: map<JobId, Setting>, ls: seq<Listing>, r: GroupRequest, g: nat, w: WorkflowId)
    requires r.priority.Some? && r.ignoreResult.Some?
    ensures Processed(settings, ls + GroupListings(r, g), w) ==
      WithRows(Processed(settings, ls, w), Delays(r, |r.jobs|), IdsOf(r), r, w)
  {
    AllDelayKeys(r);
    var b := GroupListings(r, g);
    assert b[..|r.jobs|] == b;
    forall j | j in settings
      ensures LastListing(ls + b, j) == if LastListing(b, j).Some? then LastListing(b, j) else LastListing(ls, j)
      ensures LastListing(b, j).Some? <==> j in IdsOf(r)
      ensures LastListing(b, j).Some? ==>
        LastListing(b, j).value == Listing(j, g, PriorityOf(r), IgnoreOf(r), Delays(r, |r.jobs|)[j])
    {
      LastAppend(ls, b, j);
      DelaysAreLast(r, g, |r.jobs|, j);
    }
  }

  /** The settings once the rows in `done` have been saved for the group. */
  function WithRows(settings: map<JobId, Setting>, delays: map<JobId, Option<int>>, done: set<JobId>, r: GroupRequest,
      w: WorkflowId): map<JobId, Setting>
  {
    map j | j in settings ::
      if j in done && j in delays then Setting(Some(w), r.priority, IgnoreOf(r), delays[j]) else settings[j]
  }

  lemma WithRowsNext(settings: map<JobId, Setting>, delays: map<JobId, Option<int>>, done: set<JobId>,
      r: GroupRequest, w: WorkflowId, j: JobId)
    requires j in settings && j in delays
    ensures WithRows(settings, delays, done + {j}, r, w) ==
      WithRows(settings, delays, done, r, w)[j := Setting(Some(w), r.priority, IgnoreOf(r), delays[j])]
  {}

  function ReplyTo(known: set<JobId>, schedulable: set<JobId>, rs: seq<GroupRequest>): Reply {
    var n := FirstBad(known, schedulable, rs, 0);
    if n == |rs| then Done else if Skipped(known, rs[n]) then Stopped else Raised
  }

  /** What a request leaves behind: all of it and the release of the unlisted jobs, the groups
      before the one it stopped at, or nothing. */
  function Afterwards(settings: map<JobId, Setting>, schedulable: set<JobId>, rs: seq<GroupRequest>,
      w: WorkflowId): map<JobId, Setting>
  {
    var ls := Listings(rs, FirstBad(settings.Keys, schedulable, rs, 0));
    match ReplyTo(settings.Keys, schedulable, rs)
    case Done => Unlisted(Processed(settings, ls, w), Mentioned(ls), w)
    case Stopped => Processed(settings, ls, w)
    case Raised => settings
  }

  /** A group the celery side stops at, in the terms of the request. */
  predicate StopsAt(known: set<JobId>, r: GroupRequest) {
    || r.jobs == [] || r.priority == None || r.priority == Some(0)
    || exists k :: 0 <= k < |r.jobs| && r.jobs[k].id !in known
  }

  /** A group the celery side can save and schedule. */
  predicate CanTake(schedulable: set<JobId>, r: GroupRequest) {
    && r.ignoreResult.Some? && r.priority.Some? && 1 <= r.priority.value <= 100
    && forall k :: 0 <= k < |r.jobs| ==> r.jobs[k].id in schedulable
  }

  lemma TakenExactly(known: set<JobId>, schedulable: set<JobId>, r: GroupRequest)
    ensures Skipped(known, r) <==> StopsAt(known, r)
    ensures !Skipped(known, r) ==> (Refused(schedulable, r) <==> !CanTake(schedulable, r))
  {
    KnownIds(r, known);
    KnownIds(r, schedulable);
  }

  /** What the first `n` groups make of the settings: a job they mention has the workflow, and the
      settings of its last mention there; any other is as it was. */
  ghost predicate SettingsSet(settings: map<JobId, Setting>, settings': map<JobId, Setting>, w: WorkflowId,
      rs: seq<GroupRequest>, n: nat)
    requires n <= |rs|
  {
    && settings'.Keys == settings.Keys
    && (forall j, g: nat, k: nat :: j in settings && LastMention(rs, n, j, g, k) ==>
      SettingFrom(settings'[j], rs[g], rs[g].jobs[k], w))
    && forall j :: j in settings && Unmentioned(rs, n, j) ==> settings'[j] == settings[j]
  }

  /** A bare id has delay 0; a null delay stays null. */
  predicate SettingFrom(s: Setting, r: GroupRequest, e: JobEntry, w: WorkflowId) {
    && s.workflow == Some(w) && s.priority == r.priority && s.ignoreResult == (r.ignoreResult == Some(true))
    && s.delay == match e case Bare(_) => Some(0) case WithDelay(_, delay) => delay
  }

  /** The same for a whole request, with the unlisted jobs of the workflow released. */
  ghost predicate SettingsAllSet(settings: map<JobId, Setting>, settings': map<JobId, Setting>, w: WorkflowId,
      rs: seq<GroupRequest>)
  {
    && settings'.Keys == settings.Keys
    && (forall j, g: nat, k: nat :: j in settings && LastMention(rs, |rs|, j, g, k) ==>
      SettingFrom(settings'[j], rs[g], rs[g].jobs[k], w))
    && forall j :: j in settings && Unmentioned(rs, |rs|, j) ==>
      settings'[j] == if settings[j].workflow == Some(w) then Setting(None, None, false, Some(0)) else settings[j]
  }

  lemma ProcessedSet(settings: map<JobId, Setting>, schedulable: set<JobId>, w: WorkflowId, rs: seq<GroupRequest>)
    ensures var n := FirstBad(settings.Keys, schedulable, rs, 0);
      SettingsSet(settings, Processed(settings, Listings(rs, n), w), w, rs, n)
  {
    var n := FirstBad(settings.Keys, schedulable, rs, 0);
    var settings' := Processed(settings, Listings(rs, n), w);
    forall j, g: nat, k: nat | j in settings && LastMention(rs, n, j, g, k)
      ensures SettingFrom(settings'[j], rs[g], rs[g].jobs[k], w)
    {
      LastListingIs(rs, n, j, g, k);
      assert !Skipped(settings.Keys, rs[g]);
    }
    forall j | j in settings && Unmentioned(rs, n, j) ensures settings'[j] == settings[j] {
      UnmentionedIs(rs, n, j);
    }
  }

  lemma AllSet(settings: map<JobId, Setting>, schedulable: set<JobId>, w: WorkflowId, rs: seq<GroupRequest>)
    requires ReplyTo(settings.Keys, schedulable, rs) == Done
    ensures SettingsAllSet(settings, Afterwards(settings, schedulable, rs, w), w, rs)
  {
    var ls := Listings(rs, |rs|);
    ProcessedSet(settings, schedulable, w, rs);
    forall j, g: nat, k: nat | j in settings && LastMention(rs, |rs|, j, g, k)
      ensures SettingFrom(Afterwards(settings, schedulable, rs, w)[j], rs[g], rs[g].jobs[k], w)
    {
      LastListingIs(rs, |rs|, j, g, k);
      LastMentioned(ls, j);
    }
    forall j | j in settings && Unmentioned(rs, |rs|, j)
      ensures Afterwards(settings, schedulable, rs, w)[j] ==
        if settings[j].workflow == Some(w) then Setting(None, None, false, Some(0)) else settings[j]
    {
      UnmentionedIs(rs, |rs|, j);
      LastMentioned(ls, j);
    }
  }

  /** The reply, in the terms of the request: `n` is the first group that cannot be taken. */
  ghost predicate ReplyMeans(reply: Reply, n: nat, known: set<JobId>, schedulable: set<JobId>, rs: seq<GroupRequest>) {
    && n <= |rs|
    && (forall i :: 0 <= i < n ==> !StopsAt(known, rs[i]) && CanTake(schedulable, rs[i]))
    && match reply
       case Done => n == |rs|
       case Stopped => n < |rs| && StopsAt(known, rs[n])
       case Raised => n < |rs| && !StopsAt(known, rs[n]) && !CanTake(schedulable, rs[n])
  }

  ghost predicate EffectMeans(reply: Reply, n: nat, settings: map<JobId, Setting>, settings': map<JobId, Setting>,
      w: WorkflowId, rs: seq<GroupRequest>)
  {
    match reply
    case Done => SettingsAllSet(settings, settings', w, rs)
    case Stopped => n <= |rs| && SettingsSet(settings, settings', w, rs, n)
    case Raised => settings' == settings
  }

  /** Every group can be taken. */
  ghost predicate AllTaken(known: set<JobId>, schedulable: set<JobId>, rs: seq<GroupRequest>) {
    forall n :: 0 <= n < |rs| ==> !StopsAt(known, rs[n]) && CanTake(schedulable, rs[n])
  }

  /** If every group can be taken, the settings are those the request asks for. */
  ghost predicate SetIfTaken(settings: map<JobId, Setting>, settings': map<JobId, Setting>, schedulable: set<JobId>,
      w: WorkflowId, rs: seq<GroupRequest>)
  {
    AllTaken(settings.Keys, schedulable, rs) ==> SettingsAllSet(settings, settings', w, rs)
  }

  lemma CarriedOut(settings: map<JobId, Setting>, schedulable: set<JobId>, w: WorkflowId, rs: seq<GroupRequest>)
    requires AllTaken(settings.Keys, schedulable, rs)
    ensures ReplyTo(settings.Keys, schedulable, rs) == Done
    ensures SettingsAllSet(settings, Afterwards(settings, schedulable, rs, w), w, rs)
  {
    ReplyIs(settings.Keys, schedulable, rs);
    AllSet(settings, schedulable, w, rs);
  }

  lemma ReplyIs(known: set<JobId>, schedulable: set<JobId>, rs: seq<GroupRequest>)
    ensures ReplyMeans(ReplyTo(known, schedulable, rs), FirstBad(known, schedulable, rs, 0), known, schedulable, rs)
  {
    forall i | 0 <= i < |rs|
      ensures Skipped(known, rs[i]) <==> StopsAt(known, rs[i])
      ensures !Skipped(known, rs[i]) ==> (Refused(schedulable, rs[i]) <==> !CanTake(schedulable, rs[i]))
    {
      TakenExactly(known, schedulable, rs[i]);
    }
  }

  lemma ProcessedNone(settings: map<JobId, Setting>, w: WorkflowId)
    ensures Processed(settings, [], w) == settings
  {}

  /** The settings and the ids listed after the first `n` groups. */
  ghost predicate AfterProcessing(
    settings: map<JobId, Setting>, listed: set<JobId>, before: map<JobId, Setting>, rs: seq<GroupRequest>, n: nat,
      w: WorkflowId)
    requires n <= |rs|
  {
    settings == Processed(before, Listings(rs, n), w) && listed == Mentioned(Listings(rs, n))
  }

  lemma NextProcessed(
    settings: map<JobId, Setting>, listed: set<JobId>, before: map<JobId, Setting>, rs: seq<GroupRequest>, n: nat,
      w: WorkflowId)
    requires n < |rs| && rs[n].priority.Some? && rs[n].ignoreResult.Some?
    requires AfterProcessing(settings, listed, before, rs, n, w)
    ensures AfterProcessing(
      WithRows(settings, Delays(rs[n], |rs[n].jobs|), IdsOf(rs[n]), rs[n], w), listed + IdsOf(rs[n]),
      before, rs, n + 1, w)
  {
    ProcessedNext(before, Listings(rs, n), rs[n], n, w);
    MentionedNext(Listings(rs, n), rs[n], n);
  }

  lemma SubsetSize<T>(a: set<T>, b: set<T>)
    ensures |a * b| == |b| <==> b <= a
  {
    if !(b <= a) {
      var x :| x in b && x !in a;
      assert |a * b| <= |b - {x}| by { Smaller(a * b, b - {x}); }
    } else {
      assert a * b == b;
    }
  }

  lemma {:induction false} Smaller<T>(a: set<T>, b: set<T>)
    requires a <= b
    ensures |a| <= |b|
    decreases a
  {
    if a != {} {
      var x :| x in a;
      Smaller(a - {x}, b - {x});
    }
  }

  class SettingStore {
    var settings: map<JobId, Setting>

    /** Saves the rows of a group, in any order. */
    method SaveRows(w: WorkflowId, r: GroupRequest, delays: map<JobId, Option<int>>, rows: set<JobId>,
        schedulable: set<JobId>)
      returns (ok: bool)
      requires rows <= settings.Keys && rows <= delays.Keys && rows != {} && r.priority.Some?
      modifies this
      ensures ok <==> r.ignoreResult.Some? && 0 < r.priority.value <= 100 && rows <= schedulable
      ensures ok ==> settings == WithRows(old(settings), delays, rows, r, w)
    {
      var todo := rows;
      assert WithRows(settings, delays, {}, r, w) == settings;
      while todo != {}
        invariant todo <= rows
        invariant todo != rows ==> r.ignoreResult.Some? && 0 < r.priority.value <= 100 && rows - todo <= schedulable
        invariant settings == WithRows(old(settings), delays, rows - todo, r, w)
      {
        var j :| j in todo;
        if r.ignoreResult == None {
          return false;
        }
        WithRowsNext(old(settings), delays, rows - todo, r, w, j);
        settings := settings[j := Setting(Some(w), r.priority, r.ignoreResult.value, delays[j])];
        if r.priority.value <= 0 || r.priority.value > 100 || j !in schedulable {
          return false;
        }
        assert rows - (todo - {j}) == rows - todo + {j};
        todo := todo - {j};
      }
      assert rows - {} == rows;
      return true;
    }

    method ProcessGroup(w: WorkflowId, r: GroupRequest, schedulable: set<JobId>) returns (reply: Reply, ids: set<JobId>)
      modifies this
      ensures reply ==
        if Skipped(old(settings).Keys, r) then Stopped else if Refused(schedulable, r) then Raised else Done
      ensures reply == Done ==>
        ids == IdsOf(r) && settings == WithRows(old(settings), Delays(r, |r.jobs|), IdsOf(r), r, w)
      ensures reply == Stopped ==> settings == old(settings)
    {
      ids := {};
      if r.jobs == [] || r.priority == None || r.priority == Some(0) {
        return Stopped, ids;
      }
      var delays: map<JobId, Option<int>> := map[];
      for k := 0 to |r.jobs|
        invariant delays == Delays(r, k)
      {
        delays := delays[r.jobs[k].id := DelayOf(r.jobs[k])];
      }
      AllDelayKeys(r);
      ids := settings.Keys * delays.Keys;
      SubsetSize(settings.Keys, delays.Keys);
      if |ids| != |delays| {
        return Stopped, ids;
      }
      assert r.jobs[0] in r.jobs && r.jobs[0].id in ids;
      assert ids == IdsOf(r);
      var ok := SaveRows(w, r, delays, ids, schedulable);
      reply := if ok then Done else Raised;
    }

    /** The loop over the groups. */
    method ProcessGroups(w: WorkflowId, rs: seq<GroupRequest>, schedulable: set<JobId>)
      returns (reply: Reply, listed: set<JobId>)
      modifies this
      ensures reply == ReplyTo(old(settings).Keys, schedulable, rs)
      ensures reply != Raised ==>
        settings == Processed(old(settings), Listings(rs, FirstBad(old(settings).Keys, schedulable, rs, 0)), w)
      ensures reply == Done ==> listed == Mentioned(Listings(rs, |rs|))
    {
      ghost var before := settings;
      reply, listed := Done, {};
      ProcessedNone(before, w);
      for n := 0 to |rs|
        invariant AfterProcessing(settings, listed, before, rs, n, w) && settings.Keys == before.Keys
        invariant reply == Done
        invariant FirstBad(before.Keys, schedulable, rs, 0) == FirstBad(before.Keys, schedulable, rs, n)
      {
        ghost var current := settings;
        var ids;
        reply, ids := ProcessGroup(w, rs[n], schedulable);
        if reply != Done {
          return;
        }
        NextProcessed(current, listed, before, rs, n, w);
        listed := listed + ids;
      }
    }

    /** process_jobs inside the caller's transaction: an exception undoes it, an early return
        does not. */
    method ProcessJobs(w: WorkflowId, rs: seq<GroupRequest>, schedulable: set<JobId>) returns (reply: Reply)
      modifies this
      ensures reply == ReplyTo(old(settings).Keys, schedulable, rs)
      ensures settings == Afterwards(old(settings), schedulable, rs, w)
      ensures exists n: nat ::
        ReplyMeans(reply, n, old(settings).Keys, schedulable, rs)
        && EffectMeans(reply, n, old(settings), settings, w, rs)
    {
      var before := settings;
      ReplyIs(before.Keys, schedulable, rs);
      ProcessedSet(before, schedulable, w, rs);
      if ReplyTo(before.Keys, schedulable, rs) == Done {
        AllSet(before, schedulable, w, rs);
      }
      var listed;
      reply, listed := ProcessGroups(w, rs, schedulable);
      match reply {
        case Stopped =>
        case Raised => settings := before;
        case Done => settings := Unlisted(settings, listed, w);
      }
    }

    method DeleteWorkflow(w: WorkflowId)
      modifies this
      ensures settings.Keys == old(settings).Keys
      ensures forall j :: j in settings ==> settings[j].workflow != Some(w)
      ensures forall j :: j in settings && old(settings)[j].workflow != Some(w) ==> settings[j] == old(settings)[j]
      ensures forall j :: j in settings && old(settings)[j].workflow == Some(w) ==>
        settings[j] == UNASSIGNED.(delay := old(settings)[j].delay)
    {
      settings := map j | j in settings :: Forgotten(settings[j], w);
    }
  }

  function Forgotten(s: Setting, w: WorkflowId): Setting {
    if s.workflow == Some(w) then s.(workflow := None, priority := None, ignoreResult := false) else s
  }

  // ---------------------------------------------------------------- the two stores together

  /** A request both services take in full. */
  ghost predicate ValidRequest(known: set<JobId>, schedulable: set<JobId>, rs: seq<GroupRequest>) {
    forall n :: 0 <= n < |rs| ==>
      && rs[n].jobs != [] && IdsOf(rs[n]) <= known && IdsOf(rs[n]) <= schedulable
      && rs[n].priority.Some? && 1 <= rs[n].priority.value <= 100 && rs[n].ignoreResult.Some?
  }

  predicate SameAssignment(row: JobRow, s: Setting) {
    && row.workflow == s.workflow && row.priority == s.priority
    && row.ignoreResult == s.ignoreResult && row.delay == OrZero(s.delay)
  }

  /** The control side accepts a request and the celery side carries it out exactly when it is
      valid. */
  lemma DoneExactly(jobs: map<JobId, JobRow>, settings: map<JobId, Setting>, schedulable: set<JobId>,
      rs: seq<GroupRequest>)
    ensures ControlAccepts(jobs, rs) && ReplyTo(settings.Keys, schedulable, rs) == Done
      <==> ValidRequest(jobs.Keys * settings.Keys, schedulable, rs)
  {
    var n := FirstBad(settings.Keys, schedulable, rs, 0);
    if ControlAccepts(jobs, rs) && n == |rs| {
      forall i | 0 <= i < |rs|
        ensures rs[i].jobs != [] && IdsOf(rs[i]) <= jobs.Keys * settings.Keys && IdsOf(rs[i]) <= schedulable
        ensures rs[i].priority.Some? && 1 <= rs[i].priority.value <= 100 && rs[i].ignoreResult.Some?
      {
        assert GroupAccepted(jobs, rs[i]);
        assert !Skipped(settings.Keys, rs[i]) && !Refused(schedulable, rs[i]);
      }
    }
    if ValidRequest(jobs.Keys * settings.Keys, schedulable, rs) {
      forall i | 0 <= i < |rs|
        ensures GroupAccepted(jobs, rs[i])
        ensures !Skipped(settings.Keys, rs[i]) && !Refused(schedulable, rs[i])
      {
        assert IdsOf(rs[i]) <= jobs.Keys * settings.Keys;
      }
    }
  }

  /** What happens to the call from one service to the other: it works, it does not arrive, what
      the celery side does after the jobs (the workflow's row, its next run date) raises, or
      the reply is lost. */
  datatype Link = Up | NotReached | RaisesLater | ReplyLost

  /** An error reply, and no reply, make the control side's call raise, and its session rolls back. */
  ghost predicate ControlCommits(
    jobs: map<JobId, JobRow>, settings: map<JobId, Setting>, schedulable: set<JobId>, rs: seq<GroupRequest>, link: Link)
  {
    ControlAccepts(jobs, rs) && link == Up && ReplyTo(settings.Keys, schedulable, rs) != Raised
  }

  ghost function ControlAfter(
    jobs: map<JobId, JobRow>, settings: map<JobId, Setting>, schedulable: set<JobId>,
    w: WorkflowId, rs: seq<GroupRequest>, ids: nat -> GroupId, link: Link): map<JobId, JobRow>
  {
    if ControlCommits(jobs, settings, schedulable, rs, link) then AfterRelease(jobs, w, rs, ids) else jobs
  }

  ghost function CeleryAfter(
    jobs: map<JobId, JobRow>, settings: map<JobId, Setting>, schedulable: set<JobId>,
    w: WorkflowId, rs: seq<GroupRequest>, link: Link): map<JobId, Setting>
  {
    if ControlAccepts(jobs, rs) && (link == Up || link == ReplyLost) then Afterwards(settings, schedulable, rs, w)
    else settings
  }

  /** The call of the celery side, and its answer. */
  method CallAssign(celery: SettingStore, w: WorkflowId, rs: seq<GroupRequest>, schedulable: set<JobId>, link: Link)
    returns (ok: bool)
    modifies celery
    ensures ok <==> link == Up && ReplyTo(old(celery.settings).Keys, schedulable, rs) != Raised
    ensures celery.settings == if link == Up || link == ReplyLost
      then Afterwards(old(celery.settings), schedulable, rs, w) else old(celery.settings)
  {
    var settings0 := celery.settings;
    if link == NotReached {
      return false;
    }
    var reply := celery.ProcessJobs(w, rs, schedulable);
    if link == RaisesLater {
      celery.settings := settings0;
    }
    return link == Up && reply != Raised;
  }

  /** Both sides one after the other, and the rollback if the call fails. */
  method Request(
    control: ControlStore, celery: SettingStore, w: WorkflowId, rs: seq<GroupRequest>, ids: nat -> GroupId,
    schedulable: set<JobId>, link: Link)
    returns (success: bool)
    requires control.Valid() && NewIds(control.groups, ids, |rs|)
    modifies control, celery
    ensures control.Valid()
    ensures success <==> ControlCommits(old(control.jobs), old(celery.settings), schedulable, rs, link)
    ensures control.jobs == ControlAfter(old(control.jobs), old(celery.settings), schedulable, w, rs, ids, link)
    ensures control.groups == if success then AfterCleaning(old(control.groups), w, rs, ids) else old(control.groups)
    ensures celery.settings == CeleryAfter(old(control.jobs), old(celery.settings), schedulable, w, rs, link)
  {
    var jobs0, groups0 := control.jobs, control.groups;
    success := control.AssignJobs(w, rs, ids);
    if !success {
      return;
    }
    success := CallAssign(celery, w, rs, schedulable, link);
    if !success {
      control.jobs, control.groups := jobs0, groups0;
    }
  }

  lemma RequestDone(
    jobs: map<JobId, JobRow>, groups: map<GroupId, GroupRow>, settings: map<JobId, Setting>, schedulable: set<JobId>,
    w: WorkflowId, rs: seq<GroupRequest>, ids: nat -> GroupId, link: Link)
    requires NewIds(groups, ids, |rs|) && ControlCommits(jobs, settings, schedulable, rs, link)
    ensures CarriedOutBy(
      jobs, ControlAfter(jobs, settings, schedulable, w, rs, ids, link),
      groups, AfterCleaning(groups, w, rs, ids), w, rs, ids)
    ensures SetIfTaken(settings, CeleryAfter(jobs, settings, schedulable, w, rs, link), schedulable, w, rs)
  {
    AssignmentDone(jobs, groups, w, rs, ids);
    RowsAreSet(jobs, w, rs, ids);
    GroupsAreSet(jobs, groups, w, rs, ids);
    if AllTaken(settings.Keys, schedulable, rs) {
      CarriedOut(settings, schedulable, w, rs);
    }
  }

  /** The whole request: the control side's tables, the call, and the rollback if it fails. */
  method AssignJobToWorkflow(
    control: ControlStore, celery: SettingStore, w: WorkflowId, rs: seq<GroupRequest>, ids: nat -> GroupId,
    schedulable: set<JobId>, link: Link)
    returns (success: bool)
    requires control.Valid() && NewIds(control.groups, ids, |rs|)
    modifies control, celery
    ensures control.Valid()
    ensures success <==> ControlCommits(old(control.jobs), old(celery.settings), schedulable, rs, link)
    ensures control.jobs == ControlAfter(old(control.jobs), old(celery.settings), schedulable, w, rs, ids, link)
    ensures control.groups == if success then AfterCleaning(old(control.groups), w, rs, ids) else old(control.groups)
    ensures celery.settings == CeleryAfter(old(control.jobs), old(celery.settings), schedulable, w, rs, link)
    ensures success ==>
      && CarriedOutBy(old(control.jobs), control.jobs, old(control.groups), control.groups, w, rs, ids)
      && SetIfTaken(old(celery.settings), celery.settings, schedulable, w, rs)
    ensures link == NotReached || link == RaisesLater ==>
      control.jobs == old(control.jobs) && celery.settings == old(celery.settings)
  {
    ghost var jobs, groups, settings := control.jobs, control.groups, celery.settings;
    success := Request(control, celery, w, rs, ids, schedulable, link);
    if success {
      RequestDone(jobs, groups, settings, schedulable, w, rs, ids, link);
    }
  }

  /** After a valid request, for every job both stores know: they agree on whether it is in the
      workflow; if it is, they give it the same priority, flag and delay; and they have
      released the same jobs, if they had the same jobs in the workflow before. */
  lemma {:induction false} StoresAgree(
    jobs: map<JobId, JobRow>, settings: map<JobId, Setting>, schedulable: set<JobId>,
    w: WorkflowId, rs: seq<GroupRequest>, ids: nat -> GroupId, j: JobId)
    requires ControlAccepts(jobs, rs) && ReplyTo(settings.Keys, schedulable, rs) == Done
    requires j in jobs && j in settings
    ensures var jobs' := ControlAfter(jobs, settings, schedulable, w, rs, ids, Up);
      var settings' := CeleryAfter(jobs, settings, schedulable, w, rs, Up);
      && j in jobs' && j in settings'
      && (jobs'[j].workflow == Some(w) <==> j in Mentioned(Listings(rs, |rs|)))
      && (settings'[j].workflow == Some(w) <==> j in Mentioned(Listings(rs, |rs|)))
      && (j in Mentioned(Listings(rs, |rs|)) ==> SameAssignment(jobs'[j], settings'[j]))
      && (jobs[j].workflow == Some(w) && jobs'[j].workflow != Some(w) ==> jobs'[j] == RELEASED)
      && (settings[j].workflow == Some(w) && settings'[j].workflow != Some(w) ==> settings'[j] == UNASSIGNED)
  {
    var ls := Listings(rs, |rs|);
    LastMentioned(ls, j);
    AfterReleaseIs(jobs, w, rs, ids, j);
    assert Afterwards(settings, schedulable, rs, w) == Unlisted(Processed(settings, ls, w), Mentioned(ls), w);
  }

  /** The two stores agree on a workflow: of the jobs both know, the same are in it, with the
      same priority, flag and delay. */
  ghost predicate Agree(jobs: map<JobId, JobRow>, settings: map<JobId, Setting>, w: WorkflowId) {
    forall j :: j in jobs && j in settings ==> AgreeOn(jobs[j], settings[j], w)
  }

  ghost predicate AgreeOn(row: JobRow, s: Setting, w: WorkflowId) {
    (row.workflow == Some(w) <==> s.workflow == Some(w)) && (row.workflow == Some(w) ==> SameAssignment(row, s))
  }

  /** The one way a request over a working connection goes two ways: the control side accepts
      it, and the first group the celery side cannot take is one it stops at without an error. */
  ghost predicate GoesTwoWays(jobs: map<JobId, JobRow>, settings: map<JobId, Setting>, schedulable: set<JobId>,
      rs: seq<GroupRequest>)
  {
    var n := FirstBad(settings.Keys, schedulable, rs, 0);
    ControlAccepts(jobs, rs) && n < |rs| && Skipped(settings.Keys, rs[n])
  }

  /** Refused or raised, a request changes neither store; carried out, it leaves stores that
      agreed in agreement. */
  lemma AgreementKept(
    jobs: map<JobId, JobRow>, settings: map<JobId, Setting>, schedulable: set<JobId>,
    w: WorkflowId, rs: seq<GroupRequest>, ids: nat -> GroupId)
    requires !GoesTwoWays(jobs, settings, schedulable, rs)
    ensures var jobs' := ControlAfter(jobs, settings, schedulable, w, rs, ids, Up);
      var settings' := CeleryAfter(jobs, settings, schedulable, w, rs, Up);
      && (ControlCommits(jobs, settings, schedulable, rs, Up) || (jobs' == jobs && settings' == settings))
      && (Agree(jobs, settings, w) ==> Agree(jobs', settings', w))
  {
    if ControlCommits(jobs, settings, schedulable, rs, Up) {
      forall j | j in jobs && j in settings
        ensures var jobs' := ControlAfter(jobs, settings, schedulable, w, rs, ids, Up);
          var settings' := CeleryAfter(jobs, settings, schedulable, w, rs, Up);
          && j in jobs' && j in settings'
          && (jobs'[j].workflow == Some(w) <==> settings'[j].workflow == Some(w))
          && (jobs'[j].workflow == Some(w) ==> SameAssignment(jobs'[j], settings'[j]))
      {
        StoresAgree(jobs, settings, schedulable, w, rs, ids, j);
      }
    }
  }

  /** A request that goes two ways commits all of it on the control side, but on the celery
      side only the groups before the one it stops at, and releases nothing there. */
  lemma TwoWays(
    jobs: map<JobId, JobRow>, settings: map<JobId, Setting>, schedulable: set<JobId>,
    w: WorkflowId, rs: seq<GroupRequest>, ids: nat -> GroupId, k: JobId)
    requires GoesTwoWays(jobs, settings, schedulable, rs) && k in jobs && k in settings
    ensures var jobs' := ControlAfter(jobs, settings, schedulable, w, rs, ids, Up);
      var settings' := CeleryAfter(jobs, settings, schedulable, w, rs, Up);
      var n := FirstBad(settings.Keys, schedulable, rs, 0);
      && jobs' == AfterRelease(jobs, w, rs, ids) && settings' == Processed(settings, Listings(rs, n), w)
      && (settings[k].workflow == Some(w) ==> settings'[k].workflow == Some(w))
      && (k !in Mentioned(Listings(rs, |rs|)) ==> jobs'[k].workflow != Some(w))
  {
    AfterReleaseIs(jobs, w, rs, ids, k);
    LastMentioned(Listings(rs, |rs|), k);
  }

  lemma {:induction false} EarlierMentions(rs: seq<GroupRequest>, n: nat, m: nat, j: JobId)
    requires n <= m <= |rs| && LastListing(Listings(rs, n), j).Some?
    ensures LastListing(Listings(rs, m), j).Some?
  {
    if n < m {
      EarlierMentions(rs, n, m - 1, j);
      LastAppend(Listings(rs, m - 1), GroupListings(rs[m - 1], m - 1), j);
    }
  }

  /** What a job's setting is once only the first `n` groups have been processed. */
  function SettingAt(settings: map<JobId, Setting>, w: WorkflowId, rs: seq<GroupRequest>, n: nat, j: JobId): Setting
    requires n <= |rs| && j in settings
  {
    var written := LastListing(Listings(rs, n), j);
    if written.Some? then SettingOf(written.value, w) else settings[j]
  }

  /** Stopping before group `n` makes no difference to the job: the request does not list it and
      it is not in the workflow, or its last mention before the stop, or else the setting it
      has already, says the same as its last mention of all. */
  predicate Spared(jobs: map<JobId, JobRow>, settings: map<JobId, Setting>, w: WorkflowId, rs: seq<GroupRequest>,
      n: nat, j: JobId)
    requires n <= |rs| && j in jobs && j in settings
  {
    var last := LastListing(Listings(rs, |rs|), j);
    if last.None? then jobs[j].workflow != Some(w)
    else
      var s := SettingAt(settings, w, rs, n, j);
      s.(delay := Some(OrZero(s.delay))) == SettingOf(last.value, w).(delay := Some(OrZero(last.value.delay)))
  }

  ghost predicate AllSpared(jobs: map<JobId, JobRow>, settings: map<JobId, Setting>, w: WorkflowId,
      rs: seq<GroupRequest>, n: nat)
    requires n <= |rs|
  {
    forall j :: j in jobs && j in settings ==> Spared(jobs, settings, w, rs, n, j)
  }

  lemma SplitOf(
    jobs: map<JobId, JobRow>, settings: map<JobId, Setting>, w: WorkflowId, rs: seq<GroupRequest>,
    ids: nat -> GroupId, n: nat, j: JobId)
    requires n <= |rs| && j in jobs && j in settings && AgreeOn(jobs[j], settings[j], w)
    ensures AgreeOn(AfterRelease(jobs, w, rs, ids)[j], Processed(settings, Listings(rs, n), w)[j], w) <==>
      Spared(jobs, settings, w, rs, n, j)
  {
    AfterReleaseIs(jobs, w, rs, ids, j);
    if LastListing(Listings(rs, n), j).Some? {
      EarlierMentions(rs, n, |rs|, j);
    }
  }

  /** Exactly: stores that agree on a workflow still agree after a request over a working
      connection unless it goes two ways and the stop makes a difference to some job. */
  lemma SplitExactly(
    jobs: map<JobId, JobRow>, settings: map<JobId, Setting>, schedulable: set<JobId>,
    w: WorkflowId, rs: seq<GroupRequest>, ids: nat -> GroupId)
    requires Agree(jobs, settings, w)
    ensures Agree(
      ControlAfter(jobs, settings, schedulable, w, rs, ids, Up), CeleryAfter(jobs, settings, schedulable, w, rs, Up), w)
      <==> (GoesTwoWays(jobs, settings, schedulable, rs) ==>
        AllSpared(jobs, settings, w, rs, FirstBad(settings.Keys, schedulable, rs, 0)))
  {
    if GoesTwoWays(jobs, settings, schedulable, rs) {
      var n := FirstBad(settings.Keys, schedulable, rs, 0);
      var jobs', settings' := AfterRelease(jobs, w, rs, ids), Processed(settings, Listings(rs, n), w);
      forall j | j in jobs && j in settings
        ensures j in jobs' && j in settings'
        ensures AgreeOn(jobs'[j], settings'[j], w) <==> Spared(jobs, settings, w, rs, n, j)
      {
        SplitOf(jobs, settings, w, rs, ids, n, j);
      }
    } else {
      AgreementKept(jobs, settings, schedulable, w, rs, ids);
    }
  }

  /** So with a job in the workflow that the request does not list, going two ways always splits
      the stores. */
  lemma UnlistedJobSplits(
    jobs: map<JobId, JobRow>, settings: map<JobId, Setting>, schedulable: set<JobId>,
    w: WorkflowId, rs: seq<GroupRequest>, ids: nat -> GroupId, k: JobId)
    requires Agree(jobs, settings, w)
    requires k in jobs && k in settings && jobs[k].workflow == Some(w) && k !in Mentioned(Listings(rs, |rs|))
    ensures Agree(
      ControlAfter(jobs, settings, schedulable, w, rs, ids, Up), CeleryAfter(jobs, settings, schedulable, w, rs, Up), w)
      <==> !GoesTwoWays(jobs, settings, schedulable, rs)
  {
    SplitExactly(jobs, settings, schedulable, w, rs, ids);
    LastMentioned(Listings(rs, |rs|), k);
    assert !Spared(jobs, settings, w, rs, FirstBad(settings.Keys, schedulable, rs, 0), k);
  }

  /** Two mentions that say the same of a job. */
  predicate SameTerms(a: Option<Listing>, b: Option<Listing>) {
    && a.Some? && b.Some? && a.value.priority == b.value.priority
    && a.value.ignoreResult == b.value.ignoreResult && OrZero(a.value.delay) == OrZero(b.value.delay)
  }

  /** And for a workflow without jobs, the stores agree afterwards exactly if the groups before
      the stop already say of every listed job what the whole request says of it. */
  lemma FirstAssignmentSplits(
    jobs: map<JobId, JobRow>, settings: map<JobId, Setting>, schedulable: set<JobId>,
    w: WorkflowId, rs: seq<GroupRequest>, ids: nat -> GroupId)
    requires GoesTwoWays(jobs, settings, schedulable, rs)
    requires forall j :: j in jobs ==> jobs[j].workflow != Some(w)
    requires forall j :: j in settings ==> settings[j].workflow != Some(w)
    ensures var n := FirstBad(settings.Keys, schedulable, rs, 0);
      Agree(
        ControlAfter(jobs, settings, schedulable, w, rs, ids, Up),
        CeleryAfter(jobs, settings, schedulable, w, rs, Up), w)
      <==> forall j :: j in jobs && j in settings && j in Mentioned(Listings(rs, |rs|)) ==>
        SameTerms(LastListing(Listings(rs, n), j), LastListing(Listings(rs, |rs|), j))
  {
    SplitExactly(jobs, settings, schedulable, w, rs, ids);
    var n := FirstBad(settings.Keys, schedulable, rs, 0);
    forall j | j in jobs && j in settings
      ensures Spared(jobs, settings, w, rs, n, j) <==>
        (j in Mentioned(Listings(rs, |rs|)) ==>
          SameTerms(LastListing(Listings(rs, n), j), LastListing(Listings(rs, |rs|), j)))
    {
      LastMentioned(Listings(rs, |rs|), j);
    }
  }

  ghost predicate NoZero(settings: map<JobId, Setting>) {
    forall j :: j in settings ==> settings[j].priority != Some(0)
  }

  /** The celery side never stores priority 0. */
  lemma ZeroNotStored(settings: map<JobId, Setting>, schedulable: set<JobId>, w: WorkflowId, rs: seq<GroupRequest>)
    requires NoZero(settings)
    ensures NoZero(Afterwards(settings, schedulable, rs, w))
  {
    var n := FirstBad(settings.Keys, schedulable, rs, 0);
    ListingGroups(rs, n);
    forall i | i in settings ensures Processed(settings, Listings(rs, n), w)[i].priority != Some(0) {
      LastMentioned(Listings(rs, n), i);
      if LastListing(Listings(rs, n), i).Some? {
        assert !Refused(schedulable, rs[LastListing(Listings(rs, n), i).value.group]);
      }
    }
  }

  /** A request with a job last mentioned with priority 0, which the control side accepts, is never
      carried out on the celery side. If that side raises, nothing changes anywhere; if it
      stops, the job differs between the stores whatever it was before. */
  lemma ZeroPrioritySplits(
    jobs: map<JobId, JobRow>, settings: map<JobId, Setting>, schedulable: set<JobId>,
    w: WorkflowId, rs: seq<GroupRequest>, ids: nat -> GroupId, j: JobId)
    requires ControlAccepts(jobs, rs) && NoZero(settings) && j in jobs && j in settings
    requires LastListing(Listings(rs, |rs|), j).Some? && LastListing(Listings(rs, |rs|), j).value.priority == 0
    ensures ReplyTo(settings.Keys, schedulable, rs) != Done
    ensures var jobs' := ControlAfter(jobs, settings, schedulable, w, rs, ids, Up);
      var settings' := CeleryAfter(jobs, settings, schedulable, w, rs, Up);
      if ReplyTo(settings.Keys, schedulable, rs) == Raised then jobs' == jobs && settings' == settings
      else j in jobs' && j in settings' && !SameAssignment(jobs'[j], settings'[j])
  {
    var ls := Listings(rs, |rs|);
    LastMentioned(ls, j);
    ListingGroups(rs, |rs|);
    assert Refused(schedulable, rs[LastListing(ls, j).value.group]);
    AfterReleaseIs(jobs, w, rs, ids, j);
    ZeroNotStored(settings, schedulable, w, rs);
    assert j in Afterwards(settings, schedulable, rs, w);
  }

  /** A reply that does not arrive leaves the celery side's part of the request committed and
      the control side's rolled back. */
  lemma LostReply(
    jobs: map<JobId, JobRow>, settings: map<JobId, Setting>, schedulable: set<JobId>,
    w: WorkflowId, rs: seq<GroupRequest>, ids: nat -> GroupId, j: JobId)
    requires ControlAccepts(jobs, rs) && ReplyTo(settings.Keys, schedulable, rs) == Done
    requires j in jobs && j in settings
    ensures ControlAfter(jobs, settings, schedulable, w, rs, ids, ReplyLost) == jobs
    ensures var settings' := CeleryAfter(jobs, settings, schedulable, w, rs, ReplyLost);
      j in settings' && (settings'[j].workflow == Some(w) <==> j in Mentioned(Listings(rs, |rs|)))
  {
    StoresAgree(jobs, settings, schedulable, w, rs, ids, j);
  }

  // ---------------------------------------------------------------- deleting in both stores

  ghost predicate WithoutJobs(settings: map<JobId, Setting>, w: WorkflowId) {
    forall j :: j in settings ==> settings[j].workflow != Some(w)
  }

  /** The whole deletion. A workflow without groups is answered before the celery side is called. */
  method DeleteInBoth(control: ControlStore, celery: SettingStore, w: WorkflowId, link: Link) returns (success: bool)
    requires control.Valid()
    modifies control, celery
    ensures control.Valid()
    ensures success <==> link == Up || !HasGroup(old(control.groups), w)
    ensures !success ==> control.jobs == old(control.jobs) && control.groups == old(control.groups)
    ensures success && Anchored(old(control.jobs)) ==> forall j :: j in control.jobs ==>
      control.jobs[j].workflow != Some(w)
    ensures success ==>
      (WithoutJobs(celery.settings, w) <==> HasGroup(old(control.groups), w) || WithoutJobs(old(celery.settings), w))
    ensures link == NotReached || link == RaisesLater ==> celery.settings == old(celery.settings)
    ensures forall j :: j in old(celery.settings) && old(celery.settings)[j].workflow != Some(w) ==>
      j in celery.settings && celery.settings[j] == old(celery.settings)[j]
  {
    var jobs0, groups0 := control.jobs, control.groups;
    var found := control.DeleteWorkflow(w);
    if !found {
      return true;
    }
    if link == Up || link == ReplyLost {
      celery.DeleteWorkflow(w);
    }
    success := link == Up;
    if !success {
      control.jobs, control.groups := jobs0, groups0;
    }
  }

  /** Deleting a workflow: a job both stores had in it with the same settings leaves it in both
      without a priority, but the flag is cleared on the celery side only. */
  lemma DeletedAlike(row: JobRow, s: Setting, w: WorkflowId)
    requires SameAssignment(row, s) && row.workflow == Some(w)
    ensures SameAssignment(row.(workflow := None, group := None, priority := None), Forgotten(s, w)) <==>
      !row.ignoreResult
  {}
}

/**
  * The /api/milestones routes: the filtered and paged list (earliest planned
  * date first), and create, patch and delete. Text fields of a request are
  * strings where "" stands for absent.
  */
module Milestones {
  import opened Common
  import opened Types
  import opened Database
  import opened Ordering
  import opened Paging
  import opened Http

  // =====================================================================
  // GET /api/milestones
  // =====================================================================

  datatype MilestoneQuery = MilestoneQuery(
    programId: string,
    studyId: string,
    status: string,
    category: string,
    page: Option<int>,
    pageSize: Option<int>)

  /** The four equality filters, each only when given; study_id = ? never holds for an unattached milestone. */
  predicate MilestoneMatches(q: MilestoneQuery, m: Milestone)
  {
    && (q.programId != "" ==> m.programId == q.programId)
    && (q.studyId != "" ==> m.studyId == Some(q.studyId))
    && (q.status != "" ==> MilestoneStatusName(m.status) == q.status)
    && (q.category != "" ==> CategoryName(m.category) == q.category)
  }

  function MilestoneSelector(q: MilestoneQuery): Milestone -> bool
  {
    (m: Milestone) => MilestoneMatches(q, m)
  }

  /** One pushed condition of the WHERE clause. */
  datatype MilestoneCondition =
    | ProgramIs(programId: string)
    | StudyIs(studyId: string)
    | StatusIs(status: string)
    | CategoryIs(category: string)

  predicate MilestoneHolds(c: MilestoneCondition, m: Milestone)
  {
    match c
    case ProgramIs(v) => m.programId == v
    case StudyIs(v) => m.studyId == Some(v)
    case StatusIs(v) => MilestoneStatusName(m.status) == v
    case CategoryIs(v) => CategoryName(m.category) == v
  }

  /** The conditions joined with AND; none at all selects every milestone. */
  predicate MilestoneAllHold(cs: seq<MilestoneCondition>, m: Milestone)
  {
    forall i :: 0 <= i < |cs| ==> MilestoneHolds(cs[i], m)
  }

  lemma MilestoneAllHoldSnoc(cs: seq<MilestoneCondition>, c: MilestoneCondition, m: Milestone)
    ensures MilestoneAllHold(cs + [c], m) <==> MilestoneAllHold(cs, m) && MilestoneHolds(c, m)
  {
    assert forall i :: 0 <= i < |cs| ==> (cs + [c])[i] == cs[i];
    assert (cs + [c])[|cs|] == c;
  }

  /** Appends c when the parameter v was given, keeping the meaning of the list so far. */
  method PushIfGiven(conds: seq<MilestoneCondition>, v: string, c: MilestoneCondition) returns (r: seq<MilestoneCondition>)
    ensures r == if v != "" then conds + [c] else conds
    ensures forall m :: MilestoneAllHold(r, m) <==> MilestoneAllHold(conds, m) && (v != "" ==> MilestoneHolds(c, m))
  {
    r := conds;
    if v != "" {
      r := conds + [c];
      forall m ensures MilestoneAllHold(r, m) <==> MilestoneAllHold(conds, m) && MilestoneHolds(c, m) {
        MilestoneAllHoldSnoc(conds, c, m);
      }
    }
  }

  /** Builds the WHERE clause as the handler pushes it: program, study, status, category. */
  method BuildMilestoneConditions(q: MilestoneQuery) returns (conds: seq<MilestoneCondition>)
    ensures forall m :: MilestoneAllHold(conds, m) <==> MilestoneMatches(q, m)
    ensures conds == [] <==> q.programId == "" && q.studyId == "" && q.status == "" && q.category == ""
    ensures |conds| <= 4
  {
    var c0: seq<MilestoneCondition> := [];
    var c1 := PushIfGiven(c0, q.programId, ProgramIs(q.programId));
    var c2 := PushIfGiven(c1, q.studyId, StudyIs(q.studyId));
    var c3 := PushIfGiven(c2, q.status, StatusIs(q.status));
    conds := PushIfGiven(c3, q.category, CategoryIs(q.category));
    forall m ensures MilestoneAllHold(conds, m) <==> MilestoneMatches(q, m) {
      assert MilestoneAllHold(c0, m);
    }
  }

  /** ORDER BY planned_date ASC, pages of 50 unless asked otherwise. */
  function ListMilestones(ms: seq<Milestone>, q: MilestoneQuery): Envelope<Milestone>
  {
    Paginate(OrderBy(Filter(ms, MilestoneSelector(q)), PlannedDateKey, false), q.page.GetOr(1), q.pageSize.GetOr(50))
  }

  /**
    * total counts every matching milestone; each listed milestone matches;
    * the page is the slice at its offset of an admissible ORDER BY
    * planned_date ASC, which puts milestones without a planned date first.
    */
  lemma ListMilestonesSpec(ms: seq<Milestone>, q: MilestoneQuery)
    ensures var e := ListMilestones(ms, q);
            && e.total == |Filter(ms, MilestoneSelector(q))|
            && e.page == ClampPage(q.page.GetOr(1))
            && e.pageSize == ClampSize(q.pageSize.GetOr(50))
            && (forall k :: 0 <= k < |e.data| ==> e.data[k] in ms && MilestoneMatches(q, e.data[k]))
            && exists o :: IsOrdering(o, Filter(ms, MilestoneSelector(q)), PlannedDateKey, false) && SliceOf(e, o)
  {
    var e := ListMilestones(ms, q);
    var matching := Filter(ms, MilestoneSelector(q));
    PageOfOrdering(OrderBy(matching, PlannedDateKey, false), matching, PlannedDateKey, false, q.page.GetOr(1), q.pageSize.GetOr(50));
    forall k | 0 <= k < |e.data| ensures e.data[k] in ms && MilestoneMatches(q, e.data[k]) {
      assert e.data[k] in matching;
    }
  }

  /** In an ascending list by planned date, an undated milestone never follows a dated one. */
  lemma UndatedFirst(ms: seq<Milestone>, q: MilestoneQuery, i: nat, j: nat)
    requires var e := ListMilestones(ms, q); i < j < |e.data|
    requires ListMilestones(ms, q).data[j].plannedDate.None?
    ensures ListMilestones(ms, q).data[i].plannedDate.None?
  {
    var o := OrderBy(Filter(ms, MilestoneSelector(q)), PlannedDateKey, false);
    var e := Paginate(o, q.page.GetOr(1), q.pageSize.GetOr(50));
    assert e == ListMilestones(ms, q);
    var off := Offset(e.page, e.pageSize);
    assert e.data[i] == o[off + i] && e.data[j] == o[off + j];
    assert KeyLe(PlannedDateKey(o[off + i]), PlannedDateKey(o[off + j]));
  }

  // =====================================================================
  // POST /api/milestones
  // =====================================================================

  /** The request body ("" = absent). */
  datatype MilestoneInput = MilestoneInput(
    programId: string,
    studyId: string,
    title: string,
    description: string,
    category: string,
    status: string,
    plannedDate: string,
    actualDate: string)

  predicate MissingMilestoneRequired(b: MilestoneInput)
  {
    b.programId == "" || b.title == "" || b.category == ""
  }

  const MissingMilestoneFields := "Missing required fields: program_id, title, category"
  const MilestoneNotFound := "Milestone not found"

  /** The row the INSERT writes, or None when a CHECK constraint refuses its category or status. */
  function NewMilestone(b: MilestoneInput, id: string, now: string): (r: Option<Milestone>)
    ensures r.Some? <==> && ParseCategory(b.category).Some?
                         && (b.status == "" || ParseMilestoneStatus(b.status).Some?)
    ensures r.Some? ==>
      && r.value.id == id && r.value.programId == b.programId && r.value.title == b.title
      && r.value.studyId == NullIfEmpty(b.studyId)
      && CategoryName(r.value.category) == b.category
      && (b.status == "" ==> r.value.status == Pending)
      && (b.status != "" ==> MilestoneStatusName(r.value.status) == b.status)
      && r.value.description == NullIfEmpty(b.description)
      && r.value.plannedDate == NullIfEmpty(b.plannedDate) && r.value.actualDate == NullIfEmpty(b.actualDate)
      && r.value.createdAt == now && r.value.updatedAt == now
  {
    var category := ParseCategory(b.category);
    var status := ParseMilestoneStatus(if b.status == "" then "Pending" else b.status);
    if category.None? || status.None? then None
    else Some(Milestone(id, b.programId, NullIfEmpty(b.studyId), b.title, NullIfEmpty(b.description),
                        category.value, status.value, NullIfEmpty(b.plannedDate), NullIfEmpty(b.actualDate), now, now))
  }

  /**
    * 400 for a missing required field, writing nothing; otherwise the
    * INSERT, with no pre-check: a CHECK failure, an unknown program, an
    * unknown study or a taken id makes it fail with 500 and write nothing,
    * and else it appends the row and answers 201 with it.
    */
  method CreateMilestone(db: Store, b: MilestoneInput, id: string, now: string) returns (r: Reply<Milestone>)
    requires db.Valid()
    modifies db
    ensures db.Valid()
    ensures MissingMilestoneRequired(b) ==> r == Err(400, MissingMilestoneFields) && db.Tables() == old(db.Tables())
    ensures !MissingMilestoneRequired(b) ==>
              if && NewMilestone(b, id, now).Some?
                 && id !in KeySet(old(db.milestones), MilestoneId)
                 && b.programId in KeySet(old(db.programs), ProgramId)
                 && (b.studyId != "" ==> b.studyId in KeySet(old(db.studies), StudyId))
              then
                && r == Ok(201, NewMilestone(b, id, now).value)
                && db.milestones == old(db.milestones) + [r.body]
                && db.users == old(db.users) && db.programs == old(db.programs) && db.studies == old(db.studies)
              else
                r == Err(500, InternalError) && db.Tables() == old(db.Tables())
  {
    if MissingMilestoneRequired(b) {
      return Err(400, MissingMilestoneFields);
    }
    var row := NewMilestone(b, id, now);
    if row.None? {
      return Err(500, InternalError);
    }
    var ok := db.InsertMilestone(row.value);
    if !ok {
      return Err(500, InternalError);
    }
    r := Ok(201, row.value);
  }

  // =====================================================================
  // PUT /api/milestones/:id
  // =====================================================================

  /** The fields the UPDATE may write; program_id and study_id are not among them. */
  datatype MilestonePatch = MilestonePatch(
    title: string,
    description: string,
    category: string,
    status: string,
    plannedDate: string,
    actualDate: string)

  /** The updated row, or None when a CHECK constraint refuses the new category or status. */
  function PatchMilestone(m: Milestone, patch: MilestonePatch, now: string): (r: Option<Milestone>)
    ensures r.None? <==> ((patch.category != "" && ParseCategory(patch.category).None?)
                          || (patch.status != "" && ParseMilestoneStatus(patch.status).None?))
    ensures r.Some? ==>
      && r.value.id == m.id && r.value.programId == m.programId && r.value.studyId == m.studyId
      && r.value.createdAt == m.createdAt && r.value.updatedAt == now
      && r.value.title == (if patch.title == "" then m.title else patch.title)
      && (patch.category == "" ==> r.value.category == m.category)
      && (patch.category != "" ==> CategoryName(r.value.category) == patch.category)
      && (patch.status == "" ==> r.value.status == m.status)
      && (patch.status != "" ==> MilestoneStatusName(r.value.status) == patch.status)
      && r.value.description == (if patch.description == "" then m.description else Some(patch.description))
      && r.value.plannedDate == (if patch.plannedDate == "" then m.plannedDate else Some(patch.plannedDate))
      && r.value.actualDate == (if patch.actualDate == "" then m.actualDate else Some(patch.actualDate))
  {
    var category := if patch.category == "" then Some(m.category) else ParseCategory(patch.category);
    var status := if patch.status == "" then Some(m.status) else ParseMilestoneStatus(patch.status);
    if category.None? || status.None? then None
    else Some(m.(
      title := Coalesce(patch.title, m.title),
      description := CoalesceOpt(patch.description, m.description),
      category := category.value,
      status := status.value,
      plannedDate := CoalesceOpt(patch.plannedDate, m.plannedDate),
      actualDate := CoalesceOpt(patch.actualDate, m.actualDate),
      updatedAt := now))
  }

  /** Once recorded, an actual date survives every update: COALESCE cannot put NULL back. */
  lemma ActualDateNeverCleared(m: Milestone, patch: MilestonePatch, now: string)
    requires m.actualDate.Some? && PatchMilestone(m, patch, now).Some?
    ensures PatchMilestone(m, patch, now).value.actualDate.Some?
  {
  }

  /** Applying the same patch twice is applying it once. */
  lemma PatchMilestoneIdempotent(m: Milestone, patch: MilestonePatch, now: string)
    requires PatchMilestone(m, patch, now).Some?
    ensures PatchMilestone(PatchMilestone(m, patch, now).value, patch, now) == PatchMilestone(m, patch, now)
  {
    var n := PatchMilestone(m, patch, now).value;
    if patch.category != "" {
      assert ParseCategory(patch.category) == Some(n.category);
    }
    if patch.status != "" {
      assert ParseMilestoneStatus(patch.status) == Some(n.status);
    }
  }

  /** 404 for an unknown id; otherwise the COALESCE update of that one row (500 and no change on a CHECK failure). */
  method UpdateMilestone(db: Store, id: string, patch: MilestonePatch, now: string) returns (r: Reply<Milestone>)
    requires db.Valid()
    modifies db
    ensures db.Valid()
    ensures id !in KeySet(old(db.milestones), MilestoneId) ==>
              r == Err(404, MilestoneNotFound) && db.Tables() == old(db.Tables())
    ensures id in KeySet(old(db.milestones), MilestoneId) ==>
              var i := IndexOf(old(db.milestones), MilestoneId, id).value;
              var updated := PatchMilestone(old(db.milestones)[i], patch, now);
              if updated.Some? then
                && r == Ok(200, updated.value)
                && db.milestones == old(db.milestones)[i := updated.value]
                && db.users == old(db.users) && db.programs == old(db.programs) && db.studies == old(db.studies)
              else
                r == Err(500, InternalError) && db.Tables() == old(db.Tables())
  {
    var found := IndexOf(db.milestones, MilestoneId, id);
    if found.None? {
      return Err(404, MilestoneNotFound);
    }
    var i := found.value;
    var updated := PatchMilestone(db.milestones[i], patch, now);
    if updated.None? {
      return Err(500, InternalError);
    }
    db.UpdateMilestoneAt(i, updated.value);
    r := Ok(200, updated.value);
  }

  // =====================================================================
  // DELETE /api/milestones/:id
  // =====================================================================

  /** 404 for an unknown id; otherwise exactly that milestone goes and nothing else changes. */
  method DeleteMilestone(db: Store, id: string) returns (r: Reply<string>)
    requires db.Valid()
    modifies db
    ensures db.Valid()
    ensures id !in KeySet(old(db.milestones), MilestoneId) ==>
              r == Err(404, MilestoneNotFound) && db.Tables() == old(db.Tables())
    ensures id in KeySet(old(db.milestones), MilestoneId) ==>
              var i := IndexOf(old(db.milestones), MilestoneId, id).value;
              && r == Ok(200, "Milestone deleted")
              && db.milestones == old(db.milestones)[..i] + old(db.milestones)[i + 1..]
              && db.users == old(db.users) && db.programs == old(db.programs) && db.studies == old(db.studies)
  {
    var found := IndexOf(db.milestones, MilestoneId, id);
    if found.None? {
      return Err(404, MilestoneNotFound);
    }
    MilestoneDeleteRemovesExactlyOne(db.milestones, found.value);
    db.DeleteMilestone(id);
    r := Ok(200, "Milestone deleted");
  }
}

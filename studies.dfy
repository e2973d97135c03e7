/**
  * The /api/studies routes: the filtered and paged list (latest start date
  * first), one study with its milestones, and create, patch and delete.
  *
  * Text fields of a request are strings where "" stands for absent; the
  * three counts are None when absent, because the update tests them with
  * `??`, under which 0 is a value.
  */
module Studies {
  import opened Common
  import opened Types
  import opened Database
  import opened Ordering
  import opened Paging
  import opened Http
  import Programs

  // =====================================================================
  // GET /api/studies
  // =====================================================================

  datatype StudyQuery = StudyQuery(programId: string, status: string, page: Option<int>, pageSize: Option<int>)

  /** program_id = ? AND status = ?, each only when given. */
  predicate StudyMatches(q: StudyQuery, s: Study)
  {
    && (q.programId != "" ==> s.programId == q.programId)
    && (q.status != "" ==> StudyStatusName(s.status) == q.status)
  }

  function StudySelector(q: StudyQuery): Study -> bool
  {
    (s: Study) => StudyMatches(q, s)
  }

  /** One pushed condition of the WHERE clause. */
  datatype StudyCondition = ProgramIs(programId: string) | StatusIs(status: string)

  predicate StudyHolds(c: StudyCondition, s: Study)
  {
    match c
    case ProgramIs(v) => s.programId == v
    case StatusIs(v) => StudyStatusName(s.status) == v
  }

  /** The conditions joined with AND; none at all selects every study. */
  predicate StudyAllHold(cs: seq<StudyCondition>, s: Study)
  {
    forall i :: 0 <= i < |cs| ==> StudyHolds(cs[i], s)
  }

  lemma StudyAllHoldSnoc(cs: seq<StudyCondition>, c: StudyCondition, s: Study)
    ensures StudyAllHold(cs + [c], s) <==> StudyAllHold(cs, s) && StudyHolds(c, s)
  {
    assert forall i :: 0 <= i < |cs| ==> (cs + [c])[i] == cs[i];
    assert (cs + [c])[|cs|] == c;
  }

  /** Builds the WHERE clause as the handler pushes it: program_id first, then status. */
  method BuildStudyConditions(q: StudyQuery) returns (conds: seq<StudyCondition>)
    ensures forall s :: StudyAllHold(conds, s) <==> StudyMatches(q, s)
    ensures conds == [] <==> q.programId == "" && q.status == ""
    ensures |conds| <= 2
  {
    conds := [];
    if q.programId != "" {
      conds := conds + [ProgramIs(q.programId)];
    }
    forall s ensures StudyAllHold(conds, s) <==> (q.programId != "" ==> s.programId == q.programId) {
      if q.programId != "" {
        StudyAllHoldSnoc([], ProgramIs(q.programId), s);
      }
    }
    ghost var c1 := conds;
    if q.status != "" {
      conds := conds + [StatusIs(q.status)];
    }
    forall s ensures StudyAllHold(conds, s) <==> StudyAllHold(c1, s) && (q.status != "" ==> StudyStatusName(s.status) == q.status) {
      if q.status != "" {
        StudyAllHoldSnoc(c1, StatusIs(q.status), s);
      }
    }
  }

  /** ORDER BY start_date DESC, pages of 50 unless asked otherwise. */
  function ListStudies(ss: seq<Study>, q: StudyQuery): Envelope<Study>
  {
    Paginate(OrderBy(Filter(ss, StudySelector(q)), StartDateKey, true), q.page.GetOr(1), q.pageSize.GetOr(50))
  }

  /**
    * total counts every matching study; each listed study matches; the page
    * is the slice at its offset of an admissible ORDER BY start_date DESC.
    */
  lemma ListStudiesSpec(ss: seq<Study>, q: StudyQuery)
    ensures var e := ListStudies(ss, q);
            && e.total == |Filter(ss, StudySelector(q))|
            && e.page == ClampPage(q.page.GetOr(1))
            && e.pageSize == ClampSize(q.pageSize.GetOr(50))
            && (forall k :: 0 <= k < |e.data| ==> e.data[k] in ss && StudyMatches(q, e.data[k]))
            && exists o :: IsOrdering(o, Filter(ss, StudySelector(q)), StartDateKey, true) && SliceOf(e, o)
  {
    var e := ListStudies(ss, q);
    var matching := Filter(ss, StudySelector(q));
    PageOfOrdering(OrderBy(matching, StartDateKey, true), matching, StartDateKey, true, q.page.GetOr(1), q.pageSize.GetOr(50));
    forall k | 0 <= k < |e.data| ensures e.data[k] in ss && StudyMatches(q, e.data[k]) {
      assert e.data[k] in matching;
    }
  }

  // =====================================================================
  // GET /api/studies/:id
  // =====================================================================

  datatype StudyDetail = StudyDetail(study: Study, milestones: seq<Milestone>)

  function MilestonesOfStudy(id: string): Milestone -> bool
  {
    (m: Milestone) => m.studyId == Some(id)
  }

  const StudyNotFound := "Study not found"

  /** 404 for an unknown id; otherwise the study with the milestones attached to it, earliest plan first. */
  function GetStudy(ss: seq<Study>, ms: seq<Milestone>, id: string): (r: Reply<StudyDetail>)
    ensures r.Err? <==> id !in KeySet(ss, StudyId)
    ensures r.Err? ==> r == Err(404, StudyNotFound)
    ensures r.Ok? ==> && r.status == 200
                      && r.body.study in ss && r.body.study.id == id
                      && IsOrdering(r.body.milestones, Filter(ms, MilestonesOfStudy(id)), PlannedDateKey, false)
  {
    match FindStudy(ss, id)
    case None => Err(404, StudyNotFound)
    case Some(s) => Ok(200, StudyDetail(s, OrderBy(Filter(ms, MilestonesOfStudy(id)), PlannedDateKey, false)))
  }

  // =====================================================================
  // POST /api/studies
  // =====================================================================

  /** The request body ("" or None = absent). */
  datatype StudyInput = StudyInput(
    programId: string,
    name: string,
    protocolNumber: string,
    phase: string,
    status: string,
    targetEnrollment: Option<int>,
    currentEnrollment: Option<int>,
    startDate: string,
    endDate: string,
    sitesCount: Option<int>,
    countries: string,
    description: string)

  predicate MissingStudyRequired(b: StudyInput)
  {
    b.programId == "" || b.name == "" || b.protocolNumber == "" || b.phase == ""
  }

  const MissingStudyFields := "Missing required fields: program_id, name, protocol_number, phase"

  /** The row the INSERT writes, or None when the status CHECK refuses it; absent counts are 0. */
  function NewStudy(b: StudyInput, id: string, now: string): (r: Option<Study>)
    ensures r.Some? <==> b.status == "" || ParseStudyStatus(b.status).Some?
    ensures r.Some? ==>
      && r.value.id == id && r.value.programId == b.programId && r.value.name == b.name
      && r.value.protocolNumber == b.protocolNumber && r.value.phase == b.phase
      && (b.status == "" ==> r.value.status == Planned)
      && (b.status != "" ==> StudyStatusName(r.value.status) == b.status)
      && r.value.targetEnrollment == b.targetEnrollment.GetOr(0)
      && r.value.currentEnrollment == b.currentEnrollment.GetOr(0)
      && r.value.sitesCount == b.sitesCount.GetOr(0)
      && r.value.startDate == NullIfEmpty(b.startDate) && r.value.endDate == NullIfEmpty(b.endDate)
      && r.value.countries == NullIfEmpty(b.countries) && r.value.description == NullIfEmpty(b.description)
      && r.value.createdAt == now && r.value.updatedAt == now
  {
    var status := ParseStudyStatus(if b.status == "" then "Planned" else b.status);
    if status.None? then None
    else Some(Study(id, b.programId, b.name, b.protocolNumber, b.phase, status.value,
                    b.targetEnrollment.GetOr(0), b.currentEnrollment.GetOr(0),
                    NullIfEmpty(b.startDate), NullIfEmpty(b.endDate), b.sitesCount.GetOr(0),
                    NullIfEmpty(b.countries), NullIfEmpty(b.description), now, now))
  }

  /**
    * 400 for a missing required field, then 404 for an unknown program, each
    * writing nothing; otherwise the INSERT, which fails with 500 and writes
    * nothing on a status CHECK, a taken protocol number or a taken id, and
    * else appends the row and answers 201 with it.
    */
  method CreateStudy(db: Store, b: StudyInput, id: string, now: string) returns (r: Reply<Study>)
    requires db.Valid()
    modifies db
    ensures db.Valid()
    ensures MissingStudyRequired(b) ==> r == Err(400, MissingStudyFields) && db.Tables() == old(db.Tables())
    ensures !MissingStudyRequired(b) && b.programId !in KeySet(old(db.programs), ProgramId) ==>
              r == Err(404, Programs.ProgramNotFound) && db.Tables() == old(db.Tables())
    ensures !MissingStudyRequired(b) && b.programId in KeySet(old(db.programs), ProgramId) ==>
              if && NewStudy(b, id, now).Some?
                 && id !in KeySet(old(db.studies), StudyId)
                 && b.protocolNumber !in KeySet(old(db.studies), ProtocolNumber)
              then
                && r == Ok(201, NewStudy(b, id, now).value)
                && db.studies == old(db.studies) + [r.body]
                && db.users == old(db.users) && db.programs == old(db.programs) && db.milestones == old(db.milestones)
              else
                r == Err(500, InternalError) && db.Tables() == old(db.Tables())
  {
    if MissingStudyRequired(b) {
      return Err(400, MissingStudyFields);
    }
    if FindProgram(db.programs, b.programId).None? {
      return Err(404, Programs.ProgramNotFound);
    }
    var row := NewStudy(b, id, now);
    if row.None? {
      return Err(500, InternalError);
    }
    var ok := db.InsertStudy(row.value);
    if !ok {
      return Err(500, InternalError);
    }
    r := Ok(201, row.value);
  }

  // =====================================================================
  // PUT /api/studies/:id
  // =====================================================================

  /** The fields the UPDATE may write; program_id and protocol_number are not among them. */
  datatype StudyPatch = StudyPatch(
    name: string,
    phase: string,
    status: string,
    targetEnrollment: Option<int>,
    currentEnrollment: Option<int>,
    startDate: string,
    endDate: string,
    sitesCount: Option<int>,
    countries: string,
    description: string)

  /** The updated row, or None when the status CHECK refuses the new status. */
  function PatchStudy(s: Study, patch: StudyPatch, now: string): (r: Option<Study>)
    ensures r.None? <==> patch.status != "" && ParseStudyStatus(patch.status).None?
    ensures r.Some? ==>
      && r.value.id == s.id && r.value.programId == s.programId
      && r.value.protocolNumber == s.protocolNumber && r.value.createdAt == s.createdAt
      && r.value.updatedAt == now
      && r.value.name == (if patch.name == "" then s.name else patch.name)
      && r.value.phase == (if patch.phase == "" then s.phase else patch.phase)
      && (patch.status == "" ==> r.value.status == s.status)
      && (patch.status != "" ==> StudyStatusName(r.value.status) == patch.status)
      && r.value.targetEnrollment == (if patch.targetEnrollment.Some? then patch.targetEnrollment.value else s.targetEnrollment)
      && r.value.currentEnrollment == (if patch.currentEnrollment.Some? then patch.currentEnrollment.value else s.currentEnrollment)
      && r.value.sitesCount == (if patch.sitesCount.Some? then patch.sitesCount.value else s.sitesCount)
      && r.value.startDate == (if patch.startDate == "" then s.startDate else Some(patch.startDate))
      && r.value.endDate == (if patch.endDate == "" then s.endDate else Some(patch.endDate))
      && r.value.countries == (if patch.countries == "" then s.countries else Some(patch.countries))
      && r.value.description == (if patch.description == "" then s.description else Some(patch.description))
  {
    var status := if patch.status == "" then Some(s.status) else ParseStudyStatus(patch.status);
    if status.None? then None
    else Some(s.(
      name := Coalesce(patch.name, s.name),
      phase := Coalesce(patch.phase, s.phase),
      status := status.value,
      targetEnrollment := CoalesceNum(patch.targetEnrollment, s.targetEnrollment),
      currentEnrollment := CoalesceNum(patch.currentEnrollment, s.currentEnrollment),
      startDate := CoalesceOpt(patch.startDate, s.startDate),
      endDate := CoalesceOpt(patch.endDate, s.endDate),
      sitesCount := CoalesceNum(patch.sitesCount, s.sitesCount),
      countries := CoalesceOpt(patch.countries, s.countries),
      description := CoalesceOpt(patch.description, s.description),
      updatedAt := now))
  }

  /** Applying the same patch twice is applying it once. */
  lemma PatchStudyIdempotent(s: Study, patch: StudyPatch, now: string)
    requires PatchStudy(s, patch, now).Some?
    ensures PatchStudy(PatchStudy(s, patch, now).value, patch, now) == PatchStudy(s, patch, now)
  {
    var t := PatchStudy(s, patch, now).value;
    if patch.status != "" {
      assert ParseStudyStatus(patch.status) == Some(t.status);
    }
  }

  /** 404 for an unknown id; otherwise the COALESCE update of that one row (500 and no change on a CHECK failure). */
  method UpdateStudy(db: Store, id: string, patch: StudyPatch, now: string) returns (r: Reply<Study>)
    requires db.Valid()
    modifies db
    ensures db.Valid()
    ensures id !in KeySet(old(db.studies), StudyId) ==> r == Err(404, StudyNotFound) && db.Tables() == old(db.Tables())
    ensures id in KeySet(old(db.studies), StudyId) ==>
              var i := IndexOf(old(db.studies), StudyId, id).value;
              var updated := PatchStudy(old(db.studies)[i], patch, now);
              if updated.Some? then
                && r == Ok(200, updated.value)
                && db.studies == old(db.studies)[i := updated.value]
                && db.users == old(db.users) && db.programs == old(db.programs) && db.milestones == old(db.milestones)
              else
                r == Err(500, InternalError) && db.Tables() == old(db.Tables())
  {
    var found := IndexOf(db.studies, StudyId, id);
    if found.None? {
      return Err(404, StudyNotFound);
    }
    var i := found.value;
    var updated := PatchStudy(db.studies[i], patch, now);
    if updated.None? {
      return Err(500, InternalError);
    }
    db.UpdateStudyAt(i, updated.value);
    r := Ok(200, updated.value);
  }

  // =====================================================================
  // DELETE /api/studies/:id
  // =====================================================================

  /** 404 for an unknown id; otherwise exactly that study goes and its milestones stay, unattached. */
  method DeleteStudy(db: Store, id: string) returns (r: Reply<string>)
    requires db.Valid()
    modifies db
    ensures db.Valid()
    ensures id !in KeySet(old(db.studies), StudyId) ==> r == Err(404, StudyNotFound) && db.Tables() == old(db.Tables())
    ensures id in KeySet(old(db.studies), StudyId) ==>
              var i := IndexOf(old(db.studies), StudyId, id).value;
              && r == Ok(200, "Study deleted")
              && db.studies == old(db.studies)[..i] + old(db.studies)[i + 1..]
              && db.milestones == DetachAll(old(db.milestones), {id})
              && db.users == old(db.users) && db.programs == old(db.programs)
  {
    var found := IndexOf(db.studies, StudyId, id);
    if found.None? {
      return Err(404, StudyNotFound);
    }
    StudyDeleteRemovesExactlyOne(db.studies, found.value);
    db.DeleteStudy(id);
    r := Ok(200, "Study deleted");
  }
}

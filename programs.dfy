/**
  * The /api/programs routes: the filtered, searched, sorted and paged list
  * with per-program study and milestone statistics, the distinct filter
  * values, one program with its studies and milestones, and create, patch
  * and delete with their pre-checks.
  *
  * Request texts are strings where "" stands for an absent field: the
  * handlers test them with `!x` and `x || default`, which treat both alike.
  */
module Programs {
  import opened Common
  import opened Types
  import opened Database
  import opened Ordering
  import opened Paging
  import opened Grouping
  import opened Http

  // =====================================================================
  // GET /api/programs
  // =====================================================================

  /** The list query. page and pageSize are None when absent; the other parameters are "" when absent. */
  datatype ListQuery = ListQuery(
    phase: string,
    therapeuticArea: string,
    status: string,
    search: string,
    page: Option<int>,
    pageSize: Option<int>,
    sortBy: string,
    sortOrder: string)

  /** column LIKE '%term%', for a term without wildcards: SQLite folds ASCII letters only. */
  predicate Like(term: string, column: string)
  {
    HasInfix(Lower(term), Lower(column))
  }

  /** The four searched columns; a NULL target matches nothing. */
  predicate SearchHit(term: string, p: Program)
  {
    || Like(term, p.name)
    || Like(term, p.code)
    || Like(term, p.indication)
    || (p.target.Some? && Like(term, p.target.value))
  }

  /** One pushed condition of the WHERE clause. */
  datatype Condition = PhaseIs(phase: string) | AreaIs(area: string) | StatusIs(status: string) | Search(term: string)

  predicate Holds(c: Condition, p: Program)
  {
    match c
    case PhaseIs(v) => PhaseName(p.phase) == v
    case AreaIs(v) => p.therapeuticArea == v
    case StatusIs(v) => ProgramStatusName(p.status) == v
    case Search(t) => SearchHit(t, p)
  }

  /** The conditions joined with AND; an empty list is no WHERE clause at all. */
  predicate AllHold(cs: seq<Condition>, p: Program)
  {
    forall i :: 0 <= i < |cs| ==> Holds(cs[i], p)
  }

  /** The rows the list selects: each filter only when given, all of them together. */
  predicate Matches(q: ListQuery, p: Program)
  {
    && (q.phase != "" ==> PhaseName(p.phase) == q.phase)
    && (q.therapeuticArea != "" ==> p.therapeuticArea == q.therapeuticArea)
    && (q.status != "" ==> ProgramStatusName(p.status) == q.status)
    && (q.search != "" ==> SearchHit(q.search, p))
  }

  function Selector(q: ListQuery): Program -> bool
  {
    (p: Program) => Matches(q, p)
  }

  lemma AllHoldSnoc(cs: seq<Condition>, c: Condition)
    ensures forall p :: AllHold(cs + [c], p) <==> AllHold(cs, p) && Holds(c, p)
  {
    forall p ensures AllHold(cs + [c], p) <==> AllHold(cs, p) && Holds(c, p) {
      if AllHold(cs, p) && Holds(c, p) {
        forall i | 0 <= i < |cs + [c]| ensures Holds((cs + [c])[i], p) {
          if i < |cs| {
            assert (cs + [c])[i] == cs[i];
          }
        }
      }
      if AllHold(cs + [c], p) {
        forall i | 0 <= i < |cs| ensures Holds(cs[i], p) {
          assert (cs + [c])[i] == cs[i];
        }
        assert (cs + [c])[|cs|] == c;
      }
    }
  }

  /** Builds the WHERE clause one condition at a time, as the handler pushes them. */
  method BuildConditions(q: ListQuery) returns (conds: seq<Condition>)
    ensures forall p :: AllHold(conds, p) <==> Matches(q, p)
    ensures conds == [] <==> q.phase == "" && q.therapeuticArea == "" && q.status == "" && q.search == ""
    ensures |conds| <= 4
  {
    conds := [];
    if q.phase != "" {
      AllHoldSnoc(conds, PhaseIs(q.phase));
      conds := conds + [PhaseIs(q.phase)];
    }
    assert forall p :: AllHold(conds, p) <==> (q.phase != "" ==> PhaseName(p.phase) == q.phase);
    ghost var c1 := conds;
    if q.therapeuticArea != "" {
      AllHoldSnoc(conds, AreaIs(q.therapeuticArea));
      conds := conds + [AreaIs(q.therapeuticArea)];
    }
    assert forall p :: AllHold(conds, p) <==>
      AllHold(c1, p) && (q.therapeuticArea != "" ==> p.therapeuticArea == q.therapeuticArea);
    ghost var c2 := conds;
    if q.status != "" {
      AllHoldSnoc(conds, StatusIs(q.status));
      conds := conds + [StatusIs(q.status)];
    }
    assert forall p :: AllHold(conds, p) <==>
      AllHold(c2, p) && (q.status != "" ==> ProgramStatusName(p.status) == q.status);
    ghost var c3 := conds;
    if q.search != "" {
      AllHoldSnoc(conds, Search(q.search));
      conds := conds + [Search(q.search)];
    }
    assert forall p :: AllHold(conds, p) <==> AllHold(c3, p) && (q.search != "" ==> SearchHit(q.search, p));
  }

  /** The search is a substring test on the lower-cased texts of name, code, indication and target. */
  lemma SearchHitMeaning(term: string, p: Program)
    ensures SearchHit(term, p) <==>
      || OccursIn(Lower(term), Lower(p.name))
      || OccursIn(Lower(term), Lower(p.code))
      || OccursIn(Lower(term), Lower(p.indication))
      || (p.target.Some? && OccursIn(Lower(term), Lower(p.target.value)))
  {
    HasInfixIff(Lower(term), Lower(p.name));
    HasInfixIff(Lower(term), Lower(p.code));
    HasInfixIff(Lower(term), Lower(p.indication));
    if p.target.Some? {
      HasInfixIff(Lower(term), Lower(p.target.value));
    }
  }

  lemma LowerOfUpper(s: string)
    ensures Lower(Upper(s)) == Lower(s)
  {
    forall i | 0 <= i < |s| ensures Lower(Upper(s))[i] == Lower(s)[i] {
      assert Upper(s)[i] == UpperChar(s[i]);
    }
  }

  /** Upper-casing the search term changes nothing: the search ignores ASCII case. */
  lemma SearchIgnoresCase(term: string, p: Program)
    ensures SearchHit(Upper(term), p) == SearchHit(term, p)
  {
    LowerOfUpper(term);
  }

  /** The eight sortable columns. */
  datatype SortColumn = ByName | ByCode | ByPhase | ByArea | ByStatus | ByStartDate | ByCreatedAt | ByUpdatedAt

  function ColumnName(c: SortColumn): string
  {
    match c
    case ByName => "name"
    case ByCode => "code"
    case ByPhase => "phase"
    case ByArea => "therapeutic_area"
    case ByStatus => "status"
    case ByStartDate => "start_date"
    case ByCreatedAt => "created_at"
    case ByUpdatedAt => "updated_at"
  }

  /** sortBy when it names an allowed column, name otherwise. */
  function SortColumnOf(sortBy: string): (c: SortColumn)
    ensures (exists d :: ColumnName(d) == sortBy) ==> ColumnName(c) == sortBy
    ensures (forall d :: ColumnName(d) != sortBy) ==> c == ByName
  {
    if sortBy == "code" then ByCode
    else if sortBy == "phase" then ByPhase
    else if sortBy == "therapeutic_area" then ByArea
    else if sortBy == "status" then ByStatus
    else if sortBy == "start_date" then ByStartDate
    else if sortBy == "created_at" then ByCreatedAt
    else if sortBy == "updated_at" then ByUpdatedAt
    else ByName
  }

  /** The stored value of the column: enumerated columns sort by their text. */
  function SortKey(c: SortColumn, p: Program): Key
  {
    match c
    case ByName => Some(p.name)
    case ByCode => Some(p.code)
    case ByPhase => Some(PhaseName(p.phase))
    case ByArea => Some(p.therapeuticArea)
    case ByStatus => Some(ProgramStatusName(p.status))
    case ByStartDate => p.startDate
    case ByCreatedAt => Some(p.createdAt)
    case ByUpdatedAt => Some(p.updatedAt)
  }

  function KeyOf(c: SortColumn): Program -> Key
  {
    (p: Program) => SortKey(c, p)
  }

  /** One row of the list: the program and the aggregates of its studies and milestones. */
  datatype ProgramWithStats = ProgramWithStats(
    program: Program,
    studyCount: int,
    totalEnrollment: int,
    targetEnrollment: int,
    milestoneCount: int,
    completedMilestones: int)

  // The sub-queries grouped by program_id, as (program_id, value) rows.
  function StudyProgramIds(ss: seq<Study>): seq<string>
  {
    seq(|ss|, i requires 0 <= i < |ss| => ss[i].programId)
  }

  function CurrentByProgram(ss: seq<Study>): seq<Row>
  {
    seq(|ss|, i requires 0 <= i < |ss| => (ss[i].programId, ss[i].currentEnrollment))
  }

  function TargetByProgram(ss: seq<Study>): seq<Row>
  {
    seq(|ss|, i requires 0 <= i < |ss| => (ss[i].programId, ss[i].targetEnrollment))
  }

  function MilestoneProgramIds(ms: seq<Milestone>): seq<string>
  {
    seq(|ms|, i requires 0 <= i < |ms| => ms[i].programId)
  }

  /** SUM(CASE WHEN status = 'Completed' THEN 1 ELSE 0 END) per program */
  function CompletedByProgram(ms: seq<Milestone>): seq<Row>
  {
    seq(|ms|, i requires 0 <= i < |ms| => (ms[i].programId, if ms[i].status == MilestoneCompleted then 1 else 0))
  }

  /** The two LEFT JOINs with COALESCE(.., 0). */
  function WithStats(p: Program, ss: seq<Study>, ms: seq<Milestone>): ProgramWithStats
  {
    ProgramWithStats(
      p,
      GroupSum(Tally(StudyProgramIds(ss)), p.id),
      GroupSum(CurrentByProgram(ss), p.id),
      GroupSum(TargetByProgram(ss), p.id),
      GroupSum(Tally(MilestoneProgramIds(ms)), p.id),
      GroupSum(CompletedByProgram(ms), p.id))
  }

  /**
    * The counts are the numbers of the program's studies and milestones;
    * a program without studies or milestones gets 0 for each aggregate;
    * completed milestones never outnumber milestones.
    */
  lemma StatsFacts(p: Program, ss: seq<Study>, ms: seq<Milestone>)
    ensures WithStats(p, ss, ms).studyCount == multiset(StudyProgramIds(ss))[p.id]
    ensures WithStats(p, ss, ms).milestoneCount == multiset(MilestoneProgramIds(ms))[p.id]
    ensures (forall s :: s in ss ==> s.programId != p.id) ==>
              WithStats(p, ss, ms).studyCount == 0 && WithStats(p, ss, ms).totalEnrollment == 0
              && WithStats(p, ss, ms).targetEnrollment == 0
    ensures (forall m :: m in ms ==> m.programId != p.id) ==>
              WithStats(p, ss, ms).milestoneCount == 0 && WithStats(p, ss, ms).completedMilestones == 0
    ensures 0 <= WithStats(p, ss, ms).completedMilestones <= WithStats(p, ss, ms).milestoneCount
  {
    TallyCounts(StudyProgramIds(ss), p.id);
    TallyCounts(MilestoneProgramIds(ms), p.id);
    var done, all := CompletedByProgram(ms), Tally(MilestoneProgramIds(ms));
    GroupSumMonotone(done, all, p.id);
    GroupSumNonneg(done, p.id);
    if forall s :: s in ss ==> s.programId != p.id {
      forall k | 0 <= k < |ss| ensures Keys(CurrentByProgram(ss))[k] != p.id
                                   && Keys(TargetByProgram(ss))[k] != p.id
                                   && Keys(Tally(StudyProgramIds(ss)))[k] != p.id {
        assert ss[k] in ss;
      }
      AbsentGroupIsZero(CurrentByProgram(ss), p.id);
      AbsentGroupIsZero(TargetByProgram(ss), p.id);
      AbsentGroupIsZero(Tally(StudyProgramIds(ss)), p.id);
    }
    if forall m :: m in ms ==> m.programId != p.id {
      forall k | 0 <= k < |ms| ensures Keys(done)[k] != p.id && Keys(all)[k] != p.id {
        assert ms[k] in ms;
      }
      AbsentGroupIsZero(done, p.id);
      AbsentGroupIsZero(all, p.id);
    }
  }

  /** The handler: count the matches, order them, take the page, attach each row's statistics. */
  function ListPrograms(ps: seq<Program>, ss: seq<Study>, ms: seq<Milestone>, q: ListQuery): Envelope<ProgramWithStats>
  {
    PageWithStats(OrderBy(Filter(ps, Selector(q)), KeyOf(SortColumnOf(q.sortBy)), q.sortOrder == "desc"), ss, ms, q)
  }

  /** LIMIT/OFFSET over the ordered matches, each row of the page with its statistics. */
  function PageWithStats(ordered: seq<Program>, ss: seq<Study>, ms: seq<Milestone>, q: ListQuery): Envelope<ProgramWithStats>
  {
    var page := Paginate(ordered, q.page.GetOr(1), q.pageSize.GetOr(20));
    Envelope(seq(|page.data|, i requires 0 <= i < |page.data| => WithStats(page.data[i], ss, ms)),
             page.total, page.page, page.pageSize, page.totalPages)
  }

  /** Some admissible ORDER BY of the matches has the page as its slice at the page's offset. */
  ghost predicate PageOf(e: Envelope<ProgramWithStats>, o: seq<Program>)
  {
    && Offset(e.page, e.pageSize) >= 0
    && (|e.data| == e.pageSize || Offset(e.page, e.pageSize) + |e.data| >= |o|)
    && forall k :: 0 <= k < |e.data| ==>
         Offset(e.page, e.pageSize) + k < |o| && e.data[k].program == o[Offset(e.page, e.pageSize) + k]
  }

  /** The rows with statistics are the page, at its offset, of the ordering they were sliced from. */
  lemma PageWithStatsIsPage(o: seq<Program>, ss: seq<Study>, ms: seq<Milestone>, q: ListQuery)
    ensures PageOf(PageWithStats(o, ss, ms, q), o)
  {
    var page := Paginate(o, q.page.GetOr(1), q.pageSize.GetOr(20));
    var e := PageWithStats(o, ss, ms, q);
    forall k | 0 <= k < |e.data| ensures e.data[k].program == page.data[k] {
      assert e.data[k] == WithStats(page.data[k], ss, ms);
    }
  }

  /** The list is the page of the ordering OrderBy computes, with statistics attached. */
  lemma ListProgramsUnfold(ps: seq<Program>, ss: seq<Study>, ms: seq<Milestone>, q: ListQuery)
    ensures var o := OrderBy(Filter(ps, Selector(q)), KeyOf(SortColumnOf(q.sortBy)), q.sortOrder == "desc");
            var page := Paginate(o, q.page.GetOr(1), q.pageSize.GetOr(20));
            var e := ListPrograms(ps, ss, ms, q);
            && |o| == |Filter(ps, Selector(q))|
            && e.total == page.total && e.page == page.page && e.pageSize == page.pageSize
            && e.totalPages == page.totalPages && |e.data| == |page.data|
            && forall k :: 0 <= k < |e.data| ==> e.data[k] == WithStats(page.data[k], ss, ms)
  {
    var matching := Filter(ps, Selector(q));
    PermutationLength(OrderBy(matching, KeyOf(SortColumnOf(q.sortBy)), q.sortOrder == "desc"), matching);
  }

  /** total counts every matching program whatever the page; page and size are the clamped request (default size 20). */
  lemma ListProgramsCounts(ps: seq<Program>, ss: seq<Study>, ms: seq<Milestone>, q: ListQuery)
    ensures var e := ListPrograms(ps, ss, ms, q);
            && e.total == |Filter(ps, Selector(q))|
            && e.page == ClampPage(q.page.GetOr(1))
            && e.pageSize == ClampSize(q.pageSize.GetOr(20))
            && |e.data| <= e.pageSize
  {
    ListProgramsUnfold(ps, ss, ms, q);
  }

  /** Every listed row is a matching program carrying its own statistics. */
  lemma ListProgramsRows(ps: seq<Program>, ss: seq<Study>, ms: seq<Milestone>, q: ListQuery)
    ensures var e := ListPrograms(ps, ss, ms, q);
            forall k :: 0 <= k < |e.data| ==>
              e.data[k].program in ps && Matches(q, e.data[k].program)
              && e.data[k] == WithStats(e.data[k].program, ss, ms)
  {
    var e := ListPrograms(ps, ss, ms, q);
    var matching := Filter(ps, Selector(q));
    var o := OrderBy(matching, KeyOf(SortColumnOf(q.sortBy)), q.sortOrder == "desc");
    var page := Paginate(o, q.page.GetOr(1), q.pageSize.GetOr(20));
    ListProgramsUnfold(ps, ss, ms, q);
    forall k | 0 <= k < |e.data|
      ensures e.data[k].program in ps && Matches(q, e.data[k].program)
    {
      var j := Offset(page.page, page.pageSize) + k;
      assert e.data[k].program == page.data[k] == o[j];
      assert o[j] in multiset(matching);
    }
  }

  lemma ListProgramsPage(ps: seq<Program>, ss: seq<Study>, ms: seq<Milestone>, q: ListQuery)
    ensures PageOf(ListPrograms(ps, ss, ms, q),
                   OrderBy(Filter(ps, Selector(q)), KeyOf(SortColumnOf(q.sortBy)), q.sortOrder == "desc"))
  {
    PageWithStatsIsPage(OrderBy(Filter(ps, Selector(q)), KeyOf(SortColumnOf(q.sortBy)), q.sortOrder == "desc"), ss, ms, q);
  }

  /**
    * The data is the page, at the page's offset, of an admissible ORDER BY
    * of the matches on the allowed column, DESC exactly when sortOrder is
    * "desc": which ordering among equal keys is not specified.
    */
  lemma ListProgramsOrdered(ps: seq<Program>, ss: seq<Study>, ms: seq<Milestone>, q: ListQuery)
    ensures exists o :: IsOrdering(o, Filter(ps, Selector(q)), KeyOf(SortColumnOf(q.sortBy)), q.sortOrder == "desc")
                        && PageOf(ListPrograms(ps, ss, ms, q), o)
  {
    var o := OrderBy(Filter(ps, Selector(q)), KeyOf(SortColumnOf(q.sortBy)), q.sortOrder == "desc");
    ListProgramsPage(ps, ss, ms, q);
    assert IsOrdering(o, Filter(ps, Selector(q)), KeyOf(SortColumnOf(q.sortBy)), q.sortOrder == "desc");
  }

  // =====================================================================
  // GET /api/programs/filters
  // =====================================================================

  datatype FilterValues = FilterValues(phases: seq<string>, therapeuticAreas: seq<string>, statuses: seq<string>)

  function PhaseNames(ps: seq<Program>): seq<string>
  {
    seq(|ps|, i requires 0 <= i < |ps| => PhaseName(ps[i].phase))
  }

  function AreaNames(ps: seq<Program>): seq<string>
  {
    seq(|ps|, i requires 0 <= i < |ps| => ps[i].therapeuticArea)
  }

  function StatusNames(ps: seq<Program>): seq<string>
  {
    seq(|ps|, i requires 0 <= i < |ps| => ProgramStatusName(ps[i].status))
  }

  /** Three SELECT DISTINCT ... ORDER BY queries. */
  function Filters(ps: seq<Program>): FilterValues
  {
    FilterValues(Distinct(PhaseNames(ps)), Distinct(AreaNames(ps)), Distinct(StatusNames(ps)))
  }

  lemma PhaseNamesMembers(ps: seq<Program>)
    ensures forall x :: x in PhaseNames(ps) <==> exists p :: p in ps && PhaseName(p.phase) == x
  {
    forall x ensures x in PhaseNames(ps) <==> exists p :: p in ps && PhaseName(p.phase) == x {
      if x in PhaseNames(ps) {
        var i :| 0 <= i < |ps| && PhaseNames(ps)[i] == x;
        assert ps[i] in ps;
      }
      if exists p :: p in ps && PhaseName(p.phase) == x {
        var p :| p in ps && PhaseName(p.phase) == x;
        var i :| 0 <= i < |ps| && ps[i] == p;
        assert PhaseNames(ps)[i] == x;
      }
    }
  }

  lemma AreaNamesMembers(ps: seq<Program>)
    ensures forall x :: x in AreaNames(ps) <==> exists p :: p in ps && p.therapeuticArea == x
  {
    forall x ensures x in AreaNames(ps) <==> exists p :: p in ps && p.therapeuticArea == x {
      if x in AreaNames(ps) {
        var i :| 0 <= i < |ps| && AreaNames(ps)[i] == x;
        assert ps[i] in ps;
      }
      if exists p :: p in ps && p.therapeuticArea == x {
        var p :| p in ps && p.therapeuticArea == x;
        var i :| 0 <= i < |ps| && ps[i] == p;
        assert AreaNames(ps)[i] == x;
      }
    }
  }

  lemma StatusNamesMembers(ps: seq<Program>)
    ensures forall x :: x in StatusNames(ps) <==> exists p :: p in ps && ProgramStatusName(p.status) == x
  {
    forall x ensures x in StatusNames(ps) <==> exists p :: p in ps && ProgramStatusName(p.status) == x {
      if x in StatusNames(ps) {
        var i :| 0 <= i < |ps| && StatusNames(ps)[i] == x;
        assert ps[i] in ps;
      }
      if exists p :: p in ps && ProgramStatusName(p.status) == x {
        var p :| p in ps && ProgramStatusName(p.status) == x;
        var i :| 0 <= i < |ps| && ps[i] == p;
        assert StatusNames(ps)[i] == x;
      }
    }
  }

  /** Each list is ascending without repeats and holds exactly the values some program has. */
  lemma FiltersSpec(ps: seq<Program>)
    ensures StrictlyAscending(Filters(ps).phases)
    ensures StrictlyAscending(Filters(ps).therapeuticAreas)
    ensures StrictlyAscending(Filters(ps).statuses)
    ensures forall x :: x in Filters(ps).phases <==> exists p :: p in ps && PhaseName(p.phase) == x
    ensures forall x :: x in Filters(ps).therapeuticAreas <==> exists p :: p in ps && p.therapeuticArea == x
    ensures forall x :: x in Filters(ps).statuses <==> exists p :: p in ps && ProgramStatusName(p.status) == x
  {
    PhaseNamesMembers(ps);
    AreaNamesMembers(ps);
    StatusNamesMembers(ps);
  }

  // =====================================================================
  // GET /api/programs/:id
  // =====================================================================

  datatype ProgramDetail = ProgramDetail(program: Program, studies: seq<Study>, milestones: seq<Milestone>)

  function StudiesOf(pid: string): Study -> bool
  {
    (s: Study) => s.programId == pid
  }

  function MilestonesOf(pid: string): Milestone -> bool
  {
    (m: Milestone) => m.programId == pid
  }

  const ProgramNotFound := "Program not found"

  /** 404 for an unknown id; otherwise the program with its studies (latest start first) and milestones (earliest plan first). */
  function GetProgram(ps: seq<Program>, ss: seq<Study>, ms: seq<Milestone>, id: string): (r: Reply<ProgramDetail>)
    ensures r.Err? <==> id !in KeySet(ps, ProgramId)
    ensures r.Err? ==> r == Err(404, ProgramNotFound)
    ensures r.Ok? ==> && r.status == 200
                      && r.body.program in ps && r.body.program.id == id
                      && IsOrdering(r.body.studies, Filter(ss, StudiesOf(id)), StartDateKey, true)
                      && IsOrdering(r.body.milestones, Filter(ms, MilestonesOf(id)), PlannedDateKey, false)
  {
    match FindProgram(ps, id)
    case None => Err(404, ProgramNotFound)
    case Some(p) =>
      Ok(200, ProgramDetail(p, OrderBy(Filter(ss, StudiesOf(id)), StartDateKey, true),
                               OrderBy(Filter(ms, MilestonesOf(id)), PlannedDateKey, false)))
  }

  // =====================================================================
  // POST /api/programs
  // =====================================================================

  /** The request body ("" = absent). */
  datatype ProgramInput = ProgramInput(
    name: string,
    code: string,
    therapeuticArea: string,
    phase: string,
    status: string,
    indication: string,
    moleculeType: string,
    target: string,
    description: string,
    lead: string,
    startDate: string,
    expectedEndDate: string)

  predicate MissingRequired(b: ProgramInput)
  {
    b.name == "" || b.code == "" || b.therapeuticArea == "" || b.phase == "" || b.indication == ""
  }

  const MissingProgramFields := "Missing required fields: name, code, therapeutic_area, phase, indication"
  const DuplicateCode := "Program code already exists"

  /** The row the INSERT writes, or None when a CHECK constraint refuses its phase or status. */
  function NewProgram(b: ProgramInput, id: string, now: string): (r: Option<Program>)
    ensures r.Some? <==> && ParsePhase(b.phase).Some?
                         && (b.status == "" || ParseProgramStatus(b.status).Some?)
    ensures r.Some? ==>
      && r.value.id == id && r.value.name == b.name && r.value.code == b.code
      && r.value.therapeuticArea == b.therapeuticArea && r.value.indication == b.indication
      && PhaseName(r.value.phase) == b.phase
      && (b.status == "" ==> r.value.status == Active)
      && (b.status != "" ==> ProgramStatusName(r.value.status) == b.status)
      && r.value.moleculeType == NullIfEmpty(b.moleculeType) && r.value.target == NullIfEmpty(b.target)
      && r.value.description == NullIfEmpty(b.description) && r.value.lead == NullIfEmpty(b.lead)
      && r.value.startDate == NullIfEmpty(b.startDate) && r.value.expectedEndDate == NullIfEmpty(b.expectedEndDate)
      && r.value.createdAt == now && r.value.updatedAt == now
  {
    var phase := ParsePhase(b.phase);
    var status := ParseProgramStatus(if b.status == "" then "Active" else b.status);
    if phase.None? || status.None? then None
    else Some(Program(id, b.name, b.code, b.therapeuticArea, phase.value, status.value, b.indication,
                      NullIfEmpty(b.moleculeType), NullIfEmpty(b.target), NullIfEmpty(b.description),
                      NullIfEmpty(b.lead), NullIfEmpty(b.startDate), NullIfEmpty(b.expectedEndDate), now, now))
  }

  /**
    * 400 for a missing required field, then 409 for a taken code, each
    * writing nothing; otherwise the INSERT, which fails with 500 and writes
    * nothing on a CHECK or id conflict, and else appends the row and
    * answers 201 with it.
    */
  method CreateProgram(db: Store, b: ProgramInput, id: string, now: string) returns (r: Reply<Program>)
    requires db.Valid()
    modifies db
    ensures db.Valid()
    ensures MissingRequired(b) ==> r == Err(400, MissingProgramFields) && db.Tables() == old(db.Tables())
    ensures !MissingRequired(b) && b.code in KeySet(old(db.programs), ProgramCode) ==>
              r == Err(409, DuplicateCode) && db.Tables() == old(db.Tables())
    ensures !MissingRequired(b) && b.code !in KeySet(old(db.programs), ProgramCode) ==>
              if NewProgram(b, id, now).Some? && id !in KeySet(old(db.programs), ProgramId) then
                && r == Ok(201, NewProgram(b, id, now).value)
                && db.programs == old(db.programs) + [r.body]
                && db.users == old(db.users) && db.studies == old(db.studies) && db.milestones == old(db.milestones)
              else
                r == Err(500, InternalError) && db.Tables() == old(db.Tables())
  {
    if MissingRequired(b) {
      return Err(400, MissingProgramFields);
    }
    if IndexOf(db.programs, ProgramCode, b.code).Some? {
      return Err(409, DuplicateCode);
    }
    var row := NewProgram(b, id, now);
    if row.None? {
      return Err(500, InternalError);
    }
    var ok := db.InsertProgram(row.value);
    if !ok {
      return Err(500, InternalError);
    }
    r := Ok(201, row.value);
  }

  // =====================================================================
  // PUT /api/programs/:id
  // =====================================================================

  /** The fields the UPDATE may write ("" = absent); id and code are not among them. */
  datatype ProgramPatch = ProgramPatch(
    name: string,
    therapeuticArea: string,
    phase: string,
    status: string,
    indication: string,
    moleculeType: string,
    target: string,
    description: string,
    lead: string,
    startDate: string,
    expectedEndDate: string)

  /** The updated row, or None when a CHECK constraint refuses the new phase or status. */
  function PatchProgram(p: Program, patch: ProgramPatch, now: string): (r: Option<Program>)
    ensures r.None? <==> ((patch.phase != "" && ParsePhase(patch.phase).None?)
                          || (patch.status != "" && ParseProgramStatus(patch.status).None?))
    ensures r.Some? ==>
      && r.value.id == p.id && r.value.code == p.code && r.value.createdAt == p.createdAt
      && r.value.updatedAt == now
      && (patch.phase == "" ==> r.value.phase == p.phase)
      && (patch.phase != "" ==> PhaseName(r.value.phase) == patch.phase)
      && (patch.status == "" ==> r.value.status == p.status)
      && (patch.status != "" ==> ProgramStatusName(r.value.status) == patch.status)
      && r.value.name == Coalesce(patch.name, p.name)
      && r.value.therapeuticArea == Coalesce(patch.therapeuticArea, p.therapeuticArea)
      && r.value.indication == Coalesce(patch.indication, p.indication)
      && r.value.moleculeType == CoalesceOpt(patch.moleculeType, p.moleculeType)
      && r.value.target == CoalesceOpt(patch.target, p.target)
      && r.value.description == CoalesceOpt(patch.description, p.description)
      && r.value.lead == CoalesceOpt(patch.lead, p.lead)
      && r.value.startDate == CoalesceOpt(patch.startDate, p.startDate)
      && r.value.expectedEndDate == CoalesceOpt(patch.expectedEndDate, p.expectedEndDate)
  {
    var phase := if patch.phase == "" then Some(p.phase) else ParsePhase(patch.phase);
    var status := if patch.status == "" then Some(p.status) else ParseProgramStatus(patch.status);
    if phase.None? || status.None? then None
    else Some(p.(
      name := Coalesce(patch.name, p.name),
      therapeuticArea := Coalesce(patch.therapeuticArea, p.therapeuticArea),
      phase := phase.value,
      status := status.value,
      indication := Coalesce(patch.indication, p.indication),
      moleculeType := CoalesceOpt(patch.moleculeType, p.moleculeType),
      target := CoalesceOpt(patch.target, p.target),
      description := CoalesceOpt(patch.description, p.description),
      lead := CoalesceOpt(patch.lead, p.lead),
      startDate := CoalesceOpt(patch.startDate, p.startDate),
      expectedEndDate := CoalesceOpt(patch.expectedEndDate, p.expectedEndDate),
      updatedAt := now))
  }

  /** A field changes only when a non-empty value is supplied: the empty patch touches only updated_at. */
  lemma EmptyPatchOnlyTouches(p: Program, now: string)
    ensures PatchProgram(p, ProgramPatch("", "", "", "", "", "", "", "", "", "", ""), now) == Some(p.(updatedAt := now))
  {
  }

  /** Applying the same patch twice is applying it once. */
  lemma PatchProgramIdempotent(p: Program, patch: ProgramPatch, now: string)
    requires PatchProgram(p, patch, now).Some?
    ensures PatchProgram(PatchProgram(p, patch, now).value, patch, now) == PatchProgram(p, patch, now)
  {
    var q := PatchProgram(p, patch, now).value;
    if patch.phase != "" {
      assert ParsePhase(patch.phase) == Some(q.phase);
    }
    if patch.status != "" {
      assert ParseProgramStatus(patch.status) == Some(q.status);
    }
  }

  /** 404 for an unknown id; otherwise the COALESCE update of that one row (500 and no change on a CHECK failure). */
  method UpdateProgram(db: Store, id: string, patch: ProgramPatch, now: string) returns (r: Reply<Program>)
    requires db.Valid()
    modifies db
    ensures db.Valid()
    ensures id !in KeySet(old(db.programs), ProgramId) ==> r == Err(404, ProgramNotFound) && db.Tables() == old(db.Tables())
    ensures id in KeySet(old(db.programs), ProgramId) ==>
              var i := IndexOf(old(db.programs), ProgramId, id).value;
              var updated := PatchProgram(old(db.programs)[i], patch, now);
              if updated.Some? then
                && r == Ok(200, updated.value)
                && db.programs == old(db.programs)[i := updated.value]
                && db.users == old(db.users) && db.studies == old(db.studies) && db.milestones == old(db.milestones)
              else
                r == Err(500, InternalError) && db.Tables() == old(db.Tables())
  {
    var found := IndexOf(db.programs, ProgramId, id);
    if found.None? {
      return Err(404, ProgramNotFound);
    }
    var i := found.value;
    var updated := PatchProgram(db.programs[i], patch, now);
    if updated.None? {
      return Err(500, InternalError);
    }
    db.UpdateProgramAt(i, updated.value);
    r := Ok(200, updated.value);
  }

  // =====================================================================
  // DELETE /api/programs/:id
  // =====================================================================

  /** 404 for an unknown id; otherwise exactly that program goes, with its studies and milestones. */
  method DeleteProgram(db: Store, id: string) returns (r: Reply<string>)
    requires db.Valid()
    modifies db
    ensures db.Valid()
    ensures id !in KeySet(old(db.programs), ProgramId) ==> r == Err(404, ProgramNotFound) && db.Tables() == old(db.Tables())
    ensures id in KeySet(old(db.programs), ProgramId) ==>
              var i := IndexOf(old(db.programs), ProgramId, id).value;
              && r == Ok(200, "Program deleted")
              && db.programs == old(db.programs)[..i] + old(db.programs)[i + 1..]
              && db.studies == StudiesOutsideProgram(old(db.studies), id)
              && db.milestones == MilestonesAfterProgramDelete(old(db.milestones), old(db.studies), id)
              && db.users == old(db.users)
  {
    var found := IndexOf(db.programs, ProgramId, id);
    if found.None? {
      return Err(404, ProgramNotFound);
    }
    DeleteRemovesExactlyOne(db.programs, found.value);
    db.DeleteProgram(id);
    r := Ok(200, "Program deleted");
  }
}

/**
  * GET /api/dashboard: row counts, enrollment sums, three COUNT ... GROUP BY
  * tables copied into JS objects, the ten soonest open milestones with their
  * program's name and code, and enrollment summed per program phase over a
  * LEFT JOIN. The handler only reads the store.
  */
module Dashboard {
  import opened Common
  import opened Types
  import opened Database
  import opened Ordering
  import opened Grouping
  import opened Programs

  // ---------------------------------------------------------------------
  // JS objects filled by assignment
  // ---------------------------------------------------------------------

  /** A JS object with text keys: its (key, value) entries in insertion order. */
  type Record = seq<Row>

  lemma KeysCons(a: Row, t: seq<Row>)
    ensures Keys([a] + t) == [a.0] + Keys(t)
  {
  }

  /** record[k] = v: the entry of k is overwritten in place, or a new entry is appended. */
  function Assign(rec: Record, k: string, v: int): (r: Record)
    ensures |r| == |rec| || |r| == |rec| + 1
    ensures forall x :: x in Keys(r) <==> x in Keys(rec) || x == k
    ensures k !in Keys(rec) ==> r == rec + [(k, v)]
  {
    if rec == [] then
      assert Keys([(k, v)]) == [k];
      assert rec + [(k, v)] == [(k, v)];
      [(k, v)]
    else if rec[0].0 == k then
      KeysCons((k, v), rec[1..]);
      KeysCons(rec[0], rec[1..]);
      assert rec == [rec[0]] + rec[1..];
      [(k, v)] + rec[1..]
    else
      KeysCons(rec[0], Assign(rec[1..], k, v));
      KeysCons(rec[0], rec[1..]);
      assert rec == [rec[0]] + rec[1..];
      [rec[0]] + Assign(rec[1..], k, v)
  }

  /** rows.forEach(r => record[r.key] = r.value), starting from {}. */
  method FillRecord(rows: seq<Row>) returns (rec: Record)
    ensures forall x :: x in Keys(rec) <==> x in Keys(rows)
    ensures NoDup(Keys(rows)) ==> rec == rows
  {
    rec := [];
    for i := 0 to |rows|
      invariant forall x :: x in Keys(rec) <==> x in Keys(rows[..i])
      invariant NoDup(Keys(rows)) ==> rec == rows[..i]
    {
      assert Keys(rows[..i + 1]) == Keys(rows[..i]) + [rows[i].0];
      if NoDup(Keys(rows)) {
        forall j | 0 <= j < i ensures Keys(rows[..i])[j] != rows[i].0 {
          assert Keys(rows[..i])[j] == Keys(rows)[j];
          assert Keys(rows)[i] == rows[i].0;
        }
      }
      rec := Assign(rec, rows[i].0, rows[i].1);
      assert rows[..i + 1] == rows[..i] + [rows[i]];
    }
    assert rows[..|rows|] == rows;
  }

  // ---------------------------------------------------------------------
  // Upcoming milestones
  // ---------------------------------------------------------------------

  /** One row of the upcoming list: the milestone and the name and code of its program. */
  datatype UpcomingMilestone = UpcomingMilestone(milestone: Milestone, programName: string, programCode: string)

  /** status IN ('Pending', 'In Progress') AND planned_date IS NOT NULL */
  predicate IsUpcoming(m: Milestone)
  {
    (m.status == Pending || m.status == InProgress) && m.plannedDate.Some?
  }

  /** The WHERE clause together with the inner JOIN on programs. */
  function UpcomingSelector(ps: seq<Program>): Milestone -> bool
  {
    (m: Milestone) => IsUpcoming(m) && m.programId in KeySet(ps, ProgramId)
  }

  /** The joined columns p.name and p.code. */
  function WithProgram(m: Milestone, ps: seq<Program>): UpcomingMilestone
  {
    match FindProgram(ps, m.programId)
    case Some(p) => UpcomingMilestone(m, p.name, p.code)
    case None => UpcomingMilestone(m, "", "")
  }

  const UpcomingLimit := 10

  /** ORDER BY m.planned_date ASC LIMIT 10 */
  function Upcoming(ps: seq<Program>, ms: seq<Milestone>): seq<UpcomingMilestone>
  {
    FirstWithPrograms(OrderBy(Filter(ms, UpcomingSelector(ps)), PlannedDateKey, false), ps)
  }

  /** LIMIT 10 over the ordered milestones, each joined with its program. */
  function FirstWithPrograms(o: seq<Milestone>, ps: seq<Program>): seq<UpcomingMilestone>
  {
    var top := if |o| <= UpcomingLimit then o else o[..UpcomingLimit];
    seq(|top|, i requires 0 <= i < |top| => WithProgram(top[i], ps))
  }

  lemma FirstWithProgramsRows(o: seq<Milestone>, ps: seq<Program>)
    ensures var u := FirstWithPrograms(o, ps);
            && |u| == (if |o| <= UpcomingLimit then |o| else UpcomingLimit)
            && forall i :: 0 <= i < |u| ==> u[i] == WithProgram(o[i], ps) && u[i].milestone == o[i]
  {
    var top := if |o| <= UpcomingLimit then o else o[..UpcomingLimit];
    forall i | 0 <= i < |top| ensures WithProgram(top[i], ps).milestone == o[i] {
      assert top[i] == o[i];
    }
  }

  lemma UpcomingRows(ps: seq<Program>, ms: seq<Milestone>)
    ensures var o := OrderBy(Filter(ms, UpcomingSelector(ps)), PlannedDateKey, false);
            var u := Upcoming(ps, ms);
            && |u| == (if |o| <= UpcomingLimit then |o| else UpcomingLimit)
            && forall i :: 0 <= i < |u| ==> u[i] == WithProgram(o[i], ps) && u[i].milestone == o[i]
  {
    FirstWithProgramsRows(OrderBy(Filter(ms, UpcomingSelector(ps)), PlannedDateKey, false), ps);
  }

  /** Every row of an ordering of the qualifying milestones is an open, dated milestone of a listed program. */
  lemma OrderedAreUpcoming(ps: seq<Program>, ms: seq<Milestone>, o: seq<Milestone>)
    requires multiset(o) == multiset(Filter(ms, UpcomingSelector(ps)))
    ensures forall i :: 0 <= i < |o| ==> o[i] in ms && IsUpcoming(o[i]) && o[i].programId in KeySet(ps, ProgramId)
  {
    var f := Filter(ms, UpcomingSelector(ps));
    forall i | 0 <= i < |o| ensures o[i] in ms && IsUpcoming(o[i]) && o[i].programId in KeySet(ps, ProgramId) {
      assert o[i] in multiset(f);
      assert UpcomingSelector(ps)(o[i]);
    }
  }

  /** The join finds the milestone's own program. */
  lemma WithProgramJoins(m: Milestone, ps: seq<Program>)
    requires m.programId in KeySet(ps, ProgramId)
    ensures var u := WithProgram(m, ps);
            && u.milestone == m
            && exists p :: p in ps && p.id == m.programId && p.name == u.programName && p.code == u.programCode
  {
    var p := FindProgram(ps, m.programId);
    assert WithProgram(m, ps) == UpcomingMilestone(m, p.value.name, p.value.code);
  }

  /**
    * What the upcoming list promises about the qualifying milestones f:
    * at most ten rows, all of them if fewer qualify; each an open
    * milestone with a planned date, listed with its own program's name and
    * code; ascending by planned date; and the first rows of an admissible
    * ORDER BY planned_date of f.
    */
  ghost predicate UpcomingPromises(u: seq<UpcomingMilestone>, f: seq<Milestone>, ps: seq<Program>, ms: seq<Milestone>)
  {
    && |u| == (if |f| <= UpcomingLimit then |f| else UpcomingLimit)
    && (forall i :: 0 <= i < |u| ==>
          && u[i].milestone in ms && IsUpcoming(u[i].milestone)
          && exists p :: p in ps && p.id == u[i].milestone.programId
                         && p.name == u[i].programName && p.code == u[i].programCode)
    && (forall i, j :: 0 <= i < j < |u| ==>
          && u[i].milestone.plannedDate.Some? && u[j].milestone.plannedDate.Some?
          && StrLe(u[i].milestone.plannedDate.value, u[j].milestone.plannedDate.value))
    && (exists o :: && IsOrdering(o, f, PlannedDateKey, false)
                    && |u| <= |o|
                    && forall i :: 0 <= i < |u| ==> u[i].milestone == o[i])
  }

  /** The first rows of an ordering of qualifying milestones, each joined with its program, keep those promises. */
  lemma LeadingRows(u: seq<UpcomingMilestone>, o: seq<Milestone>, f: seq<Milestone>, ps: seq<Program>, ms: seq<Milestone>)
    requires IsOrdering(o, f, PlannedDateKey, false) && |o| == |f|
    requires forall i :: 0 <= i < |o| ==> o[i] in ms && IsUpcoming(o[i]) && o[i].programId in KeySet(ps, ProgramId)
    requires |u| == (if |o| <= UpcomingLimit then |o| else UpcomingLimit)
    requires forall i :: 0 <= i < |u| ==> u[i] == WithProgram(o[i], ps) && u[i].milestone == o[i]
    ensures UpcomingPromises(u, f, ps, ms)
  {
    forall i | 0 <= i < |u|
      ensures && u[i].milestone in ms && IsUpcoming(u[i].milestone)
              && exists p :: p in ps && p.id == u[i].milestone.programId
                             && p.name == u[i].programName && p.code == u[i].programCode
    {
      WithProgramJoins(o[i], ps);
    }
    forall i, j | 0 <= i < j < |u|
      ensures && u[i].milestone.plannedDate.Some? && u[j].milestone.plannedDate.Some?
              && StrLe(u[i].milestone.plannedDate.value, u[j].milestone.plannedDate.value)
    {
      assert InOrder(PlannedDateKey(o[i]), PlannedDateKey(o[j]), false);
    }
  }

  /** The upcoming list keeps every promise of UpcomingPromises over the qualifying milestones. */
  lemma UpcomingSpec(ps: seq<Program>, ms: seq<Milestone>)
    ensures UpcomingPromises(Upcoming(ps, ms), Filter(ms, UpcomingSelector(ps)), ps, ms)
  {
    var u := Upcoming(ps, ms);
    var f := Filter(ms, UpcomingSelector(ps));
    var o := OrderBy(f, PlannedDateKey, false);
    PermutationLength(o, f);
    UpcomingRows(ps, ms);
    OrderedAreUpcoming(ps, ms, o);
    LeadingRows(u, o, f, ps, ms);
  }

  /** A qualifying milestone that is not listed is left out only because ten sooner-or-equal ones were. */
  lemma UpcomingIsEarliest(ps: seq<Program>, ms: seq<Milestone>, m: Milestone)
    requires m in ms && IsUpcoming(m) && m.programId in KeySet(ps, ProgramId)
    requires forall i :: 0 <= i < |Upcoming(ps, ms)| ==> Upcoming(ps, ms)[i].milestone != m
    ensures |Upcoming(ps, ms)| == UpcomingLimit
    ensures forall i :: 0 <= i < |Upcoming(ps, ms)| ==>
              && Upcoming(ps, ms)[i].milestone.plannedDate.Some?
              && StrLe(Upcoming(ps, ms)[i].milestone.plannedDate.value, m.plannedDate.value)
  {
    var u := Upcoming(ps, ms);
    var f := Filter(ms, UpcomingSelector(ps));
    var o := OrderBy(f, PlannedDateKey, false);
    PermutationLength(o, f);
    assert m in f;
    UpcomingRows(ps, ms);
    OrderedAreUpcoming(ps, ms, o);
    LeadingRowsOmit(u, o, f, m);
  }

  /** A row of the ordering that is not among the first rows comes after all of them, and they are ten. */
  lemma LeadingRowsOmit(u: seq<UpcomingMilestone>, o: seq<Milestone>, f: seq<Milestone>, m: Milestone)
    requires IsOrdering(o, f, PlannedDateKey, false) && m in f && IsUpcoming(m)
    requires forall i :: 0 <= i < |o| ==> IsUpcoming(o[i])
    requires |u| == (if |o| <= UpcomingLimit then |o| else UpcomingLimit)
    requires forall i :: 0 <= i < |u| ==> u[i].milestone == o[i] && u[i].milestone != m
    ensures |u| == UpcomingLimit
    ensures forall i :: 0 <= i < |u| ==>
              && u[i].milestone.plannedDate.Some?
              && StrLe(u[i].milestone.plannedDate.value, m.plannedDate.value)
  {
    assert m in multiset(o);
    var k :| 0 <= k < |o| && o[k] == m;
    assert k >= |u|;
    forall i | 0 <= i < |u|
      ensures && u[i].milestone.plannedDate.Some?
              && StrLe(u[i].milestone.plannedDate.value, m.plannedDate.value)
    {
      assert InOrder(PlannedDateKey(o[i]), PlannedDateKey(o[k]), false);
    }
  }

  // ---------------------------------------------------------------------
  // Enrollment per program phase
  // ---------------------------------------------------------------------

  datatype PhaseEnrollment = PhaseEnrollment(phase: string, currentEnrollment: int, targetEnrollment: int)

  /**
    * The LEFT JOIN, one row per program: its phase and the sum over its
    * studies, 0 when it has none (a NULL-only group contributes nothing).
    */
  function ProgramCurrent(ps: seq<Program>, ss: seq<Study>): seq<Row>
  {
    seq(|ps|, i requires 0 <= i < |ps| => (PhaseName(ps[i].phase), GroupSum(CurrentByProgram(ss), ps[i].id)))
  }

  function ProgramTarget(ps: seq<Program>, ss: seq<Study>): seq<Row>
  {
    seq(|ps|, i requires 0 <= i < |ps| => (PhaseName(ps[i].phase), GroupSum(TargetByProgram(ss), ps[i].id)))
  }

  /** GROUP BY p.phase ORDER BY p.phase, with COALESCE(SUM(..), 0). */
  function EnrollmentByPhase(ps: seq<Program>, ss: seq<Study>): seq<PhaseEnrollment>
  {
    var d := Distinct(PhaseNames(ps));
    seq(|d|, i requires 0 <= i < |d| =>
      PhaseEnrollment(d[i], GroupSum(ProgramCurrent(ps, ss), d[i]), GroupSum(ProgramTarget(ps, ss), d[i])))
  }

  function CurrentColumn(e: seq<PhaseEnrollment>): seq<Row>
  {
    seq(|e|, i requires 0 <= i < |e| => (e[i].phase, e[i].currentEnrollment))
  }

  function TargetColumn(e: seq<PhaseEnrollment>): seq<Row>
  {
    seq(|e|, i requires 0 <= i < |e| => (e[i].phase, e[i].targetEnrollment))
  }

  /**
    * One row per phase some program has, ascending; a phase none of whose
    * programs has a study still appears, with both sums 0.
    */
  lemma EnrollmentByPhaseRows(ps: seq<Program>, ss: seq<Study>)
    ensures StrictlyAscending(Keys(CurrentColumn(EnrollmentByPhase(ps, ss))))
    ensures forall x :: x in Keys(CurrentColumn(EnrollmentByPhase(ps, ss))) <==>
                          exists p :: p in ps && PhaseName(p.phase) == x
    ensures forall i :: 0 <= i < |EnrollmentByPhase(ps, ss)| ==>
              (forall p, s :: p in ps && PhaseName(p.phase) == EnrollmentByPhase(ps, ss)[i].phase && s in ss ==>
                 s.programId != p.id) ==>
              EnrollmentByPhase(ps, ss)[i].currentEnrollment == 0 && EnrollmentByPhase(ps, ss)[i].targetEnrollment == 0
  {
    var e := EnrollmentByPhase(ps, ss);
    var d := Distinct(PhaseNames(ps));
    assert Keys(CurrentColumn(e)) == d;
    PhaseNamesMembers(ps);
    forall i | 0 <= i < |e| &&
               (forall p, s :: p in ps && PhaseName(p.phase) == e[i].phase && s in ss ==> s.programId != p.id)
      ensures e[i].currentEnrollment == 0 && e[i].targetEnrollment == 0
    {
      var pc, pt := ProgramCurrent(ps, ss), ProgramTarget(ps, ss);
      forall j | 0 <= j < |ps| && pc[j].0 == d[i] ensures pc[j].1 == 0 && pt[j].1 == 0 {
        assert ps[j] in ps;
        forall k | 0 <= k < |ss| ensures Keys(CurrentByProgram(ss))[k] != ps[j].id
                                     && Keys(TargetByProgram(ss))[k] != ps[j].id {
          assert ss[k] in ss;
        }
        AbsentGroupIsZero(CurrentByProgram(ss), ps[j].id);
        AbsentGroupIsZero(TargetByProgram(ss), ps[j].id);
      }
      ZeroGroup(pc, d[i]);
      ZeroGroup(pt, d[i]);
    }
  }

  function ProgramIds(ps: seq<Program>): seq<string>
  {
    seq(|ps|, i requires 0 <= i < |ps| => ps[i].id)
  }

  /** Summing per-phase sums of per-program sums gives the sum over every row. */
  lemma {:induction false} PhaseSumsCover(ps: seq<Program>, rows: seq<Row>, perProgram: seq<Row>)
    requires UniqueKey(ps, ProgramId)
    requires forall i :: 0 <= i < |rows| ==> rows[i].0 in KeySet(ps, ProgramId)
    requires |perProgram| == |ps|
    requires forall i :: 0 <= i < |ps| ==> perProgram[i] == (PhaseName(ps[i].phase), GroupSum(rows, ps[i].id))
    ensures Total(GroupRows(Distinct(PhaseNames(ps)), perProgram)) == Total(rows)
  {
    var d := Distinct(PhaseNames(ps));
    AscendingNoDup(d);
    forall i | 0 <= i < |perProgram| ensures perProgram[i].0 in d {
      assert PhaseNames(ps)[i] == perProgram[i].0;
    }
    GroupsCoverTotal(d, perProgram);
    var ids := ProgramIds(ps);
    forall i, j | 0 <= i < j < |ids| ensures ids[i] != ids[j] {
      assert ProgramId(ps[i]) != ProgramId(ps[j]);
    }
    forall i | 0 <= i < |rows| ensures rows[i].0 in ids {
      assert rows[i].0 in KeySet(ps, ProgramId);
      var j :| 0 <= j < |ps| && ps[j].id == rows[i].0;
      assert ids[j] == rows[i].0;
    }
    GroupsCoverTotal(ids, rows);
    TotalSameValues(perProgram, GroupRows(ids, rows));
  }

  /**
    * When every study belongs to an existing program (and program ids are
    * unique), the per-phase sums add up to the sums over all studies: no
    * study is lost or counted twice by the LEFT JOIN.
    */
  lemma EnrollmentByPhaseTotals(ps: seq<Program>, ss: seq<Study>)
    requires UniqueKey(ps, ProgramId)
    requires forall i :: 0 <= i < |ss| ==> ss[i].programId in KeySet(ps, ProgramId)
    ensures Total(CurrentColumn(EnrollmentByPhase(ps, ss))) == Total(CurrentByProgram(ss))
    ensures Total(TargetColumn(EnrollmentByPhase(ps, ss))) == Total(TargetByProgram(ss))
  {
    var e := EnrollmentByPhase(ps, ss);
    var d := Distinct(PhaseNames(ps));
    assert CurrentColumn(e) == GroupRows(d, ProgramCurrent(ps, ss));
    assert TargetColumn(e) == GroupRows(d, ProgramTarget(ps, ss));
    PhaseSumsCover(ps, CurrentByProgram(ss), ProgramCurrent(ps, ss));
    PhaseSumsCover(ps, TargetByProgram(ss), ProgramTarget(ps, ss));
  }

  // ---------------------------------------------------------------------
  // The response
  // ---------------------------------------------------------------------

  datatype DashboardStats = DashboardStats(
    totalPrograms: int,
    totalStudies: int,
    totalEnrollment: int,
    targetEnrollment: int,
    byPhase: Record,
    byTherapeuticArea: Record,
    byStatus: Record,
    upcomingMilestones: seq<UpcomingMilestone>,
    enrollmentByPhase: seq<PhaseEnrollment>)

  /** What the handler answers for the given tables. */
  function DashboardOf(ps: seq<Program>, ss: seq<Study>, ms: seq<Milestone>): DashboardStats
  {
    DashboardStats(
      |ps|, |ss|, Total(CurrentByProgram(ss)), Total(TargetByProgram(ss)),
      CountBy(PhaseNames(ps)), CountBy(AreaNames(ps)), CountBy(StatusNames(ps)),
      Upcoming(ps, ms), EnrollmentByPhase(ps, ss))
  }

  /** The handler: it runs the queries, copies the three grouped tables into objects and changes no table. */
  method GetDashboard(db: Store) returns (d: DashboardStats)
    ensures d == DashboardOf(db.programs, db.studies, db.milestones)
  {
    var ps, ss, ms := db.programs, db.studies, db.milestones;
    CountByFacts(PhaseNames(ps));
    CountByFacts(AreaNames(ps));
    CountByFacts(StatusNames(ps));
    AscendingNoDup(Keys(CountBy(PhaseNames(ps))));
    AscendingNoDup(Keys(CountBy(AreaNames(ps))));
    AscendingNoDup(Keys(CountBy(StatusNames(ps))));
    var byPhase := FillRecord(CountBy(PhaseNames(ps)));
    var byArea := FillRecord(CountBy(AreaNames(ps)));
    var byStatus := FillRecord(CountBy(StatusNames(ps)));
    d := DashboardStats(
      |ps|, |ss|, Total(CurrentByProgram(ss)), Total(TargetByProgram(ss)),
      byPhase, byArea, byStatus, Upcoming(ps, ms), EnrollmentByPhase(ps, ss));
  }

  lemma TotalOfNone(rows: seq<Row>)
    requires rows == []
    ensures Total(rows) == 0
  {
  }

  /**
    * The two sums are 0 without studies; byPhase, byTherapeuticArea and
    * byStatus each list every present value once, ascending, with its number
    * of programs, and their counts add up to totalPrograms.
    */
  lemma DashboardCounts(ps: seq<Program>, ss: seq<Study>, ms: seq<Milestone>)
    ensures var d := DashboardOf(ps, ss, ms);
            && d.totalPrograms == |ps| && d.totalStudies == |ss|
            && (ss == [] ==> d.totalEnrollment == 0 && d.targetEnrollment == 0)
    ensures var d := DashboardOf(ps, ss, ms);
            && StrictlyAscending(Keys(d.byPhase))
            && (forall x :: x in Keys(d.byPhase) <==> exists p :: p in ps && PhaseName(p.phase) == x)
            && (forall i :: 0 <= i < |d.byPhase| ==> d.byPhase[i].1 == multiset(PhaseNames(ps))[d.byPhase[i].0] >= 1)
            && Total(d.byPhase) == d.totalPrograms
    ensures var d := DashboardOf(ps, ss, ms);
            && StrictlyAscending(Keys(d.byTherapeuticArea))
            && (forall x :: x in Keys(d.byTherapeuticArea) <==> exists p :: p in ps && p.therapeuticArea == x)
            && (forall i :: 0 <= i < |d.byTherapeuticArea| ==>
                  d.byTherapeuticArea[i].1 == multiset(AreaNames(ps))[d.byTherapeuticArea[i].0] >= 1)
            && Total(d.byTherapeuticArea) == d.totalPrograms
    ensures var d := DashboardOf(ps, ss, ms);
            && StrictlyAscending(Keys(d.byStatus))
            && (forall x :: x in Keys(d.byStatus) <==> exists p :: p in ps && ProgramStatusName(p.status) == x)
            && (forall i :: 0 <= i < |d.byStatus| ==> d.byStatus[i].1 == multiset(StatusNames(ps))[d.byStatus[i].0] >= 1)
            && Total(d.byStatus) == d.totalPrograms
  {
    if ss == [] {
      TotalOfNone(CurrentByProgram(ss));
      TotalOfNone(TargetByProgram(ss));
    }
    CountByFacts(PhaseNames(ps));
    CountByFacts(AreaNames(ps));
    CountByFacts(StatusNames(ps));
    PhaseNamesMembers(ps);
    AreaNamesMembers(ps);
    StatusNamesMembers(ps);
  }
}

/**
  * The dashboard page of the web client: it keeps the statistics it
  * received, lists the phase and therapeutic-area counts largest first,
  * shows the enrollment percentage, and picks badge colours by name.
  *
  * `Object.entries(record).sort((a, b) => b[1] - a[1])` is modelled by
  * SortByCountDesc: JavaScript's sort is stable, so entries with equal
  * counts keep the order in which they were received.
  */
module DashboardView {
  import opened Common
  import opened Types
  import opened Grouping
  import opened Dashboard

  // =====================================================================
  // Entries by count, largest first, stable
  // =====================================================================

  ghost predicate CountsNonIncreasing(s: seq<Row>)
  {
    forall i, j :: 0 <= i < j < |s| ==> s[i].1 >= s[j].1
  }

  function CountIs(c: int): Row -> bool
  {
    (e: Row) => e.1 == c
  }

  /** Puts x in front of the first entry whose count is not larger than its own. */
  function InsertByCount(x: Row, s: seq<Row>): (r: seq<Row>)
    ensures multiset(r) == multiset(s) + multiset{x}
    ensures |r| == |s| + 1
  {
    if s == [] || s[0].1 <= x.1 then [x] + s
    else
      assert s == [s[0]] + s[1..];
      [s[0]] + InsertByCount(x, s[1..])
  }

  /** Insertion sort from the back: each entry goes in front of the later ones with the same count. */
  function SortByCountDesc(s: seq<Row>): (r: seq<Row>)
    ensures multiset(r) == multiset(s)
    ensures |r| == |s|
  {
    if s == [] then []
    else
      assert s == [s[0]] + s[1..];
      InsertByCount(s[0], SortByCountDesc(s[1..]))
  }

  /** An entry whose count is at least every count of a sorted list may go in front of it. */
  lemma ConsSorted(x: Row, s: seq<Row>)
    requires CountsNonIncreasing(s)
    requires forall y :: y in s ==> x.1 >= y.1
    ensures CountsNonIncreasing([x] + s)
  {
    var r := [x] + s;
    forall i, j | 0 <= i < j < |r| ensures r[i].1 >= r[j].1 {
      assert r[j] == s[j - 1];
      if i > 0 {
        assert r[i] == s[i - 1];
      }
    }
  }

  lemma {:induction false} InsertByCountSorted(x: Row, s: seq<Row>)
    requires CountsNonIncreasing(s)
    ensures CountsNonIncreasing(InsertByCount(x, s))
  {
    if s == [] || s[0].1 <= x.1 {
      forall y | y in s ensures x.1 >= y.1 {
        var j :| 0 <= j < |s| && s[j] == y;
        assert s[0].1 >= s[j].1;
      }
      ConsSorted(x, s);
    } else {
      var rest := InsertByCount(x, s[1..]);
      InsertByCountSorted(x, s[1..]);
      forall y | y in rest ensures s[0].1 >= y.1 {
        assert y in multiset(rest);
        if y != x {
          assert y in multiset(s[1..]);
          var j :| 0 <= j < |s[1..]| && s[1..][j] == y;
          assert s[j + 1] == y;
        }
      }
      ConsSorted(s[0], rest);
    }
  }

  lemma {:induction false} SortByCountDescSorted(s: seq<Row>)
    ensures CountsNonIncreasing(SortByCountDesc(s))
  {
    if s != [] {
      SortByCountDescSorted(s[1..]);
      InsertByCountSorted(s[0], SortByCountDesc(s[1..]));
    }
  }

  /** Inserting x changes the entries of count c only when x has that count, and then puts x first among them. */
  lemma {:induction false} InsertByCountStable(x: Row, s: seq<Row>, c: int)
    ensures Filter(InsertByCount(x, s), CountIs(c)) == if x.1 == c then [x] + Filter(s, CountIs(c)) else Filter(s, CountIs(c))
  {
    if s == [] || s[0].1 <= x.1 {
      assert InsertByCount(x, s) == [x] + s;
      FilterCons(x, s, CountIs(c));
    } else {
      var rest := InsertByCount(x, s[1..]);
      assert InsertByCount(x, s) == [s[0]] + rest;
      assert s == [s[0]] + s[1..];
      InsertByCountStable(x, s[1..], c);
      FilterCons(s[0], rest, CountIs(c));
      FilterCons(s[0], s[1..], CountIs(c));
      if x.1 == c {
        assert s[0].1 != c;
      }
    }
  }

  /**
    * The sort is stable: for every count, the entries with that count
    * appear in the output in the same order as in the input.
    */
  lemma {:induction false} SortByCountDescStable(s: seq<Row>, c: int)
    ensures Filter(SortByCountDesc(s), CountIs(c)) == Filter(s, CountIs(c))
  {
    if s != [] {
      SortByCountDescStable(s[1..], c);
      InsertByCountStable(s[0], SortByCountDesc(s[1..]), c);
      assert s == [s[0]] + s[1..];
      FilterCons(s[0], s[1..], CountIs(c));
    }
  }

  // =====================================================================
  // The component's state
  // =====================================================================

  class DashboardPage {
    var stats: Option<DashboardStats>
    var loading: bool
    var phaseEntries: seq<Row>
    var areaEntries: seq<Row>

    /** Nothing loaded yet; the spinner shows. */
    constructor()
      ensures stats == None && loading && phaseEntries == [] && areaEntries == []
    {
      stats := None;
      loading := true;
      phaseEntries := [];
      areaEntries := [];
    }

    /** The success callback of the dashboard request. */
    method OnLoaded(data: DashboardStats)
      modifies this
      ensures stats == Some(data) && !loading
      ensures phaseEntries == SortByCountDesc(data.byPhase)
      ensures areaEntries == SortByCountDesc(data.byTherapeuticArea)
    {
      stats := Some(data);
      phaseEntries := SortByCountDesc(data.byPhase);
      areaEntries := SortByCountDesc(data.byTherapeuticArea);
      loading := false;
    }

    /** The error callback only stops the spinner. */
    method OnLoadFailed()
      modifies this
      ensures !loading
      ensures stats == old(stats) && phaseEntries == old(phaseEntries) && areaEntries == old(areaEntries)
    {
      loading := false;
    }

    /** getEnrollmentPct: 0 until statistics arrive or when the target is 0, else current / target * 100. */
    function EnrollmentPct(): (r: real)
      reads this
      ensures stats.None? || stats.value.targetEnrollment == 0 ==> r == 0.0
      ensures stats.Some? && stats.value.targetEnrollment != 0 ==>
                r * (stats.value.targetEnrollment as real) == (stats.value.totalEnrollment as real) * 100.0
    {
      if stats.None? || stats.value.targetEnrollment == 0 then 0.0
      else (stats.value.totalEnrollment as real / stats.value.targetEnrollment as real) * 100.0
    }
  }

  /**
    * The entries shown after the statistics arrive are a reordering of
    * the record they came from, largest count first, with entries of
    * equal count in the order received.
    */
  lemma EntriesOrder(rec: Record)
    ensures multiset(SortByCountDesc(rec)) == multiset(rec)
    ensures CountsNonIncreasing(SortByCountDesc(rec))
    ensures forall c :: Filter(SortByCountDesc(rec), CountIs(c)) == Filter(rec, CountIs(c))
  {
    SortByCountDescSorted(rec);
    forall c ensures Filter(SortByCountDesc(rec), CountIs(c)) == Filter(rec, CountIs(c)) {
      SortByCountDescStable(rec, c);
    }
  }

  /** With counts and a target that are not negative, the percentage is not negative, and 100 when on target. */
  lemma EnrollmentPctBounds(page: DashboardPage)
    requires page.stats.Some? && page.stats.value.totalEnrollment >= 0 && page.stats.value.targetEnrollment > 0
    ensures page.EnrollmentPct() >= 0.0
    ensures page.stats.value.totalEnrollment == page.stats.value.targetEnrollment ==> page.EnrollmentPct() == 100.0
    ensures page.stats.value.totalEnrollment <= page.stats.value.targetEnrollment ==> page.EnrollmentPct() <= 100.0
  {
    var t := page.stats.value.totalEnrollment as real;
    var g := page.stats.value.targetEnrollment as real;
    assert page.EnrollmentPct() == (t / g) * 100.0;
    if t <= g {
      assert t / g <= 1.0;
    }
  }

  // =====================================================================
  // Badge colours: a fixed table, 'secondary' for any other key
  // =====================================================================

  const PhaseColors: map<string, string> := map[
    "Discovery" := "dark", "Preclinical" := "secondary",
    "Phase I" := "info", "Phase II" := "primary",
    "Phase III" := "success", "Filed" := "warning", "Approved" := "danger"]

  const CategoryColors: map<string, string> := map[
    "Regulatory" := "info", "Clinical" := "success",
    "Manufacturing" := "warning", "Commercial" := "primary"]

  const StatusColors: map<string, string> := map[
    "Completed" := "success", "On Track" := "primary",
    "At Risk" := "warning", "Delayed" := "danger",
    "Pending" := "secondary", "Not Started" := "light"]

  /** `table[key] || 'secondary'`: no colour in the tables is empty, so a listed key gives its colour. */
  function Lookup(table: map<string, string>, key: string): (r: string)
    ensures key in table && table[key] != "" ==> r == table[key]
    ensures key !in table ==> r == "secondary"
  {
    if key in table && table[key] != "" then table[key] else "secondary"
  }

  function PhaseColor(phase: string): string { Lookup(PhaseColors, phase) }
  function CategoryBadgeColor(category: string): string { Lookup(CategoryColors, category) }
  function StatusBadgeColor(status: string): string { Lookup(StatusColors, status) }

  /**
    * The seven phases get seven different colours; 'secondary' is shared
    * by Preclinical and every text that is not a phase.
    */
  lemma PhaseColorsDistinct()
    ensures forall p, q :: p != q ==> PhaseColor(PhaseName(p)) != PhaseColor(PhaseName(q))
  {
  }

  lemma PhaseColorFallback()
    ensures forall s :: PhaseColor(s) == "secondary" <==> s == "Preclinical" || s !in PhaseColors
  {
  }

  /** The colour table is keyed by exactly the seven phase names. */
  lemma PhaseColorKeys()
    ensures forall s :: s in PhaseColors <==> ParsePhase(s).Some?
  {
    forall s ensures s in PhaseColors <==> ParsePhase(s).Some? {
      if ParsePhase(s).Some? {
        assert PhaseName(ParsePhase(s).value) == s;
      }
    }
  }

  /** The four named categories get four different colours; Other falls back to 'secondary'. */
  lemma CategoryColorsDistinct()
    ensures forall c, d :: c != d ==> CategoryBadgeColor(CategoryName(c)) != CategoryBadgeColor(CategoryName(d))
    ensures CategoryBadgeColor(CategoryName(Other)) == "secondary"
  {
  }

  /**
    * The status table has no key for 'In Progress' or 'Cancelled': among
    * milestone statuses, exactly those two and Pending show 'secondary'.
    */
  lemma MilestoneStatusBadges()
    ensures forall st :: StatusBadgeColor(MilestoneStatusName(st)) == "secondary" <==> st in {Pending, InProgress, Cancelled}
    ensures MilestoneStatusName(InProgress) !in StatusColors && MilestoneStatusName(Cancelled) !in StatusColors
  {
  }
}

/**
  * The program list page of the web client: its filter and paging state,
  * the list request it sends from that state, and the window of page
  * links it shows.
  *
  * The HTTP call is modelled by its two halves: LoadPrograms records the
  * query it sends in `requests`, and OnProgramsLoaded / OnProgramsFailed
  * are the two callbacks. The 300 ms debounce timer is the flag
  * `reloadPending`; FilterTimerFires is its callback.
  */
module ProgramList {
  import opened Common
  import opened Paging
  import opened Programs

  function Max(a: int, b: int): int { if a < b then b else a }
  function Min(a: int, b: int): int { if a < b then a else b }

  /** The page links around current: from max(1, current-2) up to min(total, current+2). */
  function Window(current: int, total: int): seq<int>
  {
    var start := Max(1, current - 2);
    var end := Min(total, current + 2);
    seq(if end < start then 0 else end - start + 1, k => start + k)
  }

  /**
    * The window is a run of consecutive pages, at most five, all of them
    * real pages; it is empty when there are no pages and holds the current
    * page whenever that is a real page.
    */
  lemma WindowFacts(current: int, total: int)
    ensures var w := Window(current, total);
            && |w| <= 5
            && (forall k :: 0 < k < |w| ==> w[k] == w[k - 1] + 1)
            && (forall x :: x in w <==> Max(1, current - 2) <= x <= Min(total, current + 2))
            && (forall x :: x in w ==> 1 <= x <= total)
            && (total <= 0 ==> w == [])
            && (1 <= current <= total ==> current in w)
  {
    var w := Window(current, total);
    var start := Max(1, current - 2);
    forall x | Max(1, current - 2) <= x <= Min(total, current + 2) ensures x in w {
      assert w[x - start] == x;
    }
  }

  class ProgramListPage {
    var programs: seq<ProgramWithStats>
    var loading: bool
    var total: int
    var currentPage: int
    var totalPages: int
    var pageSize: int
    var search: string
    var filterPhase: string
    var filterArea: string
    var filterStatus: string
    var sortBy: string
    var sortOrder: string
    /** The debounce timer is armed. */
    var reloadPending: bool
    /** The list requests sent so far, oldest first. */
    var requests: seq<ListQuery>

    /** Page 1 of 1, twelve per page, by name ascending, no filters, loading. */
    constructor()
      ensures currentPage == 1 && totalPages == 1 && pageSize == 12
      ensures sortBy == "name" && sortOrder == "asc"
      ensures search == "" && filterPhase == "" && filterArea == "" && filterStatus == ""
      ensures loading && programs == [] && total == 0
      ensures !reloadPending && requests == []
    {
      programs := [];
      loading := true;
      total := 0;
      currentPage := 1;
      totalPages := 1;
      pageSize := 12;
      search := "";
      filterPhase := "";
      filterArea := "";
      filterStatus := "";
      sortBy := "name";
      sortOrder := "asc";
      reloadPending := false;
      requests := [];
    }

    /** The query loadPrograms sends; empty texts are dropped from the URL, which the server reads as absent. */
    function CurrentQuery(): (q: ListQuery)
      reads this
      ensures q.page == Some(currentPage) && q.pageSize == Some(pageSize)
      ensures q.phase == filterPhase && q.therapeuticArea == filterArea && q.status == filterStatus
      ensures q.search == search && q.sortBy == sortBy && q.sortOrder == sortOrder
    {
      ListQuery(filterPhase, filterArea, filterStatus, search, Some(currentPage), Some(pageSize), sortBy, sortOrder)
    }

    /** Sends the list request for the current state and shows the spinner. */
    method LoadPrograms()
      modifies this
      ensures requests == old(requests) + [old(CurrentQuery())]
      ensures loading
      ensures programs == old(programs) && total == old(total)
      ensures currentPage == old(currentPage) && totalPages == old(totalPages) && pageSize == old(pageSize)
      ensures search == old(search) && filterPhase == old(filterPhase) && filterArea == old(filterArea)
      ensures filterStatus == old(filterStatus) && sortBy == old(sortBy) && sortOrder == old(sortOrder)
      ensures reloadPending == old(reloadPending)
    {
      loading := true;
      requests := requests + [CurrentQuery()];
    }

    /** The success callback: the page's rows, the total and the page count from the envelope. */
    method OnProgramsLoaded(e: Envelope<ProgramWithStats>)
      modifies this
      ensures programs == e.data && total == e.total && totalPages == e.totalPages && !loading
      ensures currentPage == old(currentPage) && pageSize == old(pageSize) && requests == old(requests)
      ensures search == old(search) && filterPhase == old(filterPhase) && filterArea == old(filterArea)
      ensures filterStatus == old(filterStatus) && sortBy == old(sortBy) && sortOrder == old(sortOrder)
      ensures reloadPending == old(reloadPending)
    {
      programs := e.data;
      total := e.total;
      totalPages := e.totalPages;
      loading := false;
    }

    /** The error callback only stops the spinner. */
    method OnProgramsFailed()
      modifies this
      ensures !loading
      ensures programs == old(programs) && total == old(total) && totalPages == old(totalPages)
      ensures currentPage == old(currentPage) && pageSize == old(pageSize) && requests == old(requests)
      ensures search == old(search) && filterPhase == old(filterPhase) && filterArea == old(filterArea)
      ensures filterStatus == old(filterStatus) && sortBy == old(sortBy) && sortOrder == old(sortOrder)
      ensures reloadPending == old(reloadPending)
    {
      loading := false;
    }

    /** A filter or the search text changed: (re)arm the debounce timer; nothing is sent yet. */
    method OnFilterChange()
      modifies this
      ensures reloadPending
      ensures programs == old(programs) && total == old(total) && totalPages == old(totalPages) && loading == old(loading)
      ensures currentPage == old(currentPage) && pageSize == old(pageSize) && requests == old(requests)
      ensures search == old(search) && filterPhase == old(filterPhase) && filterArea == old(filterArea)
      ensures filterStatus == old(filterStatus) && sortBy == old(sortBy) && sortOrder == old(sortOrder)
    {
      reloadPending := true;
    }

    /** The debounce timer's callback: back to page 1, then reload with the filters as they are now. */
    method FilterTimerFires()
      requires reloadPending
      modifies this
      ensures !reloadPending && currentPage == 1 && loading
      ensures requests == old(requests) + [old(CurrentQuery()).(page := Some(1))]
      ensures requests[|requests| - 1].page == Some(1)
      ensures programs == old(programs) && total == old(total) && totalPages == old(totalPages)
      ensures pageSize == old(pageSize)
      ensures search == old(search) && filterPhase == old(filterPhase) && filterArea == old(filterArea)
      ensures filterStatus == old(filterStatus) && sortBy == old(sortBy) && sortOrder == old(sortOrder)
    {
      reloadPending := false;
      currentPage := 1;
      LoadPrograms();
    }

    /** A page outside 1..totalPages is ignored; any other becomes current and is loaded. */
    method GoToPage(page: int)
      modifies this
      ensures page < 1 || page > old(totalPages) ==> requests == old(requests) && currentPage == old(currentPage) && loading == old(loading)
      ensures 1 <= page <= old(totalPages) ==>
                && currentPage == page && loading
                && requests == old(requests) + [old(CurrentQuery()).(page := Some(page))]
      ensures programs == old(programs) && total == old(total) && totalPages == old(totalPages)
      ensures pageSize == old(pageSize) && reloadPending == old(reloadPending)
      ensures search == old(search) && filterPhase == old(filterPhase) && filterArea == old(filterArea)
      ensures filterStatus == old(filterStatus) && sortBy == old(sortBy) && sortOrder == old(sortOrder)
    {
      if page < 1 || page > totalPages {
        return;
      }
      currentPage := page;
      LoadPrograms();
    }

    /** The page links, pushed one by one from the first to the last page of the window. */
    method VisiblePages() returns (pages: seq<int>)
      ensures pages == Window(currentPage, totalPages)
    {
      var start := Max(1, currentPage - 2);
      var end := Min(totalPages, currentPage + 2);
      pages := [];
      var i := start;
      while i <= end
        invariant start <= i <= Max(start, end + 1)
        invariant pages == seq(i - start, k => start + k)
        decreases end - i
      {
        pages := pages + [i];
        i := i + 1;
      }
    }

    /** A phase, area or status filter is set; the search text does not count. */
    predicate HasActiveFilters()
      reads this
    {
      filterPhase != "" || filterArea != "" || filterStatus != ""
    }

    /** Empties the three filters and the search, then arms the reload timer. */
    method ClearFilters()
      modifies this
      ensures filterPhase == "" && filterArea == "" && filterStatus == "" && search == ""
      ensures !HasActiveFilters() && reloadPending
      ensures programs == old(programs) && total == old(total) && totalPages == old(totalPages) && loading == old(loading)
      ensures currentPage == old(currentPage) && pageSize == old(pageSize) && requests == old(requests)
      ensures sortBy == old(sortBy) && sortOrder == old(sortOrder)
    {
      filterPhase := "";
      filterArea := "";
      filterStatus := "";
      search := "";
      OnFilterChange();
    }
  }

  /** Only the three filter fields decide whether filters are active, whatever the search text is. */
  lemma HasActiveFiltersIgnoresSearch(a: ProgramListPage, b: ProgramListPage)
    requires a.filterPhase == b.filterPhase && a.filterArea == b.filterArea && a.filterStatus == b.filterStatus
    ensures a.HasActiveFilters() == b.HasActiveFilters()
    ensures a.HasActiveFilters() <==> a.filterPhase != "" || a.filterArea != "" || a.filterStatus != ""
  {
  }

  /**
    * After clearing the filters and letting the timer fire, the request
    * sent is for page 1 with no filters, no search, and the same sort.
    */
  method ClearThenReload(page: ProgramListPage)
    modifies page
    ensures page.requests == old(page.requests) + [ListQuery("", "", "", "", Some(1), Some(old(page.pageSize)), old(page.sortBy), old(page.sortOrder))]
    ensures var q := page.requests[|page.requests| - 1]; forall p :: Matches(q, p)
  {
    page.ClearFilters();
    page.FilterTimerFires();
  }
}

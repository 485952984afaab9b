/** The admin venue list (`frontend-admin/assets/js/venue-list.js`), the
    copy of the list controller without the fallback chain and without
    the empty-list guard: the total is read from `result.total` alone,
    and when that field is absent every count derived from it is NaN. */
module AdminVenueList {
  import opened Js
  import opened Query
  import Pager
  import ListView
  import Http

  const PageSize: nat := 10

  const Filters: seq<ListView.Filter> := [
    ListView.Filter("keyword", "searchInput", true),
    ListView.Filter("city", "citySelect", false)
  ]

  const Cfg: ListView.Config := ListView.Config(PageSize, Filters, {})

  /** The query of `loadVenues`: page and pageSize always, the trimmed
      keyword and the city each exactly when non-empty. */
  lemma VenueQuery(page: int, keyword: string, city: string)
    ensures var controls := map["searchInput" := keyword, "citySelect" := city];
      var q := ListView.ListQuery(Cfg, page, controls);
      && q.Some?
      && Lookup(q.value, "keyword") == (if Trim(keyword) != "" then Some(Trim(keyword)) else None)
      && Lookup(q.value, "city") == (if city != "" then Some(city) else None)
  {
    var controls := map["searchInput" := keyword, "citySelect" := city];
    ListView.QueryCarriesFilters(Cfg, page, controls);
    assert Cfg.filters[0].param == "keyword" && Cfg.filters[1].param == "city";
  }

  /** Search and Enter go back to page 1 without touching the filters. */
  lemma ResetRules(s: ListView.State, totalPages: int)
    ensures var r := ListView.Step(Cfg, s, totalPages, ListView.SearchClick);
      r.reload && r.state == ListView.State(1, s.controls)
    ensures var r := ListView.Step(Cfg, s, totalPages, ListView.KeyPress("Enter"));
      r.reload && r.state == ListView.State(1, s.controls)
  {
  }

  // -----------------------------------------------------------------------
  // Counts that may be NaN

  /** `result.total` as it arrives. */
  datatype Total = Absent | Null | Count(n: nat)

  /** A number that is an integer or NaN. */
  datatype Num = NaN | Int(v: int)

  /** `Math.ceil(result.total / 10)`: null divides as 0, an absent field
      as NaN. */
  function TotalPages(t: Total): (r: Num)
    ensures r.NaN? <==> t.Absent?
    ensures t.Null? ==> r == Int(0)
    ensures t.Count? ==> r == Int(Pager.CeilDiv(t.n, PageSize))
  {
    match t
    case Absent => NaN
    case Null => Int(0)
    case Count(n) => Int(Pager.CeilDiv(n, PageSize))
  }

  /** The "showing start-end" pair with no guard on the start. */
  datatype Shown = Shown(start: int, end: Num)

  /** start = (current - 1) * 10 + 1 always; end = Math.min(current * 10,
      total), NaN when the total is. */
  function ShowRange(current: int, t: Total): (r: Shown)
    ensures r.start == Pager.RangeUnguarded(current, PageSize, 0).start
    ensures t.Count? ==> r.end == Int(Pager.RangeUnguarded(current, PageSize, t.n).end)
    ensures t.Null? ==> r.end == Int(Pager.Min(current * PageSize, 0))
    ensures t.Absent? ==> r.end == NaN
  {
    var start := (current - 1) * PageSize + 1;
    match t
    case Absent => Shown(start, NaN)
    case Null => Shown(start, Int(Pager.Min(current * PageSize, 0)))
    case Count(n) => Shown(start, Int(Pager.Min(current * PageSize, n)))
  }

  /** `renderPagination` from `if (totalPages <= 1)` on: with NaN pages
      the comparison is false, so a bar is drawn; its loop runs no turn
      and `currentPage === NaN` never holds. */
  function AdminBar(current: int, pages: Num): (r: Option<Pager.Bar>)
    ensures pages.Int? ==> (r.None? <==> pages.v <= 1)
    ensures pages.Int? && r.Some? ==> r.value == Pager.MakeBar(current, pages.v)
    ensures pages.NaN? ==> r.Some? && r.value.items == [] && !r.value.nextDisabled
    ensures r.Some? ==> (r.value.prevDisabled <==> current == 1)
  {
    match pages
    case NaN => Some(Pager.Bar(current == 1, current - 1, [], false, current + 1))
    case Int(t) => if t <= 1 then None else Some(Pager.MakeBar(current, t))
  }

  /** `goToPage(p)`: `p > NaN` is false, so with NaN pages only p < 1 is
      refused. */
  function AdminGoToPage(current: int, pages: Num, p: int): (r: Pager.Nav)
    ensures pages.Int? ==> r == Pager.GoToPage(current, pages.v, p)
    ensures pages.NaN? ==> (r.reload <==> p >= 1)
    ensures r.reload ==> r.page == p
    ensures !r.reload ==> r.page == current
  {
    match pages
    case NaN => if p < 1 then Pager.Nav(current, false) else Pager.Nav(p, true)
    case Int(t) => Pager.GoToPage(current, t, p)
  }

  /** What a load shows. `renderTable(result.list)` treats a missing list
      as empty. */
  datatype View<T> = View(rows: seq<T>, totalPages: Num, range: Shown, bar: Option<Pager.Bar>)

  function Load<T>(current: int, list: Option<seq<T>>, t: Total): (v: View<T>)
    ensures v.rows == list.GetOr([])
    ensures v.totalPages == TotalPages(t)
    ensures v.range == ShowRange(current, t)
    ensures v.bar == AdminBar(current, TotalPages(t))
  {
    var pages := TotalPages(t);
    View(list.GetOr([]), pages, ShowRange(current, t), AdminBar(current, pages))
  }

  /** With a positive total this copy shows what the guarded copies show
      for the same total: the same range and the same bar. */
  lemma AgreesWhenPositive<T>(current: int, list: seq<T>, n: nat)
    requires n > 0
    ensures var v := Load(current, Some(list), Count(n));
      var g := ListView.Load(Cfg, current, ListView.Envelope(Some(list), None, Some(n), None));
      && v.totalPages == Int(g.totalPages)
      && v.range == Shown(g.range.start, Int(g.range.end))
      && v.bar == g.bar
  {
  }

  /** It differs on an empty list: "showing 1-0" where the others show
      "0-0". */
  lemma EmptyListRange()
    ensures ShowRange(1, Count(0)) == Shown(1, Int(0))
    ensures Pager.Range(1, PageSize, 0) == Pager.Span(0, 0)
  {
  }

  /** Without a total the Next button never disables and the guard lets
      every forward step through: k presses of Next from page 1 reach
      page 1 + k, however few venues exist. */
  function PressNext(current: int, k: nat): int
    decreases k
  {
    if k == 0 then current
    else
      var b := AdminBar(current, NaN).value;
      PressNext(AdminGoToPage(current, NaN, b.nextTarget).page, k - 1)
  }

  lemma {:induction false} NextUnbounded(current: int, k: nat)
    requires current >= 1
    ensures PressNext(current, k) == current + k
    decreases k
  {
    if k > 0 {
      NextUnbounded(current + 1, k - 1);
    }
  }

  /** `deleteVenue(id)`: after the confirm, one DELETE; the list reloads
      when it succeeds. */
  function DeleteVenue(id: string, confirmed: bool, succeeds: bool): (e: ListView.Effect)
    ensures e.calls == if confirmed then [ListView.Request(Http.Call(Http.Delete, "/api/admin/venues/" + id), None)] else []
    ensures e.reload <==> confirmed && succeeds
  {
    ListView.Confirmed(ListView.Request(Http.Call(Http.Delete, "/api/admin/venues/" + id), None), confirmed, succeeds)
  }
}

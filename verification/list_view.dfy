/** The list-page controller the admin event, session and venue lists and
    the storefront venue list share: the query built from the filter
    controls, the total-count fallback chain over the API result, and the
    page/filter state changed by the search button, the Enter key, the
    select boxes and the page bar. Each page instantiates it with its own
    configuration. */
module ListView {
  import opened Js
  import opened Query
  import Pager
  import Http

  // -----------------------------------------------------------------------
  // Reading the API result

  /** The fields of a paged API result that the list pages read. An
      absent field is None. */
  datatype Envelope<T> = Envelope(list: Option<seq<T>>, data: Option<seq<T>>, total: Option<nat>, count: Option<nat>)

  /** JavaScript truthiness of a count: present and not zero. */
  predicate Truthy(n: Option<nat>) {
    n.Some? && n.value != 0
  }

  /** `result.list || result.data || []`: an array is truthy even when
      empty, so an empty `list` still wins over `data`. */
  function Rows<T>(e: Envelope<T>): (rows: seq<T>)
    ensures e.list.Some? ==> rows == e.list.value
    ensures e.list.None? ==> rows == e.data.GetOr([])
  {
    match e.list
    case Some(l) => l
    case None => e.data.GetOr([])
  }

  /** `result.total || result.count || rows.length || 0`: the first
      non-zero count in that order, else 0. */
  function TotalRecords<T>(e: Envelope<T>): (r: nat)
    ensures r == 0 <==> !Truthy(e.total) && !Truthy(e.count) && |Rows(e)| == 0
    ensures Truthy(e.total) ==> r == e.total.value
    ensures !Truthy(e.total) && Truthy(e.count) ==> r == e.count.value
    ensures !Truthy(e.total) && !Truthy(e.count) ==> r == |Rows(e)|
  {
    if Truthy(e.total) then e.total.value
    else if Truthy(e.count) then e.count.value
    else |Rows(e)|
  }

  /** A server that reports no counts gets a single page holding exactly
      the rows it sent. */
  lemma CountsFromRowsAlone<T>(e: Envelope<T>, pageSize: nat)
    requires pageSize > 0 && e.total.None? && e.count.None?
    requires 0 < |Rows(e)| <= pageSize
    ensures TotalRecords(e) == |Rows(e)|
    ensures Pager.CeilDiv(TotalRecords(e), pageSize) == 1
  {
  }

  // -----------------------------------------------------------------------
  // Query building

  /** A filter control feeding query parameter `param`; `trimmed` when the
      page applies `.trim()` to the control's value. */
  datatype Filter = Filter(param: string, control: string, trimmed: bool)

  /** Control ids of the page's filters, in the order they are read. */
  function FilterControls(filters: seq<Filter>): (ids: seq<string>)
    ensures |ids| == |filters|
    ensures forall i :: 0 <= i < |filters| ==> ids[i] == filters[i].control
  {
    if filters == [] then [] else [filters[0].control] + FilterControls(filters[1..])
  }

  /** The value a filter contributes, as the page reads it. */
  function FilterValue(f: Filter, controls: map<string, string>): string
    requires f.control in controls
  {
    if f.trimmed then Trim(controls[f.control]) else controls[f.control]
  }

  /** `if (value) params.x = value` for each filter in order. */
  function Included(filters: seq<Filter>, controls: map<string, string>): (ps: seq<Param>)
    requires forall i :: 0 <= i < |filters| ==> filters[i].control in controls
    ensures |ps| <= |filters|
    ensures forall k :: 0 <= k < |ps| ==> ps[k].value != ""
    ensures forall k :: 0 <= k < |ps| ==> exists i :: 0 <= i < |filters| && ps[k] == Param(filters[i].param, FilterValue(filters[i], controls))
  {
    if filters == [] then []
    else
      var f := filters[0];
      var v := FilterValue(f, controls);
      var rest := Included(filters[1..], controls);
      assert forall k :: 0 <= k < |rest| ==> exists i :: 1 <= i < |filters| && rest[k] == Param(filters[i].param, FilterValue(filters[i], controls)) by {
        forall k | 0 <= k < |rest|
          ensures exists i :: 1 <= i < |filters| && rest[k] == Param(filters[i].param, FilterValue(filters[i], controls))
        {
          var j :| 0 <= j < |filters[1..]| && rest[k] == Param(filters[1..][j].param, FilterValue(filters[1..][j], controls));
          assert filters[1..][j] == filters[j + 1];
        }
      }
      if v != "" then [Param(f.param, v)] + rest else rest
  }

  /** The page's list configuration. */
  datatype Config = Config(pageSize: nat, filters: seq<Filter>, reloadOnChange: set<string>)

  /** The query `loadX()` sends: page and pageSize first, then each filter
      whose value is non-empty. None when a filter control is missing,
      where the page's `document.getElementById(..).value` throws and the
      load fails. */
  function ListQuery(cfg: Config, page: int, controls: map<string, string>): (q: Option<seq<Param>>)
    ensures q.None? <==> exists i :: 0 <= i < |cfg.filters| && cfg.filters[i].control !in controls
    ensures q.Some? ==>
      && |q.value| >= 2
      && q.value[0] == Param("page", IntToString(page))
      && q.value[1] == Param("pageSize", IntToString(cfg.pageSize))
      && q.value[2..] == Included(cfg.filters, controls)
  {
    if exists i :: 0 <= i < |cfg.filters| && cfg.filters[i].control !in controls then None
    else Some([Param("page", IntToString(page)), Param("pageSize", IntToString(cfg.pageSize))] + Included(cfg.filters, controls))
  }

  /** Parameter names are distinct and differ from page and pageSize. */
  predicate WellFormed(cfg: Config) {
    && cfg.pageSize > 0
    && (forall i :: 0 <= i < |cfg.filters| ==> cfg.filters[i].param != "page" && cfg.filters[i].param != "pageSize")
    && (forall i, j :: 0 <= i < j < |cfg.filters| ==> cfg.filters[i].param != cfg.filters[j].param)
  }

  lemma {:induction false} IncludedLookup(filters: seq<Filter>, controls: map<string, string>, i: int)
    requires forall j :: 0 <= j < |filters| ==> filters[j].control in controls
    requires forall j, k :: 0 <= j < k < |filters| ==> filters[j].param != filters[k].param
    requires 0 <= i < |filters|
    ensures Lookup(Included(filters, controls), filters[i].param) ==
      if FilterValue(filters[i], controls) != "" then Some(FilterValue(filters[i], controls)) else None
    decreases |filters|
  {
    var rest := Included(filters[1..], controls);
    var key := filters[i].param;
    if i == 0 {
      forall k | 0 <= k < |rest| ensures rest[k].key != key {
        var j :| 0 <= j < |filters[1..]| && rest[k] == Param(filters[1..][j].param, FilterValue(filters[1..][j], controls));
        assert filters[1..][j] == filters[j + 1];
      }
    } else {
      IncludedLookup(filters[1..], controls, i - 1);
      assert filters[1..][i - 1] == filters[i];
    }
  }

  /** Every query parameter a page sends: page and pageSize always, and
      each filter exactly when its (trimmed) value is non-empty. */
  lemma QueryCarriesFilters(cfg: Config, page: int, controls: map<string, string>)
    requires WellFormed(cfg)
    requires forall i :: 0 <= i < |cfg.filters| ==> cfg.filters[i].control in controls
    ensures ListQuery(cfg, page, controls).Some?
    ensures Lookup(ListQuery(cfg, page, controls).value, "page") == Some(IntToString(page))
    ensures Lookup(ListQuery(cfg, page, controls).value, "pageSize") == Some(IntToString(cfg.pageSize))
    ensures forall i :: 0 <= i < |cfg.filters| ==>
      Lookup(ListQuery(cfg, page, controls).value, cfg.filters[i].param) ==
        if FilterValue(cfg.filters[i], controls) != "" then Some(FilterValue(cfg.filters[i], controls)) else None
  {
    var q := ListQuery(cfg, page, controls).value;
    forall i | 0 <= i < |cfg.filters|
      ensures Lookup(q, cfg.filters[i].param) ==
        if FilterValue(cfg.filters[i], controls) != "" then Some(FilterValue(cfg.filters[i], controls)) else None
    {
      IncludedLookup(cfg.filters, controls, i);
      assert q == q[..2] + q[2..];
      assert q[2..] == Included(cfg.filters, controls);
    }
  }

  // -----------------------------------------------------------------------
  // Page and filter state

  /** The current page and the values of the filter controls, by id. */
  datatype State = State(page: int, controls: map<string, string>)

  datatype Event =
    | SetControl(control: string, value: string)   // the user types or picks a value
    | SearchClick
    | KeyPress(key: string)                         // a key pressed in the search box
    | PagerClick(target: int)                       // an enabled page-bar button

  /** The new state and whether a list reload starts. */
  datatype Outcome = Outcome(state: State, reload: bool)

  function Step(cfg: Config, s: State, totalPages: int, e: Event): (r: Outcome)
    ensures e.SetControl? ==> r.state.controls == s.controls[e.control := e.value]
    ensures !e.SetControl? ==> r.state.controls == s.controls
    ensures e.SetControl? ==> (r.reload <==> e.control in cfg.reloadOnChange)
    ensures e.SearchClick? ==> r.reload
    ensures e.KeyPress? ==> (r.reload <==> e.key == "Enter")
    ensures e.PagerClick? ==> r.state.page == Pager.GoToPage(s.page, totalPages, e.target).page
    ensures e.PagerClick? ==> r.reload == Pager.GoToPage(s.page, totalPages, e.target).reload
    ensures !e.PagerClick? && !r.reload ==> r.state.page == s.page
    ensures !e.PagerClick? && r.reload ==> r.state.page == 1
  {
    match e
    case SetControl(c, v) =>
      var controls := s.controls[c := v];
      if c in cfg.reloadOnChange then Outcome(State(1, controls), true)
      else Outcome(State(s.page, controls), false)
    case SearchClick => Outcome(State(1, s.controls), true)
    case KeyPress(k) =>
      if k == "Enter" then Outcome(State(1, s.controls), true) else Outcome(s, false)
    case PagerClick(p) =>
      var nav := Pager.GoToPage(s.page, totalPages, p);
      Outcome(State(nav.page, s.controls), nav.reload)
  }

  /** The state after a sequence of events, with the page count of the
      last load fixed. */
  function Replay(cfg: Config, s: State, totalPages: int, events: seq<Event>): State
    decreases |events|
  {
    if events == [] then s
    else Replay(cfg, Step(cfg, s, totalPages, events[0]).state, totalPages, events[1..])
  }

  /** No event sequence moves the page outside [1, max(totalPages, 1)]. */
  lemma {:induction false} ReplayKeepsRange(cfg: Config, s: State, totalPages: int, events: seq<Event>)
    requires Pager.InRange(s.page, totalPages)
    ensures Pager.InRange(Replay(cfg, s, totalPages, events).page, totalPages)
    decreases |events|
  {
    if events != [] {
      var r := Step(cfg, s, totalPages, events[0]);
      if events[0].PagerClick? {
        Pager.GoToPageKeepsRange(s.page, totalPages, events[0].target);
      }
      ReplayKeepsRange(cfg, r.state, totalPages, events[1..]);
    }
  }

  /** Events that are not control edits never change a filter value. */
  predicate NoEdits(events: seq<Event>) {
    forall i :: 0 <= i < |events| ==> !events[i].SetControl?
  }

  lemma {:induction false} ReplayKeepsFilters(cfg: Config, s: State, totalPages: int, events: seq<Event>)
    requires NoEdits(events)
    ensures Replay(cfg, s, totalPages, events).controls == s.controls
    decreases |events|
  {
    if events != [] {
      assert !events[0].SetControl?;
      assert NoEdits(events[1..]) by {
        forall i | 0 <= i < |events[1..]| ensures !events[1..][i].SetControl? {
          assert events[1..][i] == events[i + 1];
        }
      }
      ReplayKeepsFilters(cfg, Step(cfg, s, totalPages, events[0]).state, totalPages, events[1..]);
    }
  }

  // -----------------------------------------------------------------------
  // What a load shows

  /** Rows, counts, the "showing start-end" range and the page bar after
      a successful load. */
  datatype View<T> = View(rows: seq<T>, totalRecords: nat, totalPages: nat, range: Pager.Span, bar: Option<Pager.Bar>)

  /** A load of the pages with the fallback chain and the empty-list
      guard. */
  function Load<T>(cfg: Config, page: int, e: Envelope<T>): (v: View<T>)
    requires cfg.pageSize > 0
    ensures v.rows == Rows(e) && v.totalRecords == TotalRecords(e)
    ensures v.totalPages == Pager.CeilDiv(v.totalRecords, cfg.pageSize)
    ensures v.totalRecords > 0 <==> v.totalPages > 0
    ensures v.range == Pager.Range(page, cfg.pageSize, v.totalRecords)
    ensures v.bar.None? <==> v.totalPages <= 1
    ensures v.bar.Some? ==> v.bar.value == Pager.MakeBar(page, v.totalPages)
  {
    var total := TotalRecords(e);
    var pages := Pager.CeilDiv(total, cfg.pageSize);
    View(Rows(e), total, pages, Pager.Range(page, cfg.pageSize, total), Pager.GuardedBar(page, total, pages))
  }

  // -----------------------------------------------------------------------
  // Row badges and row actions

  /** A status badge: its text and its CSS class. */
  datatype Badge = Badge(text: string, style: string)

  const FallbackStyle: string := "badge-secondary"

  /** `statusMap[status] || { text: status, class: 'badge-secondary' }` */
  function BadgeOf(table: map<string, Badge>, status: string): (b: Badge)
    ensures status in table ==> b == table[status]
    ensures status !in table ==> b == Badge(status, FallbackStyle)
  {
    if status in table then table[status] else Badge(status, FallbackStyle)
  }

  /** An API call a row button makes and, for a status change, the new
      status sent as the body. */
  datatype Request = Request(call: Http.Call, status: Option<string>)

  /** The requests made and whether the list reloads afterwards. */
  datatype Effect = Effect(calls: seq<Request>, reload: bool)

  /** `if (!confirm(..)) return; try { await call; loadX(); } catch ..`:
      no call without the confirm, and a reload only after a success. */
  function Confirmed(req: Request, confirmed: bool, succeeds: bool): (e: Effect)
    ensures e.calls == (if confirmed then [req] else [])
    ensures e.reload <==> confirmed && succeeds
  {
    if confirmed then Effect([req], succeeds) else Effect([], false)
  }
}

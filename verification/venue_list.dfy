/** The storefront copy of the venue list (`frontend/assets/js/venue-list.js`):
    the shared list controller with keyword and city filters, the fixed
    row buttons, and the delete flow. */
module VenueList {
  import opened Js
  import opened Query
  import Pager
  import ListView
  import Http

  const PageSize: nat := 10

  const Filters: seq<ListView.Filter> := [
    ListView.Filter("keyword", "searchInput", true),
    ListView.Filter("city", "citySelect", false)
  ]

  /** The city select has no change listener. */
  const Cfg: ListView.Config := ListView.Config(PageSize, Filters, {})

  /** The query of `loadVenues`: page and pageSize always, the trimmed
      keyword and the city each exactly when non-empty. */
  lemma VenueQuery(page: int, keyword: string, city: string)
    ensures var controls := map["searchInput" := keyword, "citySelect" := city];
      var q := ListView.ListQuery(Cfg, page, controls);
      && q.Some?
      && Lookup(q.value, "page") == Some(IntToString(page))
      && Lookup(q.value, "pageSize") == Some(IntToString(10))
      && Lookup(q.value, "keyword") == (if Trim(keyword) != "" then Some(Trim(keyword)) else None)
      && Lookup(q.value, "city") == (if city != "" then Some(city) else None)
  {
    var controls := map["searchInput" := keyword, "citySelect" := city];
    ListView.QueryCarriesFilters(Cfg, page, controls);
    assert Cfg.filters[0].param == "keyword" && Cfg.filters[1].param == "city";
  }

  /** Search and Enter go back to page 1 without touching the filters;
      a new city waits for the next search. */
  lemma ResetRules(s: ListView.State, totalPages: int, city: string)
    ensures var r := ListView.Step(Cfg, s, totalPages, ListView.SearchClick);
      r.reload && r.state == ListView.State(1, s.controls)
    ensures var r := ListView.Step(Cfg, s, totalPages, ListView.KeyPress("Enter"));
      r.reload && r.state == ListView.State(1, s.controls)
    ensures var r := ListView.Step(Cfg, s, totalPages, ListView.SetControl("citySelect", city));
      !r.reload && r.state.page == s.page
  {
  }

  /** A load of this page: ten rows a page, the guarded range and bar. */
  lemma LoadShape<T>(page: int, e: ListView.Envelope<T>)
    ensures var v := ListView.Load(Cfg, page, e);
      && v.totalPages == Pager.CeilDiv(ListView.TotalRecords(e), 10)
      && (ListView.TotalRecords(e) == 0 ==> v.range.start == 0 && v.bar.None?)
  {
  }

  datatype Action = View | Edit | Remove

  /** Every row gets view, edit and delete. */
  function RowActions(): (acts: seq<Action>)
    ensures |acts| == 3 && acts[0] == View && acts[1] == Edit && acts[2] == Remove
  {
    [View, Edit, Remove]
  }

  /** `deleteVenue(id)`: after the confirm, one DELETE; the list reloads
      when it succeeds. */
  function DeleteVenue(id: string, confirmed: bool, succeeds: bool): (e: ListView.Effect)
    ensures e.calls == if confirmed then [ListView.Request(Http.Call(Http.Delete, "/api/admin/venues/" + id), None)] else []
    ensures e.reload <==> confirmed && succeeds
  {
    ListView.Confirmed(ListView.Request(Http.Call(Http.Delete, "/api/admin/venues/" + id), None), confirmed, succeeds)
  }
}

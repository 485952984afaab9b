/** The admin event list (`event-list.js`): its list configuration, the
    row badge, the fixed row buttons, and the retract-or-delete flow of
    its "下架" button. */
module EventList {
  import opened Js
  import opened Query
  import ListView
  import Http

  const PageSize: nat := 10

  /** keyword from the trimmed search box, status and type from the two
      selects as they are. */
  const Filters: seq<ListView.Filter> := [
    ListView.Filter("keyword", "searchInput", true),
    ListView.Filter("status", "statusSelect", false),
    ListView.Filter("type", "typeSelect", false)
  ]

  /** Both selects reload on change. */
  const Cfg: ListView.Config := ListView.Config(PageSize, Filters, {"statusSelect", "typeSelect"})

  lemma CfgWellFormed()
    ensures ListView.WellFormed(Cfg)
  {
  }

  /** The query of `loadEvents`: page and pageSize always, the trimmed
      keyword, the status and the type each exactly when non-empty. */
  lemma EventQuery(page: int, keyword: string, status: string, kind: string)
    ensures var controls := map["searchInput" := keyword, "statusSelect" := status, "typeSelect" := kind];
      var q := ListView.ListQuery(Cfg, page, controls);
      && q.Some?
      && Lookup(q.value, "page") == Some(IntToString(page))
      && Lookup(q.value, "pageSize") == Some(IntToString(10))
      && Lookup(q.value, "keyword") == (if Trim(keyword) != "" then Some(Trim(keyword)) else None)
      && Lookup(q.value, "status") == (if status != "" then Some(status) else None)
      && Lookup(q.value, "type") == (if kind != "" then Some(kind) else None)
  {
    var controls := map["searchInput" := keyword, "statusSelect" := status, "typeSelect" := kind];
    CfgWellFormed();
    assert forall i :: 0 <= i < |Cfg.filters| ==> Cfg.filters[i].control in controls;
    ListView.QueryCarriesFilters(Cfg, page, controls);
    var k, st, ty := Cfg.filters[0], Cfg.filters[1], Cfg.filters[2];
    assert k.param == "keyword" && ListView.FilterValue(k, controls) == Trim(keyword);
    assert st.param == "status" && ListView.FilterValue(st, controls) == status;
    assert ty.param == "type" && ListView.FilterValue(ty, controls) == kind;
  }

  /** Search, Enter and either select go back to page 1 and reload; the
      first two leave every filter as it was, a select changes only its
      own value. */
  lemma ResetRules(s: ListView.State, totalPages: int, status: string, kind: string)
    ensures var r := ListView.Step(Cfg, s, totalPages, ListView.SearchClick);
      r.reload && r.state == ListView.State(1, s.controls)
    ensures var r := ListView.Step(Cfg, s, totalPages, ListView.KeyPress("Enter"));
      r.reload && r.state == ListView.State(1, s.controls)
    ensures var r := ListView.Step(Cfg, s, totalPages, ListView.SetControl("statusSelect", status));
      r.reload && r.state == ListView.State(1, s.controls["statusSelect" := status])
    ensures var r := ListView.Step(Cfg, s, totalPages, ListView.SetControl("typeSelect", kind));
      r.reload && r.state == ListView.State(1, s.controls["typeSelect" := kind])
  {
  }

  // -----------------------------------------------------------------------
  // Rows

  const StatusMap: map<string, ListView.Badge> := map[
    "draft" := ListView.Badge("草稿", "badge-secondary"),
    "on_sale" := ListView.Badge("上架", "badge-success"),
    "off_sale" := ListView.Badge("下架", "badge-danger"),
    "sold_out" := ListView.Badge("已售罄", "badge-dark"),
    "coming_soon" := ListView.Badge("即将开售", "badge-warning")
  ]

  /** An unknown status shows its raw value in the grey class, which the
      draft badge shares, so only the text tells the two apart, and an
      unknown status spelled like the draft label looks exactly like a
      draft. */
  lemma BadgeFallback(status: string)
    ensures status !in StatusMap ==> ListView.BadgeOf(StatusMap, status) == ListView.Badge(status, ListView.FallbackStyle)
    ensures ListView.BadgeOf(StatusMap, "draft").style == ListView.FallbackStyle
    ensures status !in StatusMap ==>
      (ListView.BadgeOf(StatusMap, status) == ListView.BadgeOf(StatusMap, "draft") <==> status == "草稿")
  {
  }

  datatype Action = View | Edit | Retract

  /** Every row gets view, edit and retract, whatever its status. */
  function RowActions(status: string): (acts: seq<Action>)
    ensures |acts| == 3 && acts[0] == View && acts[1] == Edit && acts[2] == Retract
  {
    [View, Edit, Retract]
  }

  lemma RowActionsIgnoreStatus(a: string, b: string)
    ensures RowActions(a) == RowActions(b)
  {
  }

  // -----------------------------------------------------------------------
  // deleteEvent

  function RetractRequest(id: string): ListView.Request {
    ListView.Request(Http.Call(Http.Put, "/api/admin/events/" + id + "/status"), Some("off_sale"))
  }

  function DeleteRequest(id: string): ListView.Request {
    ListView.Request(Http.Call(Http.Delete, "/api/admin/events/" + id), None)
  }

  /** `deleteEvent(id)`: after the confirm, a status change to off_sale;
      only when that fails, a DELETE; the list reloads after whichever
      succeeded. */
  function DeleteEvent(id: string, confirmed: bool, retractOk: bool, deleteOk: bool): (e: ListView.Effect)
    ensures !confirmed ==> e.calls == [] && !e.reload
    ensures confirmed ==> |e.calls| >= 1 && e.calls[0] == RetractRequest(id)
  {
    if !confirmed then ListView.Effect([], false)
    else if retractOk then ListView.Effect([RetractRequest(id)], true)
    else ListView.Effect([RetractRequest(id), DeleteRequest(id)], deleteOk)
  }

  /** The fallback in both directions: DELETE is sent exactly when the
      retract was confirmed and failed, and the list reloads exactly when
      one of the two calls succeeded. */
  lemma DeleteEventFallback(id: string, confirmed: bool, retractOk: bool, deleteOk: bool)
    ensures DeleteRequest(id) in DeleteEvent(id, confirmed, retractOk, deleteOk).calls <==> confirmed && !retractOk
    ensures DeleteEvent(id, confirmed, retractOk, deleteOk).reload <==> confirmed && (retractOk || deleteOk)
    ensures |DeleteEvent(id, confirmed, retractOk, deleteOk).calls| <= 2
  {
    assert RetractRequest(id) != DeleteRequest(id);
  }
}

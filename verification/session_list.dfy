/** The admin session list (`session-list.js`): its list configuration,
    the row badge, the per-status action buttons, the price-range cell,
    `formatNumber`, and the confirm-then-call flows behind the status and
    delete buttons. */
module SessionList {
  import opened Js
  import opened Query
  import Pager
  import Prices
  import ListView
  import Http

  const PageSize: nat := 10

  /** keyword from the trimmed search box, status and eventId from the two
      selects as they are. */
  const Filters: seq<ListView.Filter> := [
    ListView.Filter("keyword", "searchInput", true),
    ListView.Filter("status", "statusSelect", false),
    ListView.Filter("eventId", "eventSelect", false)
  ]

  /** The list configuration. The event select gets its change listener
      only once `loadEvents` has filled it; until then, or when that
      request fails, no select reloads the list. Changing the status
      select always waits for the next search. */
  function ConfigFor(eventsLoaded: bool): (cfg: ListView.Config)
    ensures cfg.filters == Filters && cfg.pageSize == PageSize
    ensures "eventSelect" in cfg.reloadOnChange <==> eventsLoaded
    ensures "statusSelect" !in cfg.reloadOnChange
  {
    ListView.Config(PageSize, Filters, if eventsLoaded then {"eventSelect"} else {})
  }

  /** The configuration once the event list has loaded. */
  const Cfg: ListView.Config := ConfigFor(true)

  /** `String(10)` */
  lemma TenText()
    ensures IntToString(10) == "10"
  {
    assert NatToString(10) == NatToString(1) + [DigitChar(0)];
  }

  lemma CfgWellFormed()
    ensures ListView.WellFormed(Cfg)
  {
  }

  /** The query of `loadSessions`: page and pageSize always, the trimmed
      keyword, the status and the event id each exactly when non-empty. */
  lemma SessionQuery(page: int, keyword: string, status: string, eventId: string)
    ensures var controls := map["searchInput" := keyword, "statusSelect" := status, "eventSelect" := eventId];
      var q := ListView.ListQuery(Cfg, page, controls);
      && q.Some?
      && Lookup(q.value, "page") == Some(IntToString(page))
      && Lookup(q.value, "pageSize") == Some("10")
      && Lookup(q.value, "keyword") == (if Trim(keyword) != "" then Some(Trim(keyword)) else None)
      && Lookup(q.value, "status") == (if status != "" then Some(status) else None)
      && Lookup(q.value, "eventId") == (if eventId != "" then Some(eventId) else None)
  {
    var controls := map["searchInput" := keyword, "statusSelect" := status, "eventSelect" := eventId];
    CfgWellFormed();
    assert forall i :: 0 <= i < |Cfg.filters| ==> Cfg.filters[i].control in controls;
    ListView.QueryCarriesFilters(Cfg, page, controls);
    var k, st, ev := Cfg.filters[0], Cfg.filters[1], Cfg.filters[2];
    assert k.param == "keyword" && ListView.FilterValue(k, controls) == Trim(keyword);
    assert st.param == "status" && ListView.FilterValue(st, controls) == status;
    assert ev.param == "eventId" && ListView.FilterValue(ev, controls) == eventId;
    TenText();
  }

  /** Search and Enter go back to page 1 and leave every filter as it
      was. A new event choice goes back to page 1 exactly when the event
      list has loaded; before that, or after its request failed, it only
      changes the event filter. Picking a status alone reloads nothing. */
  lemma ResetRules(s: ListView.State, totalPages: int, eventId: string, status: string, eventsLoaded: bool)
    ensures var r := ListView.Step(ConfigFor(eventsLoaded), s, totalPages, ListView.SearchClick);
      r.reload && r.state == ListView.State(1, s.controls)
    ensures var r := ListView.Step(ConfigFor(eventsLoaded), s, totalPages, ListView.KeyPress("Enter"));
      r.reload && r.state == ListView.State(1, s.controls)
    ensures var r := ListView.Step(ConfigFor(eventsLoaded), s, totalPages, ListView.SetControl("eventSelect", eventId));
      (r.reload <==> eventsLoaded)
      && r.state == ListView.State(if eventsLoaded then 1 else s.page, s.controls["eventSelect" := eventId])
    ensures var r := ListView.Step(ConfigFor(eventsLoaded), s, totalPages, ListView.SetControl("statusSelect", status));
      !r.reload && r.state == ListView.State(s.page, s.controls["statusSelect" := status])
  {
  }

  // -----------------------------------------------------------------------
  // Status badge

  /** The statuses with a badge of their own. */
  const StatusMap: map<string, ListView.Badge> := map[
    "not_started" := ListView.Badge("未开始", "badge-info"),
    "on_sale" := ListView.Badge("销售中", "badge-success"),
    "sold_out" := ListView.Badge("已售完", "badge-gray"),
    "ended" := ListView.Badge("已结束", "badge-dark"),
    "off_sale" := ListView.Badge("已下架", "badge-danger")
  ]

  /** The grey fallback class marks exactly the statuses the table lacks,
      which show their raw value; known statuses keep distinct badges. */
  lemma BadgeFallback(status: string, other: string)
    ensures ListView.BadgeOf(StatusMap, status).style == ListView.FallbackStyle <==> status !in StatusMap
    ensures status !in StatusMap ==> ListView.BadgeOf(StatusMap, status).text == status
    ensures status in StatusMap && other in StatusMap && status != other ==>
      ListView.BadgeOf(StatusMap, status) != ListView.BadgeOf(StatusMap, other)
  {
  }

  // -----------------------------------------------------------------------
  // Row actions

  datatype Action =
    | View
    | Edit
    | SetStatus(target: string)   // `changeSessionStatus(id, target)`
    | Delete

  const Publish: Action := SetStatus("on_sale")
  const Retract: Action := SetStatus("off_sale")

  /** `renderActionButtons`: view always first, then the buttons for the
      status. soldSeats is `session.soldSeats || 0`. */
  function Actions(status: string, soldSeats: Option<int>): (acts: seq<Action>)
    ensures |acts| >= 1 && acts[0] == View
  {
    var sold := OrNum(soldSeats, 0);
    [View] +
      (if status == "not_started" then [Edit, Publish, Delete]
       else if status == "on_sale" then [Edit, Retract]
       else if status == "off_sale" then [Edit, Publish] + (if sold == 0 then [Delete] else [])
       else if status == "sold_out" || status == "ended" then []
       else [Edit, Retract])
  }

  /** The action table stated button by button, as membership conditions
      independent of the order the buttons are written in. */
  lemma ActionsTable(status: string, soldSeats: Option<int>)
    ensures var acts := Actions(status, soldSeats);
      && (Edit in acts <==> status != "sold_out" && status != "ended")
      && (Publish in acts <==> status == "not_started" || status == "off_sale")
      && (Retract in acts <==> status !in {"not_started", "off_sale", "sold_out", "ended"})
      && (Delete in acts <==> status == "not_started" || (status == "off_sale" && (soldSeats.None? || soldSeats.value == 0)))
      && (forall a :: a in acts ==> a in {View, Edit, Publish, Retract, Delete})
  {
  }

  /** No button appears twice, and a status button never targets the
      status the session already has. */
  lemma ActionsSane(status: string, soldSeats: Option<int>)
    ensures var acts := Actions(status, soldSeats);
      && (forall i, j :: 0 <= i < j < |acts| ==> acts[i] != acts[j])
      && (forall a :: a in acts && a.SetStatus? ==> a.target != status)
  {
  }

  /** Sold-out and ended sessions offer nothing but viewing. */
  lemma ViewOnly(status: string, soldSeats: Option<int>)
    ensures Actions(status, soldSeats) == [View] <==> status == "sold_out" || status == "ended"
  {
  }

  // -----------------------------------------------------------------------
  // Price range

  /** A ticket tier as the list API returns it; None is null or missing. */
  datatype Tier = Tier(price: Option<Prices.Cents>, overridePrice: Option<Prices.Cents>)

  /** `tier.overridePrice || tier.price`: a zero override counts as none. */
  function EffectivePrice(t: Tier): (p: Option<Prices.Cents>)
    ensures t.overridePrice.Some? && t.overridePrice.value != 0 ==> p == t.overridePrice
    ensures t.overridePrice.None? || t.overridePrice.value == 0 ==> p == t.price
  {
    if t.overridePrice.Some? && t.overridePrice.value != 0 then t.overridePrice else t.price
  }

  function EffectivePrices(tiers: seq<Tier>): (ps: seq<Option<Prices.Cents>>)
    ensures |ps| == |tiers|
    ensures forall i :: 0 <= i < |tiers| ==> ps[i] == EffectivePrice(tiers[i])
  {
    if tiers == [] then [] else [EffectivePrice(tiers[0])] + EffectivePrices(tiers[1..])
  }

  /** `calculatePriceRange(session)` */
  function PriceRange(tiers: Option<seq<Tier>>): (s: string)
    ensures tiers.None? ==> s == "-"
    ensures tiers.Some? ==> s == Prices.RangeLabel(Some(EffectivePrices(tiers.value)))
  {
    if tiers.None? || tiers.value == [] then "-"
    else Prices.Label(Prices.SpreadOf(EffectivePrices(tiers.value)))
  }

  /** Without overrides the admin cell shows what the storefront's
      `getPriceRange` shows for the same tiers' base prices. */
  lemma AgreesWithStorefront(tiers: seq<Tier>)
    requires forall i :: 0 <= i < |tiers| ==> tiers[i].overridePrice.None?
    ensures PriceRange(Some(tiers)) == Prices.RangeLabel(Some(seq(|tiers|, i requires 0 <= i < |tiers| => tiers[i].price)))
  {
    assert EffectivePrices(tiers) == seq(|tiers|, i requires 0 <= i < |tiers| => tiers[i].price);
  }

  /** The cell shows "-" exactly when no tier has an effective price;
      otherwise it names the smallest and the largest effective price. */
  lemma PriceRangeDash(tiers: Option<seq<Tier>>)
    ensures PriceRange(tiers) == "-" <==>
      tiers.None? || forall i :: 0 <= i < |tiers.value| ==> EffectivePrice(tiers.value[i]).None?
  {
    if tiers.Some? && tiers.value != [] {
      var r := Prices.SpreadOf(EffectivePrices(tiers.value));
      if !r.NoPrice? {
        var l := Prices.Label(r);
        assert l[0] == '¥';
      }
    }
  }

  // -----------------------------------------------------------------------
  // formatNumber

  /** `formatNumber(num)`: "0" for null, otherwise the decimal text with a
      comma in front of every complete group of three digits. */
  function FormatNumber(num: Option<int>): (s: string)
    ensures num.None? ==> s == "0"
    ensures num.Some? ==> s == GroupedInt(num.value)
  {
    if num.None? then "0" else GroupedInt(num.value)
  }

  /** Removing the separators gives back the number. */
  lemma FormatNumberReadsBack(num: int)
    ensures StripCommas(FormatNumber(Some(num))) == IntToString(num)
    ensures ParseInt(StripCommas(FormatNumber(Some(num)))) == Some(num)
  {
    GroupedIntReadsBack(num);
  }

  // -----------------------------------------------------------------------
  // Status change and delete

  /** `changeSessionStatus(id, target)`: after the confirm, one PUT of the
      new status; the list reloads when it succeeds. */
  function ChangeStatus(id: string, target: string, confirmed: bool, succeeds: bool): (e: ListView.Effect)
    ensures e.calls == if confirmed then [ListView.Request(Http.Call(Http.Put, "/api/admin/sessions/" + id + "/status"), Some(target))] else []
    ensures e.reload <==> confirmed && succeeds
  {
    ListView.Confirmed(ListView.Request(Http.Call(Http.Put, "/api/admin/sessions/" + id + "/status"), Some(target)), confirmed, succeeds)
  }

  /** `deleteSession(id)`: after the confirm, one DELETE; the list reloads
      when it succeeds. */
  function DeleteSession(id: string, confirmed: bool, succeeds: bool): (e: ListView.Effect)
    ensures e.calls == if confirmed then [ListView.Request(Http.Call(Http.Delete, "/api/admin/sessions/" + id), None)] else []
    ensures e.reload <==> confirmed && succeeds
  {
    ListView.Confirmed(ListView.Request(Http.Call(Http.Delete, "/api/admin/sessions/" + id), None), confirmed, succeeds)
  }
}

/** The storefront home page (`client-index.js`): the filter bar, the
    event query through `getEventList`, the grid that a load replaces and
    a scroll extends, and the per-type cover gradient. A card is kept as
    the event it shows; its markup is not modelled. */
module ClientIndex {
  import opened Js
  import opened Query
  import Pager
  import Http
  import ClientApi

  const PageSize: nat := 20
  const EventsUrl: string := "/api/client/events"

  /** `currentFilter`. A value is None when the clicked option has no
      matching `data-*` attribute (JavaScript's undefined). */
  datatype Filter = Filter(category: Option<string>, time: Option<string>, sort: Option<string>)

  const Initial: Filter := Filter(Some("all"), Some("all"), Some("hot"))

  /** The group label of the clicked option and its `dataset`. */
  datatype Click = Click(group: Option<string>, dataset: map<string, string>)

  /** The filter after a click in a group with a label: '分类' sets the
      category, '时间' the time, '排序' the sort, any other label nothing. */
  function Apply(f: Filter, group: string, dataset: map<string, string>): (g: Filter)
    ensures group == "分类" ==> g == f.(category := Get(dataset, "category"))
    ensures group == "时间" ==> g == f.(time := Get(dataset, "time"))
    ensures group == "排序" ==> g == f.(sort := Get(dataset, "sort"))
    ensures group != "分类" && group != "时间" && group != "排序" ==> g == f
  {
    if group == "分类" then f.(category := Get(dataset, "category"))
    else if group == "时间" then f.(time := Get(dataset, "time"))
    else if group == "排序" then f.(sort := Get(dataset, "sort"))
    else f
  }

  // -----------------------------------------------------------------------
  // The request

  /** `getEventList`'s defaults. */
  const Defaults: seq<Param> := [Param("page", "1"), Param("pageSize", "10")]

  /** The object `loadEvents` and `loadMoreEvents` build: page and
      pageSize, and the type when the category is not 'all' (an undefined
      category is not 'all' and is written as "undefined"). Time and sort
      are never sent. */
  function Params(page: int, f: Filter): (ps: seq<Param>)
    ensures |ps| >= 2 && ps[0] == Param("page", IntToString(page)) && ps[1] == Param("pageSize", IntToString(PageSize))
    ensures |ps| == (if f.category == Some("all") then 2 else 3)
  {
    var base := [Param("page", IntToString(page)), Param("pageSize", IntToString(PageSize))];
    if f.category == Some("all") then base else base + [Param("type", f.category.GetOr("undefined"))]
  }

  /** The URL requested for a page under a filter. */
  function Request(page: int, f: Filter): (c: Http.Call)
    ensures c.verb == Http.Get
  {
    ClientApi.ClientGet(EventsUrl, Spread(Defaults, Params(page, f))).0
  }

  /** What the page's own object holds, key by key. */
  lemma ParamsLookup(page: int, f: Filter)
    ensures var ps := Params(page, f);
      && Lookup(ps, "page") == Some(IntToString(page))
      && Lookup(ps, "pageSize") == Some(IntToString(PageSize))
      && Lookup(ps, "type") == (if f.category == Some("all") then None else Some(f.category.GetOr("undefined")))
      && Lookup(ps, "time").None? && Lookup(ps, "sort").None?
  {
    var p, q := Param("page", IntToString(page)), Param("pageSize", IntToString(PageSize));
    var tail := if f.category == Some("all") then [] else [Param("type", f.category.GetOr("undefined"))];
    assert Params(page, f) == [p, q] + tail;
    assert "page"[0] != "type"[0] && "page"[0] != "time"[0] && "page"[0] != "sort"[0];
    assert "pageSize"[0] != "type"[0] && "pageSize"[0] != "time"[0] && "pageSize"[0] != "sort"[0];
    assert "type"[1] != "time"[1] && "type"[0] != "sort"[0];
    LookupTwo(p, q, "type");
    LookupTwo(p, q, "time");
    LookupTwo(p, q, "sort");
    assert Lookup(tail, "time").None? && Lookup(tail, "sort").None?;
    LookupAppend([p, q], tail, "type");
    LookupAppend([p, q], tail, "time");
    LookupAppend([p, q], tail, "sort");
  }

  /** The home page's values override both defaults: the page asked for
      is the current one, twenty to a page, and the type is sent exactly
      when the category is not 'all'; time and sort never reach the
      server. */
  lemma RequestCarriesFilter(page: int, f: Filter)
    ensures var ps := Spread(Defaults, Params(page, f));
      && Lookup(ps, "page") == Some(IntToString(page))
      && Lookup(ps, "pageSize") == Some(IntToString(20))
      && Lookup(ps, "type") == (if f.category == Some("all") then None else Some(f.category.GetOr("undefined")))
      && Lookup(ps, "time").None? && Lookup(ps, "sort").None?
  {
    var ps := Params(page, f);
    ParamsLookup(page, f);
    assert Lookup(Defaults, "time").None? && Lookup(Defaults, "sort").None? && Lookup(Defaults, "type").None?;
    SpreadWins(Defaults, ps, "page");
    SpreadWins(Defaults, ps, "pageSize");
    SpreadWins(Defaults, ps, "type");
    SpreadWins(Defaults, ps, "time");
    SpreadWins(Defaults, ps, "sort");
  }

  // -----------------------------------------------------------------------
  // Loading

  /** What `getEventList` resolves to: `result.list` and `result.total`. */
  datatype Reply<T> = Reply(list: Option<seq<T>>, total: Option<nat>)

  /** The page state. `cards` is None until the grid has been rendered
      once (there is no cards container before that). */
  datatype Home<T> = Home(page: int, totalPages: nat, filter: Filter, cards: Option<seq<T>>, empty: bool)

  function Start<T>(): Home<T> {
    Home(1, 0, Initial, None, false)
  }

  /** `loadEvents()` once the request settled (None: it failed). The
      total is counted first; an empty list only shows the empty state,
      a non-empty one replaces the grid. */
  function Load<T>(h: Home<T>, r: Option<Reply<T>>): (h': Home<T>)
    ensures h'.page == h.page && h'.filter == h.filter
    ensures r.None? ==> h' == h.(empty := true)
    ensures r.Some? ==> h'.totalPages == Pager.CeilDiv(r.value.total.GetOr(0), PageSize)
    ensures r.Some? && r.value.list.GetOr([]) != [] ==> h'.cards == r.value.list && !h'.empty
    ensures r.Some? && r.value.list.GetOr([]) == [] ==> h'.cards == h.cards && h'.empty
  {
    if r.None? then h.(empty := true)
    else
      var list := r.value.list.GetOr([]);
      var h1 := h.(totalPages := Pager.CeilDiv(r.value.total.GetOr(0), PageSize), empty := false);
      if list == [] then h1.(empty := true) else h1.(cards := Some(list))
  }

  /** `loadMoreEvents()` once the request settled: a non-empty list is
      appended to the cards container when there is one; a failure
      changes nothing. */
  function LoadMore<T>(h: Home<T>, r: Option<Reply<T>>): (h': Home<T>)
    ensures h'.page == h.page && h'.totalPages == h.totalPages && h'.filter == h.filter && h'.empty == h.empty
    ensures h.cards.None? ==> h'.cards.None?
    ensures h.cards.Some? ==> h'.cards == Some(h.cards.value + (if r.Some? then r.value.list.GetOr([]) else []))
  {
    if h.cards.None? then h
    else
      var more := if r.Some? then r.value.list.GetOr([]) else [];
      h.(cards := Some(h.cards.value + more))
  }

  /** A click or a scroll near the bottom, with what its request (if it
      makes one) resolves to. */
  datatype Event<T> = Select(click: Click, reply: Option<Reply<T>>) | Scroll(nearBottom: bool, reply: Option<Reply<T>>)

  /** The state after an event and the request it sent. */
  datatype Outcome<T> = Outcome(home: Home<T>, request: Option<Http.Call>)

  function Step<T>(h: Home<T>, e: Event<T>): (o: Outcome<T>)
    ensures e.Select? && e.click.group.None? ==> o == Outcome(h, None)
    ensures e.Select? && e.click.group.Some? ==>
      var f := Apply(h.filter, e.click.group.value, e.click.dataset);
      o == Outcome(Load(h.(page := 1, filter := f), e.reply), Some(Request(1, f)))
    ensures e.Scroll? ==> (o.request.Some? <==> e.nearBottom && h.page < h.totalPages)
    ensures e.Scroll? && o.request.Some? ==>
      o == Outcome(LoadMore(h.(page := h.page + 1), e.reply), Some(Request(h.page + 1, h.filter)))
    ensures o.request.None? ==> o.home == h
  {
    match e
    case Select(c, r) =>
      if c.group.None? then Outcome(h, None)
      else
        var f := Apply(h.filter, c.group.value, c.dataset);
        Outcome(Load(h.(page := 1, filter := f), r), Some(Request(1, f)))
    case Scroll(near, r) =>
      if near && h.page < h.totalPages then
        Outcome(LoadMore(h.(page := h.page + 1), r), Some(Request(h.page + 1, h.filter)))
      else Outcome(h, None)
  }

  function Replay<T>(h: Home<T>, es: seq<Event<T>>): Home<T>
    decreases |es|
  {
    if es == [] then h else Replay(Step(h, es[0]).home, es[1..])
  }

  /** The page never runs past the last page the server announced: it is
      1 or within the total pages. */
  predicate PageInRange<T>(h: Home<T>) {
    h.page == 1 || 1 <= h.page <= h.totalPages
  }

  lemma {:induction false} ReplayKeepsPage<T>(h: Home<T>, es: seq<Event<T>>)
    requires PageInRange(h)
    ensures PageInRange(Replay(h, es))
    decreases |es|
  {
    if es != [] {
      var h1 := Step(h, es[0]).home;
      assert PageInRange(h1);
      ReplayKeepsPage(h1, es[1..]);
    }
  }

  /** Scrolling only ever adds cards at the end: the cards shown before
      a scroll are a prefix of those shown after it. */
  lemma ScrollAppends<T>(h: Home<T>, near: bool, r: Option<Reply<T>>)
    requires h.cards.Some?
    ensures var h' := Step(h, Scroll(near, r)).home;
      h'.cards.Some? && h.cards.value <= h'.cards.value
  {
  }

  /** A click whose reply holds no event shows the empty state, yet the
      grid is not cleared: the cards of the previous filter stay. */
  lemma EmptyReplyKeepsCards<T>(h: Home<T>, c: Click, total: Option<nat>)
    requires c.group.Some?
    ensures var h' := Step(h, Select(c, Some(Reply(Some([]), total)))).home;
      h'.empty && h'.cards == h.cards && h'.page == 1
  {
  }

  // -----------------------------------------------------------------------
  // Covers

  const DefaultGradient: string := "linear-gradient(135deg, #667eea 0%, #764ba2 100%)"

  const Gradients: map<string, string> := map[
    "concert" := DefaultGradient,
    "theatre" := "linear-gradient(135deg, #f093fb 0%, #f5576c 100%)",
    "exhibition" := "linear-gradient(135deg, #30cfd0 0%, #330867 100%)",
    "sports" := "linear-gradient(135deg, #43e97b 0%, #38f9d7 100%)",
    "music" := "linear-gradient(135deg, #4facfe 0%, #00f2fe 100%)",
    "kids" := "linear-gradient(135deg, #fa709a 0%, #fee140 100%)",
    "dance" := "linear-gradient(135deg, #a8edea 0%, #fed6e3 100%)"
  ]

  /** `getCoverGradient(type)`: the type's gradient, the concert one for
      any other type. */
  function CoverGradient(kind: string): (g: string)
    ensures kind in Gradients ==> g == Gradients[kind]
    ensures kind !in Gradients ==> g == DefaultGradient
  {
    if kind in Gradients then Gradients[kind] else DefaultGradient
  }

  /** Every type gets a gradient of the table, and the concert gradient
      exactly for concerts and for types the table lacks; the drama,
      musical and opera types of the type dictionary are among those. */
  lemma CoverFallback(kind: string)
    ensures CoverGradient(kind) in Gradients.Values
    ensures CoverGradient(kind) == DefaultGradient <==> kind == "concert" || kind !in Gradients
    ensures CoverGradient("drama") == CoverGradient("musical") == CoverGradient("opera") == DefaultGradient
  {
    assert Gradients["concert"] == DefaultGradient;
  }
}

/** The storefront dictionary of `client-constants.js`: the status, type
    and seat-mode tables with the raw-value fallback the pages use, and
    the price and seat-count texts. The date texts are those of `Dates`. */
module ClientConstants {
  import opened Js
  import ListView
  import Prices

  /** Only the statuses a shopper can see; draft, cancelled and ended
      events are never listed on the storefront. */
  const EventStatusMap: map<string, ListView.Badge> := map[
    "on_sale" := ListView.Badge("在售", "badge-success"),
    "sold_out" := ListView.Badge("售罄", "badge-danger")
  ]

  const EventTypeMap: map<string, string> := map[
    "concert" := "演唱会",
    "drama" := "话剧",
    "musical" := "音乐剧",
    "opera" := "歌剧",
    "dance" := "舞蹈",
    "exhibition" := "展览",
    "sports" := "体育赛事"
  ]

  const SessionStatusMap: map<string, ListView.Badge> := map[
    "not_started" := ListView.Badge("未开始", "badge-primary"),
    "on_sale" := ListView.Badge("在售", "badge-success"),
    "sold_out" := ListView.Badge("售罄", "badge-danger"),
    "selling_soon" := ListView.Badge("即将开售", "badge-warning"),
    "ongoing" := ListView.Badge("进行中", "badge-info")
  ]

  const SeatModeMap: map<string, string> := map[
    "select" := "自选座",
    "auto" := "系统自动选座"
  ]

  /** `TABLE[key] || key`: the table's text, or the raw key when the
      table has none (or an empty one). The shown text is the key itself
      exactly when the table has no non-empty name for it other than the
      key; otherwise it is one of the table's names. It is never empty
      unless the key is. */
  function TextOf(table: map<string, string>, key: string): (s: string)
    ensures s == key <==> key !in table || table[key] == "" || table[key] == key
    ensures s != key ==> s in table.Values
    ensures s == "" ==> key == ""
  {
    if key in table && table[key] != "" then table[key] else key
  }

  /** Every type and seat mode of the tables is shown by a name different
      from its code, so the shown text equals the code exactly when the
      code is missing from the table. */
  lemma TextFallsBackExactly(key: string)
    ensures TextOf(EventTypeMap, key) == key <==> key !in EventTypeMap
    ensures TextOf(SeatModeMap, key) == key <==> key !in SeatModeMap
  {
  }

  /** The statuses the storefront hides have no badge in either table. */
  lemma HiddenStatuses()
    ensures "draft" !in EventStatusMap && "cancelled" !in EventStatusMap && "ended" !in EventStatusMap
    ensures "cancelled" !in SessionStatusMap && "ended" !in SessionStatusMap
    ensures EventStatusMap.Keys <= SessionStatusMap.Keys
    ensures forall k :: k in EventStatusMap ==> EventStatusMap[k] == SessionStatusMap[k]
  {
  }

  /** `formatPrice(price)`: "-" for null or undefined, "¥" and the amount
      otherwise. */
  function FormatPrice(price: Option<Prices.Cents>): (s: string)
    ensures price.None? <==> s == "-"
    ensures price.Some? ==> |s| >= 2 && s[0] == '¥' && s[1..] == Prices.Yuan(price.value)
  {
    if price.None? then "-" else Prices.Priced(price.value)
  }

  /** Distinct prices print differently, and a zero price is a price: the
      null test is not a truthiness test. */
  lemma FormatPriceInjective(a: Option<Prices.Cents>, b: Option<Prices.Cents>)
    requires FormatPrice(a) == FormatPrice(b)
    ensures a == b
  {
    if a.Some? && b.Some? {
      Prices.PricedInjective("", a.value, b.value);
    }
  }

  lemma ZeroIsPriced()
    ensures FormatPrice(Some(0)) == "¥0"
  {
    assert Prices.Yuan(0) == "0";
  }

  /** `formatSeatCount(count)`: "-" for null or undefined, otherwise
      `count.toLocaleString()`, taken in a locale that groups by three
      digits with ','. */
  function FormatSeatCount(count: Option<int>): (s: string)
    ensures count.None? ==> s == "-"
    ensures count.Some? ==> s == GroupedInt(count.value)
  {
    if count.None? then "-" else GroupedInt(count.value)
  }

  /** The seat count reads back: the grouped text without its
      separators parses to the count, and "-" is told apart from every
      count. */
  lemma SeatCountReadsBack(count: Option<int>)
    ensures count.Some? ==> ParseInt(StripCommas(FormatSeatCount(count))) == count
    ensures count.None? <==> FormatSeatCount(count) == "-"
  {
    if count.Some? {
      GroupedIntReadsBack(count.value);
    }
  }
}

/** The admin session editor's save (`session-edit.js`, `handleFormSubmit`):
    the form snapshot turned into the session payload, with the tier rows
    collected and summed into seat totals, the two checks that stop the
    save before any request, the PUT-or-POST choice, and the button that
    is given back whatever happens. */
module SessionEdit {
  import opened Js
  import opened FormData
  import Prices
  import Http

  // -----------------------------------------------------------------------
  // Tier rows

  /** One `tierRow_*` element: the value of each input found in it (None
      when the row lacks the input). Price inputs are number inputs, whose
      value is empty or a number; None stands for empty there too. */
  datatype Row = Row(
    tierId: Option<string>,
    basePrice: Option<Prices.Cents>,
    overridePrice: Option<Prices.Cents>,
    seatCount: Option<string>,
    availableSeats: Option<string>,
    maxPurchase: Option<string>,
    enabled: Option<bool>)

  /** One entry of `ticketTierConfig`; a parse that gives NaN is None. */
  datatype TierConfig = TierConfig(
    tierId: Option<int>,
    basePrice: Option<Prices.Cents>,
    overridePrice: Option<Prices.Cents>,
    seatCount: int,
    availableSeats: int,
    maxPurchase: int,
    enabled: bool)

  /** A row is collected exactly when its tier id is truthy. */
  predicate Kept(row: Row) {
    Filled(row.tierId)
  }

  /** The entry built from a row: seat numbers default to 0 and the
      purchase limit to 4 whenever they are missing, unparsable or zero;
      a tier is enabled unless its box is present and unchecked. */
  function TierOf(row: Row): (t: TierConfig)
    ensures t.tierId == ParseIntOpt(row.tierId)
    ensures t.basePrice == row.basePrice && t.overridePrice == row.overridePrice
    ensures var n := ParseIntOpt(row.seatCount); t.seatCount == (if n.Some? then n.value else 0)
    ensures var n := ParseIntOpt(row.availableSeats); t.availableSeats == (if n.Some? then n.value else 0)
    ensures var n := ParseIntOpt(row.maxPurchase); t.maxPurchase == (if n.Some? && n.value != 0 then n.value else 4)
    ensures t.maxPurchase != 0
    ensures t.enabled <==> row.enabled != Some(false)
  {
    TierConfig(
      ParseIntOpt(row.tierId),
      row.basePrice,
      row.overridePrice,
      OrNum(ParseIntOpt(row.seatCount), 0),
      OrNum(ParseIntOpt(row.availableSeats), 0),
      OrNum(ParseIntOpt(row.maxPurchase), 4),
      row.enabled != Some(false))
  }

  /** The rows' entries in document order, skipping rows without a tier id. */
  function Collect(rows: seq<Row>): (ts: seq<TierConfig>)
    ensures |ts| <= |rows|
  {
    if rows == [] then []
    else Entry(rows[0]) + Collect(rows[1..])
  }

  /** The entry one row contributes: its tier, or nothing without a tier id. */
  function Entry(row: Row): (e: seq<TierConfig>)
    ensures e == [] <==> !Kept(row)
  {
    if Kept(row) then [TierOf(row)] else []
  }

  /** Collection works row by row: it distributes over concatenation, and
      a single row yields its entry or nothing. */
  lemma {:induction false} CollectAppend(a: seq<Row>, b: seq<Row>)
    ensures Collect(a + b) == Collect(a) + Collect(b)
    decreases |a|
  {
    if a == [] {
      assert a + b == b;
    } else {
      ConsAppend(a, b);
      CollectStep(a);
      CollectStep(a + b);
      CollectAppend(a[1..], b);
      AppendAssoc(Entry(a[0]), Collect(a[1..]), Collect(b));
    }
  }

  lemma CollectStep(s: seq<Row>)
    requires s != []
    ensures Collect(s) == Entry(s[0]) + Collect(s[1..])
  {
  }

  lemma CollectOne(row: Row)
    ensures Collect([row]) == if Kept(row) then [TierOf(row)] else []
  {
  }

  /** An entry is collected exactly when some row with a tier id builds
      it: no row without one contributes, none with one is lost. */
  lemma {:induction false} CollectMembers(rows: seq<Row>, t: TierConfig)
    ensures t in Collect(rows) <==> exists r :: r in rows && Kept(r) && TierOf(r) == t
    decreases |rows|
  {
    if rows != [] {
      CollectMembers(rows[1..], t);
      assert forall r :: r in rows <==> r == rows[0] || r in rows[1..];
    }
  }

  // -----------------------------------------------------------------------
  // Seat totals

  /** `totalSeats`: the seat counts of all collected tiers. */
  function TotalSeats(ts: seq<TierConfig>): int {
    if ts == [] then 0 else ts[0].seatCount + TotalSeats(ts[1..])
  }

  /** `availableSeats`: the available seats of the enabled tiers. */
  function AvailableSeats(ts: seq<TierConfig>): int {
    if ts == [] then 0 else (if ts[0].enabled then ts[0].availableSeats else 0) + AvailableSeats(ts[1..])
  }

  /** The enabled tiers, in order. */
  function EnabledTiers(ts: seq<TierConfig>): (r: seq<TierConfig>)
    ensures forall i :: 0 <= i < |r| ==> r[i].enabled && r[i] in ts
  {
    if ts == [] then []
    else (if ts[0].enabled then [ts[0]] else []) + EnabledTiers(ts[1..])
  }

  /** The available seats of every tier, enabled or not. */
  function AllAvailable(ts: seq<TierConfig>): int {
    if ts == [] then 0 else ts[0].availableSeats + AllAvailable(ts[1..])
  }

  lemma {:induction false} AllAvailableAppend(a: seq<TierConfig>, b: seq<TierConfig>)
    ensures AllAvailable(a + b) == AllAvailable(a) + AllAvailable(b)
    decreases |a|
  {
    if a == [] {
      assert a + b == b;
    } else {
      assert (a + b)[1..] == a[1..] + b;
      AllAvailableAppend(a[1..], b);
    }
  }

  /** The available total is the plain sum over the enabled tiers only:
      a disabled tier's available seats never count. */
  lemma {:induction false} AvailableIsEnabledSum(ts: seq<TierConfig>)
    ensures AvailableSeats(ts) == AllAvailable(EnabledTiers(ts))
    decreases |ts|
  {
    if ts != [] {
      AvailableIsEnabledSum(ts[1..]);
      AllAvailableAppend(if ts[0].enabled then [ts[0]] else [], EnabledTiers(ts[1..]));
    }
  }

  /** Both totals add up tier by tier, so a disabled tier adds its seat
      count to the total and nothing to the available seats. */
  lemma {:induction false} TotalsAppend(a: seq<TierConfig>, b: seq<TierConfig>)
    ensures TotalSeats(a + b) == TotalSeats(a) + TotalSeats(b)
    ensures AvailableSeats(a + b) == AvailableSeats(a) + AvailableSeats(b)
    decreases |a|
  {
    if a == [] {
      assert a + b == b;
    } else {
      assert (a + b)[1..] == a[1..] + b;
      TotalsAppend(a[1..], b);
    }
  }

  lemma DisabledTier(ts: seq<TierConfig>, t: TierConfig)
    requires !t.enabled
    ensures TotalSeats(ts + [t]) == TotalSeats(ts) + t.seatCount
    ensures AvailableSeats(ts + [t]) == AvailableSeats(ts)
  {
    TotalsAppend(ts, [t]);
  }

  // -----------------------------------------------------------------------
  // The payload

  datatype Metadata = Metadata(
    duration: Option<int>,
    saleStartTime: Option<string>,
    saleEndTime: Option<string>,
    seatSelectionMode: string,
    requireRealName: bool,
    limitOnePerPerson: bool,
    noRefund: bool,
    sortOrder: Option<int>,
    remark: string)

  /** A numeric field: parsed when filled, the default when empty or
      missing; a filled field that does not parse is None (null). */
  function NumberOr(v: Option<string>, default: int): (r: Option<int>)
    ensures Filled(v) ==> r == ParseInt(v.value)
    ensures !Filled(v) ==> r == Some(default)
  {
    if Filled(v) then ParseInt(v.value) else Some(default)
  }

  /** `metadata`: duration 120 and sort order 0 when empty, the sale
      window null when empty, seat mode 'online' when empty, each flag set
      exactly when its box sent 'on', the remark trimmed or ''. */
  function MetadataOf(form: Form): (m: Metadata)
    ensures !Filled(Get(form, "metadata[duration]")) ==> m.duration == Some(120)
    ensures Filled(Get(form, "metadata[duration]")) ==> m.duration == ParseInt(form["metadata[duration]"])
    ensures !Filled(Get(form, "metadata[sortOrder]")) ==> m.sortOrder == Some(0)
    ensures Filled(Get(form, "metadata[sortOrder]")) ==> m.sortOrder == ParseInt(form["metadata[sortOrder]"])
    ensures m.saleStartTime == OrNull(Get(form, "metadata[saleStartTime]"))
    ensures m.saleEndTime == OrNull(Get(form, "metadata[saleEndTime]"))
    ensures m.seatSelectionMode == OrStr(Get(form, "metadata[seatSelectionMode]"), "online")
    ensures m.requireRealName <==> Get(form, "metadata[requireRealName]") == Some("on")
    ensures m.limitOnePerPerson <==> Get(form, "metadata[limitOnePerPerson]") == Some("on")
    ensures m.noRefund <==> Get(form, "metadata[noRefund]") == Some("on")
    ensures m.remark == TrimmedOrEmpty(form, "metadata[remark]")
  {
    Metadata(
      NumberOr(Get(form, "metadata[duration]"), 120),
      OrNull(Get(form, "metadata[saleStartTime]")),
      OrNull(Get(form, "metadata[saleEndTime]")),
      OrStr(Get(form, "metadata[seatSelectionMode]"), "online"),
      Get(form, "metadata[requireRealName]") == Some("on"),
      Get(form, "metadata[limitOnePerPerson]") == Some("on"),
      Get(form, "metadata[noRefund]") == Some("on"),
      NumberOr(Get(form, "metadata[sortOrder]"), 0),
      TrimmedOrEmpty(form, "metadata[remark]"))
  }

  /** The `data` object sent to the server. */
  datatype Session = Session(
    eventId: Option<int>,
    sessionName: Option<string>,
    startTime: string,
    endTime: Option<string>,
    venueId: Option<int>,
    hallName: string,
    address: string,
    totalSeats: int,
    availableSeats: int,
    ticketTierConfig: seq<TierConfig>,
    metadata: Metadata,
    status: string)

  const MissingStart: string := "请选择场次日期和开始时间"
  const NoSeats: string := "请至少为一个票档分配座位数"

  /** The payload, or the message of the check that stopped the save. */
  datatype Built = Rejected(message: string) | Payload(data: Session)

  /** `${date}T${time}:00` */
  function Stamp(date: string, time: string): (s: string)
    ensures |s| == |date| + |time| + 4
    ensures s[..|date|] == date && s[|date|] == 'T' && s[|date| + 1..|date| + 1 + |time|] == time
    ensures s[|s| - 3..] == ":00"
  {
    date + "T" + time + ":00"
  }

  /** The payload built from the form, the tier rows and the event id of
      the page. The date and the start time are checked first; the seat
      total is checked once everything is built. */
  function Build(form: Form, rows: seq<Row>, eventId: Option<string>): (b: Built)
    ensures !Filled(Get(form, "sessionDate")) || !Filled(Get(form, "startTime")) ==> b == Rejected(MissingStart)
    ensures b.Payload? ==> b.data.totalSeats > 0
    ensures b.Payload? ==> b.data.ticketTierConfig == Collect(rows)
    ensures b.Payload? ==> b.data.totalSeats == TotalSeats(Collect(rows)) && b.data.availableSeats == AvailableSeats(Collect(rows))
    ensures b.Payload? ==> b.data.startTime == Stamp(form["sessionDate"], form["startTime"])
    ensures b.Payload? ==> (b.data.endTime.None? <==> !Filled(Get(form, "endTime")))
    ensures b.Payload? && b.data.endTime.Some? ==> b.data.endTime.value == Stamp(form["sessionDate"], form["endTime"])
    ensures b.Payload? ==> b.data.eventId == ParseIntOpt(eventId)
    ensures b.Payload? ==> b.data.sessionName == TrimOpt(Get(form, "sessionName"))
    ensures b.Payload? ==> b.data.venueId == (if Filled(Get(form, "venueId")) then ParseInt(form["venueId"]) else None)
    ensures b.Payload? ==> b.data.hallName == TrimmedOrEmpty(form, "hallName") && b.data.address == TrimmedOrEmpty(form, "address")
    ensures b.Payload? ==> b.data.metadata == MetadataOf(form)
    ensures b.Payload? ==> b.data.status == OrStr(Get(form, "status"), "not_started")
  {
    var date := Get(form, "sessionDate");
    var start := Get(form, "startTime");
    var end := Get(form, "endTime");
    if !Filled(date) || !Filled(start) then Rejected(MissingStart)
    else
      var tiers := Collect(rows);
      var data := Session(
        ParseIntOpt(eventId),
        TrimOpt(Get(form, "sessionName")),
        Stamp(date.value, start.value),
        if Filled(end) then Some(Stamp(date.value, end.value)) else None,
        if Filled(Get(form, "venueId")) then ParseInt(form["venueId"]) else None,
        TrimmedOrEmpty(form, "hallName"),
        TrimmedOrEmpty(form, "address"),
        TotalSeats(tiers),
        AvailableSeats(tiers),
        tiers,
        MetadataOf(form),
        OrStr(Get(form, "status"), "not_started"));
      if data.totalSeats <= 0 then Rejected(NoSeats) else Payload(data)
  }

  /** The save is refused for lack of seats exactly when the date and
      start time are filled and the collected seat counts do not add up to
      a positive number; otherwise it goes through. */
  lemma BuildRejects(form: Form, rows: seq<Row>, eventId: Option<string>)
    ensures Build(form, rows, eventId) == Rejected(NoSeats) <==>
      Filled(Get(form, "sessionDate")) && Filled(Get(form, "startTime")) && TotalSeats(Collect(rows)) <= 0
    ensures Build(form, rows, eventId).Payload? <==>
      Filled(Get(form, "sessionDate")) && Filled(Get(form, "startTime")) && TotalSeats(Collect(rows)) > 0
  {
    assert MissingStart != NoSeats;
  }

  // -----------------------------------------------------------------------
  // The save

  /** As written, the two validation messages (and every server message)
      vanish from the alert; the corrected alert keeps them apart. */
  lemma AlertLosesMessage()
    ensures AlertAsWritten(MissingStart) == AlertAsWritten(NoSeats)
    ensures Alert(MissingStart) != Alert(NoSeats)
  {
    assert Alert(MissingStart)[|SaveFailed|..] == MissingStart;
    assert Alert(NoSeats)[|SaveFailed|..] == NoSeats;
  }

  /** Where the payload goes: PUT to the session when the page has a
      session id, POST to the collection otherwise. */
  function Target(sessionId: Option<string>): (c: Http.Call)
    ensures Filled(sessionId) ==> c == Http.Call(Http.Put, "/api/admin/sessions/" + sessionId.value)
    ensures !Filled(sessionId) ==> c == Http.Call(Http.Post, "/api/admin/sessions")
  {
    if Filled(sessionId) then Http.Call(Http.Put, "/api/admin/sessions/" + sessionId.value)
    else Http.Call(Http.Post, "/api/admin/sessions")
  }

  /** What `sessionId = result.id` throws when the created session comes
      back as null data. */
  const NullIdMessage: string := "Cannot read properties of null (reading 'id')"

  /** Where the save goes back to. */
  function ListPage(eventId: Option<string>): string {
    "admin-sessions.html?eventId=" + eventId.GetOr("null")
  }

  /** `handleFormSubmit`. `failure` is the message of the error the
      request throws, None when it succeeds; `nullReply` says whether a
      successful POST resolved to null data; `text` is the button's text
      before the save. A failure shows the alert as written, whatever the
      error said. */
  function Submit(form: Form, rows: seq<Row>, eventId: Option<string>, sessionId: Option<string>,
                  failure: Option<string>, nullReply: bool, text: string): (s: Saved<Session>)
    ensures Settled(s, ListPage(eventId), text)
    ensures s.request.Some? <==> Build(form, rows, eventId).Payload?
    ensures s.request.Some? ==> s.request.value == (Target(sessionId), Build(form, rows, eventId).data)
    ensures Build(form, rows, eventId).Rejected? ==>
      s.caught == Some(Build(form, rows, eventId).message) && s.alerts == [AlertAsWritten(s.caught.value)]
    ensures s.request.Some? && failure.Some? ==> s.caught == failure && s.alerts == [AlertAsWritten(failure.value)]
    ensures s.caught.None? <==> s.request.Some? && failure.None? && (Filled(sessionId) || !nullReply)
    ensures s.caught.None? ==> s.alerts == [if Filled(sessionId) then "更新成功" else "创建成功"]
    ensures s.request.Some? && failure.None? && !Filled(sessionId) && nullReply ==>
      s.caught == Some(NullIdMessage) && s.alerts == ["创建成功", AlertAsWritten(NullIdMessage)]
  {
    Settle(Build(form, rows, eventId), eventId, sessionId, failure, nullReply, text)
  }

  /** The handler once the payload is built (or refused). */
  function Settle(b: Built, eventId: Option<string>, sessionId: Option<string>,
                  failure: Option<string>, nullReply: bool, text: string): (s: Saved<Session>)
    ensures Settled(s, ListPage(eventId), text)
    ensures s.request.Some? <==> b.Payload?
    ensures s.request.Some? ==> s.request.value == (Target(sessionId), b.data)
    ensures b.Rejected? ==> s.caught == Some(b.message) && s.alerts == [AlertAsWritten(s.caught.value)]
    ensures s.request.Some? && failure.Some? ==> s.caught == failure && s.alerts == [AlertAsWritten(failure.value)]
    ensures s.caught.None? <==> s.request.Some? && failure.None? && (Filled(sessionId) || !nullReply)
    ensures s.caught.None? ==> s.alerts == [if Filled(sessionId) then "更新成功" else "创建成功"]
    ensures s.request.Some? && failure.None? && !Filled(sessionId) && nullReply ==>
      s.caught == Some(NullIdMessage) && s.alerts == ["创建成功", AlertAsWritten(NullIdMessage)]
  {
    var restored := Button(false, text);
    if b.Rejected? then Saved(None, Some(b.message), [AlertAsWritten(b.message)], None, restored)
    else
      var req := (Target(sessionId), b.data);
      if failure.Some? then Saved(Some(req), failure, [AlertAsWritten(failure.value)], None, restored)
      else if Filled(sessionId) then Saved(Some(req), None, ["更新成功"], Some(ListPage(eventId)), restored)
      else if nullReply then Saved(Some(req), Some(NullIdMessage), ["创建成功", AlertAsWritten(NullIdMessage)], None, restored)
      else Saved(Some(req), None, ["创建成功"], Some(ListPage(eventId)), restored)
  }

  /** A session created by a POST whose reply carries null data is
      reported first as created and then as failed, and the page stays;
      sending the same form again creates it twice. */
  lemma CreatedThenFailed(form: Form, rows: seq<Row>, eventId: Option<string>, text: string)
    requires Build(form, rows, eventId).Payload?
    ensures var s := Submit(form, rows, eventId, None, None, true, text);
      && s.request == Some((Http.Call(Http.Post, "/api/admin/sessions"), Build(form, rows, eventId).data))
      && s.alerts[0] == "创建成功" && s.alerts[1] == AlertAsWritten(NullIdMessage) && s.redirect.None?
  {
  }

  /** As written, the two validation failures and a refused request all
      end in the same alert; the alert the handler means to show tells
      the two validation failures apart. */
  lemma FailuresLookAlike(form: Form, form': Form, rows: seq<Row>, eventId: Option<string>, sessionId: Option<string>,
                          m: string, nullReply: bool, text: string)
    requires !Filled(Get(form, "sessionDate"))
    requires Filled(Get(form', "sessionDate")) && Filled(Get(form', "startTime")) && TotalSeats(Collect(rows)) <= 0
    ensures var a, b := Submit(form, rows, eventId, sessionId, Some(m), nullReply, text),
                        Submit(form', rows, eventId, sessionId, Some(m), nullReply, text);
      && a.alerts == b.alerts
      && a.caught == Some(MissingStart) && b.caught == Some(NoSeats)
      && Alert(a.caught.value) != Alert(b.caught.value)
  {
    BuildRejects(form', rows, eventId);
    AlertLosesMessage();
  }
}

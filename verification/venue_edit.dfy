/** The admin venue editor (`venue-edit.js`): the backfill of the form
    from a loaded venue, the payload whose optional keys appear only when
    they have content, and the PUT-or-POST save. Latitude and longitude
    are floating-point fields and are not part of this model. */
module VenueEdit {
  import opened Js
  import opened FormData
  import Http

  /** A venue as the server sends it; a missing field is None. */
  datatype Venue = Venue(
    name: Option<string>,
    city: Option<string>,
    district: Option<string>,
    address: Option<string>,
    capacity: Option<nat>,
    images: Option<string>,
    description: Option<string>,
    facilities: Option<seq<string>>)

  /** `value || ''` for a number: 0 counts as missing. */
  function CountText(n: Option<nat>): (s: string)
    ensures s == "" <==> n.None? || n.value == 0
    ensures s != "" ==> ParseInt(s) == Some(n.value as int)
  {
    if n.Some? && n.value != 0 then
      ParseIntOfIntToString(n.value);
      NatToString(n.value)
    else ""
  }

  /** `loadVenueData`: every text input set to the venue's value or ''. */
  function Backfill(v: Venue): (form: Form)
    ensures form.Keys == {"name", "city", "district", "address", "capacity", "images", "description"}
    ensures form["name"] == OrStr(v.name, "") && form["city"] == OrStr(v.city, "")
    ensures form["district"] == OrStr(v.district, "") && form["address"] == OrStr(v.address, "")
    ensures form["capacity"] == CountText(v.capacity)
    ensures form["images"] == OrStr(v.images, "") && form["description"] == OrStr(v.description, "")
  {
    assert "name"[0] != "city"[0] && "district"[0] != "capacity"[0];
    map[
      "name" := OrStr(v.name, ""),
      "city" := OrStr(v.city, ""),
      "district" := OrStr(v.district, ""),
      "address" := OrStr(v.address, ""),
      "capacity" := CountText(v.capacity),
      "images" := OrStr(v.images, ""),
      "description" := OrStr(v.description, "")]
  }

  /** The facility boxes after the backfill: the box of each listed
      facility ticked. */
  function BackfillBoxes(boxes: seq<CheckBox>, v: Venue): (r: seq<CheckBox>)
    ensures |r| == |boxes|
  {
    if v.facilities.Some? && |v.facilities.value| > 0 then TickAll(boxes, v.facilities.value) else boxes
  }

  /** The `data` object; an optional key that is not sent is None. */
  datatype Payload = Payload(
    name: string,
    city: Option<string>,
    district: string,
    address: string,
    capacity: Option<int>,
    images: Option<string>,
    description: Option<string>,
    facilities: Option<seq<string>>)

  /** The payload, or None when one of the trimmed fields is missing
      (`formData.get(...)` is null and `.trim()` throws). */
  function PayloadOf(form: Form, boxes: seq<CheckBox>): (d: Option<Payload>)
    ensures d.Some? <==> "name" in form && "district" in form && "address" in form && "images" in form && "description" in form
    ensures d.Some? ==> d.value.name == Trim(form["name"]) && d.value.district == Trim(form["district"]) && d.value.address == Trim(form["address"])
    ensures d.Some? ==> d.value.city == Get(form, "city")
    ensures d.Some? ==> d.value.capacity == (if Filled(Get(form, "capacity")) then ParseInt(form["capacity"]) else None)
    ensures d.Some? ==> (d.value.images.Some? <==> Trim(form["images"]) != "")
    ensures d.Some? && d.value.images.Some? ==> d.value.images.value == Trim(form["images"])
    ensures d.Some? ==> (d.value.description.Some? <==> Trim(form["description"]) != "")
    ensures d.Some? && d.value.description.Some? ==> d.value.description.value == Trim(form["description"])
    ensures d.Some? ==> (d.value.facilities.Some? <==> Checked(boxes) != [])
    ensures d.Some? && d.value.facilities.Some? ==> d.value.facilities.value == Checked(boxes)
  {
    if "name" !in form || "district" !in form || "address" !in form || "images" !in form || "description" !in form then None
    else
      var images := Trim(form["images"]);
      var description := Trim(form["description"]);
      var facilities := Checked(boxes);
      Some(Payload(
        Trim(form["name"]),
        Get(form, "city"),
        Trim(form["district"]),
        Trim(form["address"]),
        if Filled(Get(form, "capacity")) then ParseInt(form["capacity"]) else None,
        if images != "" then Some(images) else None,
        if description != "" then Some(description) else None,
        if facilities != [] then Some(facilities) else None))
  }

  /** Saving an untouched backfilled form gives the venue back: the
      texts trimmed, a positive capacity as it was, blank optional texts
      and an empty facility list left out, and among the facilities
      exactly the listed ones that have a box (starting from unchecked
      boxes). */
  lemma BackfillRoundTrip(v: Venue, boxes: seq<CheckBox>, f: string)
    requires forall k :: 0 <= k < |boxes| ==> !boxes[k].checked
    ensures var d := PayloadOf(Backfill(v), BackfillBoxes(boxes, v));
      && d.Some?
      && d.value.name == Trim(OrStr(v.name, ""))
      && d.value.city == Some(OrStr(v.city, ""))
      && d.value.capacity == (if v.capacity.Some? && v.capacity.value != 0 then Some(v.capacity.value as int) else None)
      && (d.value.images.Some? <==> Trim(OrStr(v.images, "")) != "")
      && (d.value.facilities.Some? && f in d.value.facilities.value <==>
            v.facilities.Some? && f in v.facilities.value && exists k :: 0 <= k < |boxes| && boxes[k].value == f)
  {
    var form := Backfill(v);
    var bs := BackfillBoxes(boxes, v);
    CheckedMembers(boxes, f);
    if v.facilities.Some? && |v.facilities.value| > 0 {
      TickAllMembers(boxes, v.facilities.value, f);
    }
    CheckedMembers(bs, f);
  }

  /** PUT to the venue when the page has a venue id, POST otherwise. */
  function Target(venueId: Option<string>): (c: Http.Call)
    ensures Filled(venueId) ==> c == Http.Call(Http.Put, "/api/admin/venues/" + venueId.value)
    ensures !Filled(venueId) ==> c == Http.Call(Http.Post, "/api/admin/venues")
  {
    if Filled(venueId) then Http.Call(Http.Put, "/api/admin/venues/" + venueId.value)
    else Http.Call(Http.Post, "/api/admin/venues")
  }

  const TypeErrorMessage: string := "Cannot read properties of null (reading 'trim')"

  /** `handleFormSubmit`. `failure` is the message of the error the
      request throws, None when it succeeds; `text` is the button's text
      before the save. A failure shows the alert as written, whatever the
      error said. */
  function Submit(form: Form, boxes: seq<CheckBox>, venueId: Option<string>, failure: Option<string>, text: string): (s: Saved<Payload>)
    ensures Settled(s, "admin-venues.html", text)
    ensures s.request.Some? <==> PayloadOf(form, boxes).Some?
    ensures s.request.Some? ==> s.request.value == (Target(venueId), PayloadOf(form, boxes).value)
    ensures s.request.None? ==> s.caught == Some(TypeErrorMessage)
    ensures s.request.Some? ==> s.caught == failure
    ensures s.caught.Some? ==> s.alerts == [AlertAsWritten(s.caught.value)]
    ensures s.caught.None? ==> s.alerts == [if Filled(venueId) then "更新成功" else "创建成功"]
  {
    var d := PayloadOf(form, boxes);
    var restored := Button(false, text);
    if d.None? then Saved(None, Some(TypeErrorMessage), [AlertAsWritten(TypeErrorMessage)], None, restored)
    else
      var req := (Target(venueId), d.value);
      if failure.Some? then Saved(Some(req), failure, [AlertAsWritten(failure.value)], None, restored)
      else Saved(Some(req), None, [if Filled(venueId) then "更新成功" else "创建成功"], Some("admin-venues.html"), restored)
  }

  /** Every failed save shows the same alert, so the user cannot tell a
      missing field from a refused request; the alert the handler means
      to show would tell them apart. */
  lemma FailuresLookAlike(form: Form, form': Form, boxes: seq<CheckBox>, venueId: Option<string>, m: string, text: string)
    requires "name" in form && "district" in form && "address" in form && "images" in form && "description" in form
    requires "name" !in form'
    ensures var a, b := Submit(form, boxes, venueId, Some(m), text), Submit(form', boxes, venueId, None, text);
      && a.alerts == b.alerts
      && (Alert(a.caught.value) == Alert(b.caught.value) <==> m == TypeErrorMessage)
  {
    AlertInjective(m, TypeErrorMessage);
  }
}

/** The event editor (`event-edit.js`): the ticket-tier blocks with their
    index counter, the collection of tiers on save, the tags, the payload
    with its defaults, and the PUT-or-POST choice. The date texts the
    editor backfills are `Dates.FormatInputDate` and
    `Dates.FormatDateTimeLocal`. */
module EventEdit {
  import opened Js
  import opened FormData
  import Prices
  import Http

  // -----------------------------------------------------------------------
  // Tier blocks

  /** The values of a block's five inputs. The price input is a number
      input, whose value is empty (None) or a number. */
  datatype Fields = Fields(name: string, price: Option<Prices.Cents>, color: string, maxPurchase: string, description: string)

  /** A `tier_<index>` block; its inputs are named `ticket_tiers[<index>].*`. */
  datatype Block = Block(index: nat, fields: Fields)

  /** The blocks in document order and `ticketTierIndex`. */
  datatype Editor = Editor(blocks: seq<Block>, counter: nat)

  /** A tier as the server sends it. */
  datatype Loaded = Loaded(name: Option<string>, price: Option<Prices.Cents>, color: Option<string>,
                           maxPurchase: Option<nat>, description: Option<string>)

  /** The inputs `createTicketTierHtml` fills from a loaded tier: each
      value or its default, where a zero price or limit counts as absent. */
  function FieldsOf(t: Loaded): (f: Fields)
    ensures f.price.Some? <==> t.price.Some? && t.price.value != 0
    ensures f.maxPurchase == (if t.maxPurchase.Some? && t.maxPurchase.value != 0 then NatToString(t.maxPurchase.value) else "4")
    ensures f.color == OrStr(t.color, "#FF5722")
  {
    Fields(
      OrStr(t.name, ""),
      if t.price.Some? && t.price.value != 0 then t.price else None,
      OrStr(t.color, "#FF5722"),
      if t.maxPurchase.Some? && t.maxPurchase.value != 0 then NatToString(t.maxPurchase.value) else "4",
      OrStr(t.description, ""))
  }

  /** The blocks of `renderTicketTiers`, the k-th numbered k. */
  function Blocks(tiers: seq<Loaded>): (bs: seq<Block>)
    ensures |bs| == |tiers|
    ensures forall k :: 0 <= k < |bs| ==> bs[k] == Block(k, FieldsOf(tiers[k]))
  {
    if tiers == [] then [] else Blocks(tiers[..|tiers| - 1]) + [Block(|tiers| - 1, FieldsOf(tiers[|tiers| - 1]))]
  }

  /** `renderTicketTiers(tiers)`: the container replaced, the counter set
      to the number of tiers. */
  function Render(tiers: seq<Loaded>): (e: Editor)
    ensures e.blocks == Blocks(tiers) && e.counter == |tiers|
  {
    Editor(Blocks(tiers), |tiers|)
  }

  /** Each block carries five named inputs. */
  const InputsPerBlock: nat := 5

  /** The start-up code after loading: when inputs named `ticket_tiers[`
      exist, the counter becomes their number. */
  function InitCounter(e: Editor): (e': Editor)
    ensures e'.blocks == e.blocks
    ensures e'.counter == if e.blocks == [] then e.counter else InputsPerBlock * |e.blocks|
  {
    if e.blocks == [] then e else e.(counter := InputsPerBlock * |e.blocks|)
  }

  /** The editor once the page is ready: a new event starts empty; an
      existing one renders the tiers it has (when it has any). */
  function Open(tiers: seq<Loaded>): (e: Editor) {
    if tiers == [] then Editor([], 0) else InitCounter(Render(tiers))
  }

  /** `addTicketTier()`, with the values then typed into the new block. */
  function Add(e: Editor, f: Fields): (e': Editor)
    ensures e'.blocks == e.blocks + [Block(e.counter, f)]
    ensures e'.counter == e.counter + 1
  {
    Editor(e.blocks + [Block(e.counter, f)], e.counter + 1)
  }

  /** The position of the first block with the index, or the number of
      blocks when there is none. */
  function FirstAt(bs: seq<Block>, index: nat): (k: nat)
    ensures k <= |bs|
    ensures forall j :: 0 <= j < k ==> bs[j].index != index
    ensures k < |bs| ==> bs[k].index == index
  {
    if bs == [] then 0
    else if bs[0].index == index then 0
    else
      var k := 1 + FirstAt(bs[1..], index);
      assert forall j :: 1 <= j < k ==> bs[j] == bs[1..][j - 1];
      k
  }

  /** `removeTicketTier(index)`: `getElementById` finds the first block
      with that index, which is removed; the other blocks keep their
      order, and the counter never goes back. */
  function Remove(e: Editor, index: nat): (e': Editor)
    ensures e'.counter == e.counter
    ensures var k := FirstAt(e.blocks, index);
      e'.blocks == if k == |e.blocks| then e.blocks else e.blocks[..k] + e.blocks[k + 1..]
  {
    var k := FirstAt(e.blocks, index);
    Editor(if k == |e.blocks| then e.blocks else e.blocks[..k] + e.blocks[k + 1..], e.counter)
  }

  /** What the user does to the tier list. */
  datatype Edit = AddTier(fields: Fields) | RemoveTier(index: nat)

  function Apply(e: Editor, x: Edit): Editor {
    match x
    case AddTier(f) => Add(e, f)
    case RemoveTier(i) => Remove(e, i)
  }

  function Replay(e: Editor, xs: seq<Edit>): Editor
    decreases |xs|
  {
    if xs == [] then e else Replay(Apply(e, xs[0]), xs[1..])
  }

  /** No two live blocks share an index, and the counter is above every
      index in use. */
  predicate IndicesFresh(e: Editor) {
    && (forall k :: 0 <= k < |e.blocks| ==> e.blocks[k].index < e.counter)
    && (forall j, k :: 0 <= j < k < |e.blocks| ==> e.blocks[j].index != e.blocks[k].index)
  }

  /** Opening the editor makes the indices fresh, and adding or removing
      a tier keeps them so: the counter only grows, and the first block
      found is the one removed. */
  lemma OpenFresh(tiers: seq<Loaded>)
    ensures IndicesFresh(Open(tiers))
  {
    if tiers != [] {
      var e := Render(tiers);
      assert forall k :: 0 <= k < |e.blocks| ==> e.blocks[k].index == k;
    }
  }

  lemma ApplyKeepsFresh(e: Editor, x: Edit)
    requires IndicesFresh(e)
    ensures IndicesFresh(Apply(e, x))
  {
    match x
    case AddTier(f) => AddKeepsFresh(e, f);
    case RemoveTier(i) => RemoveKeepsFresh(e, i);
  }

  lemma AddKeepsFresh(e: Editor, f: Fields)
    requires IndicesFresh(e)
    ensures IndicesFresh(Add(e, f))
  {
    var r, n := Add(e, f).blocks, |e.blocks|;
    forall a | 0 <= a < |r|
      ensures r[a].index < e.counter + 1
    {
      if a < n { assert r[a] == e.blocks[a]; }
    }
    forall a, b | 0 <= a < b < |r|
      ensures r[a].index != r[b].index
    {
      assert r[a] == e.blocks[a];
      if b < n { assert r[b] == e.blocks[b]; }
    }
  }

  lemma RemoveKeepsFresh(e: Editor, i: nat)
    requires IndicesFresh(e)
    ensures IndicesFresh(Remove(e, i))
  {
    var k := FirstAt(e.blocks, i);
    if k < |e.blocks| {
      var r := Remove(e, i).blocks;
      forall a | 0 <= a < |r|
        ensures r[a].index < e.counter
      {
        assert r[a] == e.blocks[if a < k then a else a + 1];
      }
      forall a, b | 0 <= a < b < |r|
        ensures r[a].index != r[b].index
      {
        assert r[a] == e.blocks[if a < k then a else a + 1];
        assert r[b] == e.blocks[if b < k then b else b + 1];
      }
    }
  }

  lemma {:induction false} ReplayKeepsFresh(e: Editor, xs: seq<Edit>)
    requires IndicesFresh(e)
    ensures IndicesFresh(Replay(e, xs))
    decreases |xs|
  {
    if xs != [] {
      ApplyKeepsFresh(e, xs[0]);
      ReplayKeepsFresh(Apply(e, xs[0]), xs[1..]);
    }
  }

  // -----------------------------------------------------------------------
  // Collecting the tiers

  /** One entry of `ticketTiers`. */
  datatype Tier = Tier(name: string, price: Prices.Cents, color: string, maxPurchase: Option<int>, description: string)

  /** A block's inputs make a tier when its name and price are filled. */
  predicate Complete(f: Fields) {
    f.name != "" && f.price.Some?
  }

  /** The tier of a complete block: the name and description trimmed,
      the limit parsed, or 4 when empty. */
  function TierOf(f: Fields): (t: Tier)
    requires Complete(f)
    ensures t.name == Trim(f.name) && t.price == f.price.value && t.color == f.color
    ensures f.maxPurchase == "" ==> t.maxPurchase == Some(4)
    ensures f.maxPurchase != "" ==> t.maxPurchase == ParseInt(f.maxPurchase)
    ensures t.description == Trim(f.description)
  {
    Tier(Trim(f.name), f.price.value, f.color,
         if f.maxPurchase != "" then ParseInt(f.maxPurchase) else Some(4),
         if f.description != "" then Trim(f.description) else "")
  }

  /** A loaded tier priced 0 is rendered with an empty price, so it is
      no longer complete and a save leaves it out. */
  lemma ZeroPriceIncomplete(t: Loaded)
    requires t.price == Some(0)
    ensures !Complete(FieldsOf(t))
  {
  }

  /** The tiers of the complete blocks, in document order: each block read
      through its own input names. */
  function Collect(bs: seq<Block>): (ts: seq<Tier>)
    ensures |ts| <= |bs|
  {
    if bs == [] then []
    else Collect(bs[..|bs| - 1]) + (if Complete(bs[|bs| - 1].fields) then [TierOf(bs[|bs| - 1].fields)] else [])
  }

  /** One block gives its tier exactly when it is complete. */
  lemma CollectOne(b: Block)
    ensures Collect([b]) == if Complete(b.fields) then [TierOf(b.fields)] else []
  {
    assert [b][..0] == [];
  }

  /** The tiers keep document order: the blocks split in two give the
      tiers of the first part followed by those of the second. */
  lemma {:induction false} CollectAppend(a: seq<Block>, b: seq<Block>)
    ensures Collect(a + b) == Collect(a) + Collect(b)
    decreases |b|
  {
    if b == [] {
      assert a + b == a;
    } else {
      var c, last := b[..|b| - 1], b[|b| - 1];
      SnocAppend(a, b);
      CollectAppend(a, c);
      AppendAssoc(Collect(a), Collect(c), if Complete(last.fields) then [TierOf(last.fields)] else []);
    }
  }

  /** Every complete block contributes its tier, and only they do. */
  lemma {:induction false} CollectMembers(bs: seq<Block>, t: Tier)
    ensures t in Collect(bs) <==> exists k :: Builds(bs, k, t)
    decreases |bs|
  {
    if bs != [] {
      var n := |bs| - 1;
      var last := if Complete(bs[n].fields) then [TierOf(bs[n].fields)] else [];
      assert Collect(bs) == Collect(bs[..n]) + last;
      assert t in last <==> Builds(bs, n, t);
      CollectMembers(bs[..n], t);
      BuildsStep(bs, bs[..n], t);
    }
  }

  /** The block at position k is complete and builds the tier t. */
  predicate Builds(bs: seq<Block>, k: int, t: Tier) {
    0 <= k < |bs| && Complete(bs[k].fields) && TierOf(bs[k].fields) == t
  }

  lemma BuildsStep(bs: seq<Block>, init: seq<Block>, t: Tier)
    requires bs != [] && init == bs[..|bs| - 1]
    ensures (exists k :: Builds(bs, k, t)) <==> (exists k :: Builds(init, k, t)) || Builds(bs, |bs| - 1, t)
  {
    if exists k :: Builds(bs, k, t) {
      var k :| Builds(bs, k, t);
      if k < |bs| - 1 {
        BuildsPrefix(bs, k, t);
      }
    }
    if exists k :: Builds(init, k, t) {
      var k :| Builds(init, k, t);
      BuildsPrefix(bs, k, t);
    }
  }

  lemma BuildsPrefix(bs: seq<Block>, k: int, t: Tier)
    requires 0 <= k < |bs| - 1
    ensures Builds(bs[..|bs| - 1], k, t) <==> Builds(bs, k, t)
  {
    assert bs[..|bs| - 1][k] == bs[k];
  }

  /** The collection of `handleFormSubmit` as written: the block at
      position k is searched for inputs named `ticket_tiers[k].*`, so a
      block whose index differs from its position yields no name and is
      dropped. */
  function CollectAsWritten(bs: seq<Block>): (ts: seq<Tier>)
    ensures |ts| <= |bs|
  {
    if bs == [] then []
    else
      var k := |bs| - 1;
      CollectAsWritten(bs[..k]) + (if bs[k].index == k && Complete(bs[k].fields) then [TierOf(bs[k].fields)] else [])
  }

  /** The block at position k is complete, carries the index k, and
      builds the tier t. */
  predicate InPlace(bs: seq<Block>, k: int, t: Tier) {
    Builds(bs, k, t) && bs[k].index == k
  }

  /** As written, a tier is sent exactly when a complete block sits at the
      position of its own index. */
  lemma {:induction false} CollectAsWrittenMembers(bs: seq<Block>, t: Tier)
    ensures t in CollectAsWritten(bs) <==> exists k :: InPlace(bs, k, t)
    decreases |bs|
  {
    if bs != [] {
      var n := |bs| - 1;
      var last := if bs[n].index == n && Complete(bs[n].fields) then [TierOf(bs[n].fields)] else [];
      assert CollectAsWritten(bs) == CollectAsWritten(bs[..n]) + last;
      assert t in last <==> InPlace(bs, n, t);
      CollectAsWrittenMembers(bs[..n], t);
      InPlaceStep(bs, bs[..n], t);
    }
  }

  /** A block in place is one in place in all but the last block, or the
      last block itself. */
  lemma InPlaceStep(bs: seq<Block>, init: seq<Block>, t: Tier)
    requires bs != [] && init == bs[..|bs| - 1]
    ensures (exists k :: InPlace(bs, k, t)) <==> (exists k :: InPlace(init, k, t)) || InPlace(bs, |bs| - 1, t)
  {
    if exists k :: InPlace(bs, k, t) {
      var k :| InPlace(bs, k, t);
      if k < |bs| - 1 {
        InPlacePrefix(bs, k, t);
      }
    }
    if exists k :: InPlace(init, k, t) {
      var k :| InPlace(init, k, t);
      InPlacePrefix(bs, k, t);
    }
  }

  lemma InPlacePrefix(bs: seq<Block>, k: int, t: Tier)
    requires 0 <= k < |bs| - 1
    ensures InPlace(bs[..|bs| - 1], k, t) <==> InPlace(bs, k, t)
  {
    assert bs[..|bs| - 1][k] == bs[k];
  }

  /** The two agree whenever every block sits at the position of its
      index, as on a new event where tiers are only added. */
  lemma {:induction false} AgreeInPlace(bs: seq<Block>)
    requires forall k :: 0 <= k < |bs| ==> bs[k].index == k
    ensures CollectAsWritten(bs) == Collect(bs)
    decreases |bs|
  {
    if bs != [] {
      var init := bs[..|bs| - 1];
      assert forall k :: 0 <= k < |init| ==> init[k] == bs[k];
      AgreeInPlace(init);
    }
  }

  lemma {:induction false} AddsInPlace(xs: seq<Fields>, e: Editor)
    requires e.counter == |e.blocks|
    requires forall k :: 0 <= k < |e.blocks| ==> e.blocks[k].index == k
    ensures var r := Replay(e, AddAll(xs));
      r.counter == |r.blocks| && forall k :: 0 <= k < |r.blocks| ==> r.blocks[k].index == k
    decreases |xs|
  {
    if xs != [] {
      var e1 := Apply(e, AddTier(xs[0]));
      assert AddAll(xs)[1..] == AddAll(xs[1..]);
      AddsInPlace(xs[1..], e1);
    }
  }

  function AddAll(xs: seq<Fields>): (es: seq<Edit>)
    ensures |es| == |xs| && forall k :: 0 <= k < |xs| ==> es[k] == AddTier(xs[k])
  {
    if xs == [] then [] else [AddTier(xs[0])] + AddAll(xs[1..])
  }

  lemma NewEventAgrees(xs: seq<Fields>)
    ensures var r := Replay(Open([]), AddAll(xs));
      CollectAsWritten(r.blocks) == Collect(r.blocks)
  {
    AddsInPlace(xs, Open([]));
    AgreeInPlace(Replay(Open([]), AddAll(xs)).blocks);
  }

  /** The failing case: an event loaded with one tier gets the counter 5,
      so a complete tier added next is block `tier_5` at position 1, and
      the save as written sends only the loaded tier. */
  lemma AddedTierDropped(t: Loaded, f: Fields)
    requires Complete(FieldsOf(t)) && Complete(f)
    ensures var e := Add(Open([t]), f);
      && e.blocks == [Block(0, FieldsOf(t)), Block(5, f)]
      && CollectAsWritten(e.blocks) == [TierOf(FieldsOf(t))]
      && Collect(e.blocks) == [TierOf(FieldsOf(t)), TierOf(f)]
  {
    var b0, b1 := Block(0, FieldsOf(t)), Block(5, f);
    OpenOne(t);
    assert Add(Open([t]), f).blocks == [b0, b1];
    TwoBlocks(b0, b1);
  }

  /** An event loaded with one tier: one block, and the counter at 5. */
  lemma OpenOne(t: Loaded)
    ensures Open([t]) == Editor([Block(0, FieldsOf(t))], InputsPerBlock)
  {
    assert Blocks([t]) == [Block(0, FieldsOf(t))];
  }

  /** Two complete blocks, the second out of place. */
  lemma TwoBlocks(b0: Block, b1: Block)
    requires b0.index == 0 && b1.index != 1 && Complete(b0.fields) && Complete(b1.fields)
    ensures CollectAsWritten([b0, b1]) == [TierOf(b0.fields)]
    ensures Collect([b0, b1]) == [TierOf(b0.fields), TierOf(b1.fields)]
  {
    TwoBlocksAsWritten(b0, b1);
    assert [b0, b1] == [b0] + [b1];
    CollectOne(b0);
    CollectOne(b1);
    CollectAppend([b0], [b1]);
  }

  lemma TwoBlocksAsWritten(b0: Block, b1: Block)
    requires b0.index == 0 && b1.index != 1 && Complete(b0.fields)
    ensures CollectAsWritten([b0, b1]) == [TierOf(b0.fields)]
  {
    assert [b0, b1][..1] == [b0];
    assert CollectAsWritten([b0, b1]) == CollectAsWritten([b0]) + [];
    assert [b0][..0] == [];
    assert CollectAsWritten([b0]) == [] + [TierOf(b0.fields)];
  }

  /** Removing a middle tier drops every later one as written. */
  lemma RemovedMiddleDropsRest(a: Fields, b: Fields, c: Fields)
    requires Complete(a) && Complete(b) && Complete(c)
    ensures var e := Remove(Add(Add(Add(Open([]), a), b), c), 1);
      && e.blocks == [Block(0, a), Block(2, c)]
      && CollectAsWritten(e.blocks) == [TierOf(a)]
      && Collect(e.blocks) == [TierOf(a), TierOf(c)]
  {
    var bs := [Block(0, a), Block(1, b), Block(2, c)];
    assert Add(Add(Add(Open([]), a), b), c) == Editor(bs, 3);
    RemoveMiddle(bs);
    TwoBlocks(Block(0, a), Block(2, c));
  }

  lemma RemoveMiddle(bs: seq<Block>)
    requires |bs| == 3 && bs[0].index == 0 && bs[1].index == 1
    ensures Remove(Editor(bs, 3), 1) == Editor([bs[0], bs[2]], 3)
  {
    assert FirstAt(bs, 1) == 1;
    assert bs[..1] + bs[2..] == [bs[0], bs[2]];
  }

  // -----------------------------------------------------------------------
  // Payload

  datatype Metadata = Metadata(tips: string, refundPolicy: string)

  /** The `data` object. */
  datatype Event = Event(
    name: string,
    kind: Option<string>,
    artist: string,
    city: Option<string>,
    venueId: Option<int>,
    subtitle: string,
    eventStartDate: Option<string>,
    eventEndDate: Option<string>,
    duration: Option<int>,
    saleStartTime: Option<string>,
    saleEndTime: Option<string>,
    coverImage: string,
    images: string,
    description: string,
    ticketTiers: seq<Tier>,
    metadata: Metadata,
    status: string,
    tags: seq<string>)

  /** The payload, or None when the name or artist field is missing
      (`formData.get(...)` is null and `.trim()` throws). */
  function Payload(form: Form, bs: seq<Block>, boxes: seq<CheckBox>): (d: Option<Event>)
    ensures d.Some? <==> "name" in form && "artist" in form
    ensures d.Some? ==> d.value.name == Trim(form["name"]) && d.value.artist == Trim(form["artist"])
    ensures d.Some? ==> d.value.status == OrStr(Get(form, "status"), "draft")
    ensures d.Some? ==> d.value.kind == Get(form, "type") && d.value.city == Get(form, "city")
    ensures d.Some? ==> d.value.venueId == (if Filled(Get(form, "venueId")) then ParseInt(form["venueId"]) else None)
    ensures d.Some? ==> d.value.duration == (if Filled(Get(form, "duration")) then ParseInt(form["duration"]) else None)
    ensures d.Some? ==> d.value.ticketTiers == CollectAsWritten(bs) && d.value.tags == Checked(boxes)
    ensures d.Some? ==> d.value.subtitle == TrimmedOrEmpty(form, "subtitle")
    ensures d.Some? ==> d.value.eventStartDate == OrNull(Get(form, "eventStartDate"))
    ensures d.Some? ==> d.value.eventEndDate == OrNull(Get(form, "eventEndDate"))
    ensures d.Some? ==> d.value.saleStartTime == OrNull(Get(form, "saleStartTime"))
    ensures d.Some? ==> d.value.saleEndTime == OrNull(Get(form, "saleEndTime"))
    ensures d.Some? ==> d.value.coverImage == TrimmedOrEmpty(form, "coverImage")
    ensures d.Some? ==> d.value.images == TrimmedOrEmpty(form, "images")
    ensures d.Some? ==> d.value.description == TrimmedOrEmpty(form, "description")
    ensures d.Some? ==> d.value.metadata == Metadata(TrimmedOrEmpty(form, "tips"), TrimmedOrEmpty(form, "refundPolicy"))
  {
    if "name" !in form || "artist" !in form then None
    else Some(Event(
      Trim(form["name"]),
      Get(form, "type"),
      Trim(form["artist"]),
      Get(form, "city"),
      if Filled(Get(form, "venueId")) then ParseInt(form["venueId"]) else None,
      TrimmedOrEmpty(form, "subtitle"),
      OrNull(Get(form, "eventStartDate")),
      OrNull(Get(form, "eventEndDate")),
      if Filled(Get(form, "duration")) then ParseInt(form["duration"]) else None,
      OrNull(Get(form, "saleStartTime")),
      OrNull(Get(form, "saleEndTime")),
      TrimmedOrEmpty(form, "coverImage"),
      TrimmedOrEmpty(form, "images"),
      TrimmedOrEmpty(form, "description"),
      CollectAsWritten(bs),
      Metadata(TrimmedOrEmpty(form, "tips"), TrimmedOrEmpty(form, "refundPolicy")),
      OrStr(Get(form, "status"), "draft"),
      Checked(boxes)))
  }

  /** The optional texts of the payload are never null: each is the
      trimmed field, or '' when the field is missing or blank. A date
      field is null exactly when it is missing or empty. */
  lemma PayloadBlanks(form: Form, bs: seq<Block>, boxes: seq<CheckBox>)
    requires "name" in form && "artist" in form
    ensures var e := Payload(form, bs, boxes).value;
      && (e.coverImage == "" <==> "coverImage" !in form || Trim(form["coverImage"]) == "")
      && (e.description == "" <==> "description" !in form || Trim(form["description"]) == "")
      && (e.eventEndDate.None? <==> !Filled(Get(form, "eventEndDate")))
      && (e.saleStartTime.None? <==> !Filled(Get(form, "saleStartTime")))
  {
  }

  /** A tier is sent exactly when a complete block sits at the position of
      its own index; on a new event where tiers are only added that is
      every complete block, in document order. */
  lemma PayloadTiers(form: Form, bs: seq<Block>, boxes: seq<CheckBox>, xs: seq<Fields>, t: Tier)
    requires "name" in form && "artist" in form
    ensures t in Payload(form, bs, boxes).value.ticketTiers <==> exists k :: InPlace(bs, k, t)
    ensures var r := Replay(Open([]), AddAll(xs));
      Payload(form, r.blocks, boxes).value.ticketTiers == Collect(r.blocks)
  {
    CollectAsWrittenMembers(bs, t);
    NewEventAgrees(xs);
  }

  /** PUT to the event when the page has an event id, POST otherwise. */
  function Target(eventId: Option<string>): (c: Http.Call)
    ensures Filled(eventId) ==> c == Http.Call(Http.Put, "/api/admin/events/" + eventId.value)
    ensures !Filled(eventId) ==> c == Http.Call(Http.Post, "/api/admin/events")
  {
    if Filled(eventId) then Http.Call(Http.Put, "/api/admin/events/" + eventId.value)
    else Http.Call(Http.Post, "/api/admin/events")
  }

  const TypeErrorMessage: string := "Cannot read properties of null (reading 'trim')"

  /** `handleFormSubmit`: the payload goes to the target; on success the
      page returns to the event list; a failure shows the alert as
      written; in every case the button is given back. */
  function Submit(form: Form, bs: seq<Block>, boxes: seq<CheckBox>, eventId: Option<string>,
                  failure: Option<string>, text: string): (s: Saved<Event>)
    ensures Settled(s, "admin-events.html", text)
    ensures s.request.Some? <==> Payload(form, bs, boxes).Some?
    ensures s.request.Some? ==> s.request.value == (Target(eventId), Payload(form, bs, boxes).value)
    ensures s.request.None? ==> s.caught == Some(TypeErrorMessage)
    ensures s.request.Some? ==> s.caught == failure
    ensures s.caught.Some? ==> s.alerts == [AlertAsWritten(s.caught.value)]
    ensures s.caught.None? ==> s.alerts == [if Filled(eventId) then "更新成功" else "创建成功"]
  {
    var d := Payload(form, bs, boxes);
    var restored := Button(false, text);
    if d.None? then Saved(None, Some(TypeErrorMessage), [AlertAsWritten(TypeErrorMessage)], None, restored)
    else
      var req := (Target(eventId), d.value);
      if failure.Some? then Saved(Some(req), failure, [AlertAsWritten(failure.value)], None, restored)
      else Saved(Some(req), None, [if Filled(eventId) then "更新成功" else "创建成功"], Some("admin-events.html"), restored)
  }

  /** The save of an event loaded with one tier and given a second one
      reports success while the request carries only the first tier. */
  lemma SavedWithoutAddedTier(form: Form, t: Loaded, f: Fields, boxes: seq<CheckBox>, eventId: Option<string>, text: string)
    requires "name" in form && "artist" in form
    requires Complete(FieldsOf(t)) && Complete(f)
    ensures var s := Submit(form, Add(Open([t]), f).blocks, boxes, eventId, None, text);
      && s.caught.None? && s.redirect == Some("admin-events.html")
      && s.request.value.1.ticketTiers == [TierOf(FieldsOf(t))]
  {
    AddedTierDropped(t, f);
  }
}

/** What the admin editors read from a submitted form and what their save
    handlers leave behind. A form is the `FormData` snapshot: a map from
    field name to the text it holds, where a field that is absent (an
    unchecked box, a missing input) has no entry. */
module FormData {
  import opened Js
  import Http

  type Form = map<string, string>

  /** A JavaScript string value is truthy when it is present and not empty. */
  predicate Filled(v: Option<string>) {
    v.Some? && v.value != ""
  }

  /** `v?.trim()`: undefined stays undefined. */
  function TrimOpt(v: Option<string>): (r: Option<string>)
    ensures r.Some? <==> v.Some?
    ensures r.Some? ==> r.value == Trim(v.value)
  {
    if v.Some? then Some(Trim(v.value)) else None
  }

  /** `formData.get(name)?.trim() || ''`: the trimmed text, '' for a
      missing or blank field. */
  function TrimmedOrEmpty(form: Form, name: string): (s: string)
    ensures s == (if name in form then Trim(form[name]) else "")
    ensures s == Trim(s)
  {
    TrimIdempotent(if name in form then form[name] else "");
    OrStr(TrimOpt(Get(form, name)), "")
  }

  /** The submit button: disabled and relabelled while saving, restored
      in the `finally` block. */
  datatype Button = Button(disabled: bool, text: string)

  /** What a save handler leaves behind: the request it sent, the message
      of the error its `catch` block received (None when nothing was
      thrown), the alerts shown in order, where the page goes, and the
      submit button after the `finally` block. */
  datatype Saved<P> = Saved(request: Option<(Http.Call, P)>, caught: Option<string>, alerts: seq<string>,
                            redirect: Option<string>, button: Button)

  /** How every save handler ends: a caught error leaves the page where it
      is with the failure alert shown last; otherwise the page goes to
      `back`. The button is restored either way. */
  predicate Settled<P>(s: Saved<P>, back: string, text: string) {
    && s.button == Button(false, text)
    && (s.caught.Some? ==> s.redirect.None? && |s.alerts| >= 1 && s.alerts[|s.alerts| - 1] == AlertAsWritten(s.caught.value))
    && (s.caught.None? ==> s.redirect == Some(back))
  }

  const SaveFailed: string := "保存失败: "

  /** What the failure alert shows: the thrown error's message. The
      handlers as written read a property every thrown error lacks; see
      `AlertAsWritten`. */
  function Alert(message: string): (s: string)
    ensures StartsWith(s, SaveFailed) && s[|SaveFailed|..] == message
  {
    SaveFailed + message
  }

  /** `'保存失败: ' + error.msg`: every error reaching the handlers is an
      `Error` object, which has a `message` and no `msg`, so the alert
      prints "undefined" whatever went wrong. */
  function AlertAsWritten(message: string): (s: string)
    ensures StartsWith(s, SaveFailed)
  {
    SaveFailed + "undefined"
  }

  /** Distinct messages give distinct alerts; as written, every two
      failures look the same. */
  lemma AlertInjective(a: string, b: string)
    ensures Alert(a) == Alert(b) <==> a == b
    ensures AlertAsWritten(a) == AlertAsWritten(b)
  {
    if Alert(a) == Alert(b) {
      assert Alert(a)[|SaveFailed|..] == a;
    }
  }

  // -----------------------------------------------------------------------
  // Checkbox groups

  /** A checkbox of a group (`tags[]`, `facilities[]`): its value and
      whether it is checked. */
  datatype CheckBox = CheckBox(value: string, checked: bool)

  /** The values of the checked boxes, in document order. */
  function Checked(boxes: seq<CheckBox>): (vs: seq<string>)
    ensures |vs| <= |boxes|
  {
    if boxes == [] then [] else (if boxes[0].checked then [boxes[0].value] else []) + Checked(boxes[1..])
  }

  /** One box gives its value exactly when it is checked. */
  lemma CheckedOne(b: CheckBox)
    ensures Checked([b]) == if b.checked then [b.value] else []
  {
    assert [b][1..] == [];
  }

  /** Collecting keeps document order: the values of a group split in two
      are those of the first part followed by those of the second. */
  lemma {:induction false} CheckedAppend(a: seq<CheckBox>, b: seq<CheckBox>)
    ensures Checked(a + b) == Checked(a) + Checked(b)
    decreases |a|
  {
    if a != [] {
      ConsAppend(a, b);
      CheckedAppend(a[1..], b);
      AppendAssoc(if a[0].checked then [a[0].value] else [], Checked(a[1..]), Checked(b));
    } else {
      assert a + b == b;
    }
  }

  /** A value is collected exactly when a checked box carries it. */
  lemma {:induction false} CheckedMembers(boxes: seq<CheckBox>, v: string)
    ensures v in Checked(boxes) <==> exists k :: 0 <= k < |boxes| && boxes[k].checked && boxes[k].value == v
    decreases |boxes|
  {
    if boxes != [] {
      CheckedMembers(boxes[1..], v);
      assert forall k :: 1 <= k < |boxes| ==> boxes[1..][k - 1] == boxes[k];
      if v in Checked(boxes[1..]) {
        var k :| 0 <= k < |boxes[1..]| && boxes[1..][k].checked && boxes[1..][k].value == v;
        assert boxes[k + 1] == boxes[1..][k];
      }
    }
  }

  /** `querySelector('[name="g[]"][value="v"]').checked = true`: the first
      box carrying the value is checked, when there is one. */
  function Tick(boxes: seq<CheckBox>, v: string): (r: seq<CheckBox>)
    ensures |r| == |boxes|
    ensures forall k :: 0 <= k < |r| ==> r[k].value == boxes[k].value
    ensures forall k :: 0 <= k < |r| ==> (r[k].checked <==> boxes[k].checked || (boxes[k].value == v && forall j :: 0 <= j < k ==> boxes[j].value != v))
  {
    if boxes == [] then []
    else if boxes[0].value == v then [boxes[0].(checked := true)] + boxes[1..]
    else
      var r := [boxes[0]] + Tick(boxes[1..], v);
      assert forall k :: 1 <= k < |boxes| ==> boxes[1..][k - 1] == boxes[k];
      r
  }

  /** The backfill of a group: each listed value ticks its box. */
  function TickAll(boxes: seq<CheckBox>, vs: seq<string>): (r: seq<CheckBox>)
    ensures |r| == |boxes|
    ensures forall k :: 0 <= k < |r| ==> r[k].value == boxes[k].value
    decreases |vs|
  {
    if vs == [] then boxes else TickAll(Tick(boxes, vs[0]), vs[1..])
  }

  /** After the backfill a value is collected exactly when it was already
      checked or was listed and has a box: listed values without a box
      are lost, nothing unlisted appears. */
  lemma {:induction false} TickAllMembers(boxes: seq<CheckBox>, vs: seq<string>, v: string)
    ensures v in Checked(TickAll(boxes, vs)) <==>
      v in Checked(boxes) || (v in vs && exists k :: 0 <= k < |boxes| && boxes[k].value == v)
    decreases |vs|
  {
    CheckedMembers(boxes, v);
    if vs != [] {
      var t := Tick(boxes, vs[0]);
      TickAllMembers(t, vs[1..], v);
      CheckedMembers(t, v);
      if v == vs[0] && exists k :: 0 <= k < |boxes| && boxes[k].value == v {
        var k :| 0 <= k < |boxes| && boxes[k].value == v;
        var f := FirstWith(boxes, v, k);
        assert t[f].checked && t[f].value == v;
      }
    }
  }

  /** The first position carrying a value known to occur at or before k. */
  function FirstWith(boxes: seq<CheckBox>, v: string, k: nat): (f: nat)
    requires k < |boxes| && boxes[k].value == v
    ensures f <= k && boxes[f].value == v
    ensures forall j :: 0 <= j < f ==> boxes[j].value != v
  {
    if exists j :: 0 <= j < k && boxes[j].value == v then
      var j :| 0 <= j < k && boxes[j].value == v;
      FirstWith(boxes, v, j)
    else k
  }
}

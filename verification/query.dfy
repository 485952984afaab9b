/** Query strings as `URLSearchParams(params).toString()` writes them and
    the `get`/`clientGet` URL composition. Percent-encoding is not
    modelled, so keys and values are taken to be free of the two
    separator characters, which is what encoding guarantees. */
module Query {
  import opened Js

  datatype Param = Param(key: string, value: string)

  /** "key=value" */
  function Pair(p: Param): string {
    p.key + "=" + p.value
  }

  /** Parameters joined with '&', in insertion order. */
  function Encode(ps: seq<Param>): (q: string)
    ensures q == "" <==> ps == []
  {
    if ps == [] then ""
    else if |ps| == 1 then Pair(ps[0])
    else Pair(ps[0]) + "&" + Encode(ps[1..])
  }

  /** `queryString ? url + "?" + queryString : url` */
  function WithQuery(url: string, ps: seq<Param>): (r: string)
    ensures ps == [] ==> r == url
    ensures ps != [] ==> |r| > |url| && r[..|url|] == url && r[|url|] == '?'
  {
    var q := Encode(ps);
    if q != "" then url + "?" + q else url
  }

  /** The value of the first parameter named key. */
  function Lookup(ps: seq<Param>, key: string): (r: Option<string>)
    ensures r.None? <==> forall i :: 0 <= i < |ps| ==> ps[i].key != key
    ensures r.Some? ==> exists i :: 0 <= i < |ps| && ps[i] == Param(key, r.value)
  {
    if ps == [] then None
    else if ps[0].key == key then Some(ps[0].value)
    else
      var r := Lookup(ps[1..], key);
      assert forall i :: 1 <= i < |ps| ==> ps[i] == ps[1..][i - 1];
      r
  }

  function Keys(ps: seq<Param>): (ks: seq<string>)
    ensures |ks| == |ps|
    ensures forall i :: 0 <= i < |ps| ==> ks[i] == ps[i].key
  {
    if ps == [] then [] else [ps[0].key] + Keys(ps[1..])
  }

  // -----------------------------------------------------------------------
  // Reading a query string back

  /** Split s at every occurrence of sep. */
  function Split(s: string, sep: char): (parts: seq<string>)
    ensures |parts| >= 1
    decreases |s|
  {
    if s == [] then [""]
    else if s[0] == sep then [""] + Split(s[1..], sep)
    else
      var rest := Split(s[1..], sep);
      [[s[0]] + rest[0]] + rest[1..]
  }

  function Join(parts: seq<string>, sep: char): string
    requires |parts| >= 1
  {
    if |parts| == 1 then parts[0] else parts[0] + [sep] + Join(parts[1..], sep)
  }

  lemma {:induction false} SplitPrefix(a: string, rest: string, sep: char)
    requires Free(a, sep)
    ensures Split(a + rest, sep) == [a + Split(rest, sep)[0]] + Split(rest, sep)[1..]
    decreases |a|
  {
    if a != [] {
      assert (a + rest)[1..] == a[1..] + rest;
      SplitPrefix(a[1..], rest, sep);
      assert [a[0]] + (a[1..] + Split(rest, sep)[0]) == a + Split(rest, sep)[0];
    } else {
      assert a + rest == rest;
      var sp := Split(rest, sep);
      assert a + sp[0] == sp[0];
      assert sp == [sp[0]] + sp[1..];
    }
  }

  /** Splitting undoes joining when no part contains the separator. */
  lemma {:induction false} SplitJoin(parts: seq<string>, sep: char)
    requires |parts| >= 1
    requires forall k :: 0 <= k < |parts| ==> Free(parts[k], sep)
    ensures Split(Join(parts, sep), sep) == parts
    decreases |parts|
  {
    if |parts| == 1 {
      SplitPrefix(parts[0], "", sep);
      assert parts[0] + "" == parts[0];
    } else {
      var rest := Join(parts[1..], sep);
      SplitJoin(parts[1..], sep);
      assert Join(parts, sep) == parts[0] + ([sep] + rest);
      SplitPrefix(parts[0], [sep] + rest, sep);
      assert ([sep] + rest)[1..] == rest;
      assert Split([sep] + rest, sep) == [""] + Split(rest, sep);
      assert parts[0] + "" == parts[0];
      assert parts == [parts[0]] + parts[1..];
    }
  }

  /** A "key=value" pair split at its first '='. */
  function ParsePair(s: string): Param {
    if s == [] then Param("", "")
    else if s[0] == '=' then Param("", s[1..])
    else
      var p := ParsePair(s[1..]);
      Param([s[0]] + p.key, p.value)
  }

  lemma {:induction false} ParsePairOfPair(p: Param)
    requires Free(p.key, '=')
    ensures ParsePair(Pair(p)) == p
    decreases |p.key|
  {
    if p.key != [] {
      var q := Param(p.key[1..], p.value);
      assert Pair(p)[1..] == Pair(q);
      ParsePairOfPair(q);
    } else {
      assert Pair(p) == "=" + p.value;
    }
  }

  function ParsePairs(parts: seq<string>): (ps: seq<Param>)
    ensures |ps| == |parts|
  {
    if parts == [] then [] else [ParsePair(parts[0])] + ParsePairs(parts[1..])
  }

  /** `new URLSearchParams(q)` read back as an ordered list of pairs. */
  function Decode(q: string): seq<Param> {
    if q == "" then [] else ParsePairs(Split(q, '&'))
  }

  /** Keys carry neither separator and values carry no '&'. */
  predicate Plain(ps: seq<Param>) {
    forall i :: 0 <= i < |ps| ==> Free(ps[i].key, '=') && Free(ps[i].key, '&') && Free(ps[i].value, '&')
  }

  function Pairs(ps: seq<Param>): (parts: seq<string>)
    ensures |parts| == |ps|
    ensures forall i :: 0 <= i < |ps| ==> parts[i] == Pair(ps[i])
  {
    if ps == [] then [] else [Pair(ps[0])] + Pairs(ps[1..])
  }

  lemma {:induction false} EncodeIsJoin(ps: seq<Param>)
    requires ps != []
    ensures Encode(ps) == Join(Pairs(ps), '&')
    decreases |ps|
  {
    if |ps| > 1 {
      EncodeIsJoin(ps[1..]);
      assert Pairs(ps)[1..] == Pairs(ps[1..]);
    }
  }

  lemma {:induction false} ParsePairsOfPairs(ps: seq<Param>)
    requires forall i :: 0 <= i < |ps| ==> Free(ps[i].key, '=')
    ensures ParsePairs(Pairs(ps)) == ps
    decreases |ps|
  {
    if ps != [] {
      ParsePairOfPair(ps[0]);
      assert Pairs(ps)[1..] == Pairs(ps[1..]);
      ParsePairsOfPairs(ps[1..]);
    }
  }

  /** A pair carries no '&' when neither its key nor its value does. */
  lemma PairFree(p: Param)
    requires Free(p.key, '&') && Free(p.value, '&')
    ensures Free(Pair(p), '&')
  {
    assert Free("=", '&');
    FreeJoin(p.key, "=", '&');
    FreeJoin(p.key + "=", p.value, '&');
  }

  /** Reading back the query string gives the parameters that were
      written, in order. */
  lemma DecodeEncode(ps: seq<Param>)
    requires Plain(ps)
    ensures Decode(Encode(ps)) == ps
  {
    if ps != [] {
      EncodeIsJoin(ps);
      var parts := Pairs(ps);
      forall k | 0 <= k < |parts| ensures Free(parts[k], '&') {
        PairFree(ps[k]);
      }
      SplitJoin(parts, '&');
      ParsePairsOfPairs(ps);
    }
  }

  // -----------------------------------------------------------------------
  // Object spread

  /** The keys of base keep their places and take over's value when over
      has one. */
  function Override(base: seq<Param>, over: seq<Param>): (r: seq<Param>)
    ensures |r| == |base|
    ensures Keys(r) == Keys(base)
  {
    if base == [] then []
    else [Param(base[0].key, Lookup(over, base[0].key).GetOr(base[0].value))] + Override(base[1..], over)
  }

  /** The parameters of over whose key base lacks, in over's order. */
  function Extra(base: seq<Param>, over: seq<Param>): (r: seq<Param>)
    ensures |r| <= |over|
    ensures forall i :: 0 <= i < |r| ==> r[i] in over && Lookup(base, r[i].key).None?
  {
    if over == [] then []
    else if Lookup(base, over[0].key).None? then [over[0]] + Extra(base, over[1..])
    else Extra(base, over[1..])
  }

  /** `{ ...base, ...over }` as an object's own keys enumerate: the keys
      of base first, then the new keys of over. */
  function Spread(base: seq<Param>, over: seq<Param>): seq<Param> {
    Override(base, over) + Extra(base, over)
  }

  lemma {:induction false} LookupAppend(a: seq<Param>, b: seq<Param>, k: string)
    ensures Lookup(a + b, k) == if Lookup(a, k).Some? then Lookup(a, k) else Lookup(b, k)
    decreases |a|
  {
    if a != [] {
      assert (a + b)[1..] == a[1..] + b;
      if a[0].key != k {
        LookupAppend(a[1..], b, k);
      }
    } else {
      assert a + b == b;
    }
  }

  /** Reading a key from a two-entry list. */
  lemma LookupTwo(p: Param, q: Param, k: string)
    ensures Lookup([p, q], k) == if p.key == k then Some(p.value) else if q.key == k then Some(q.value) else None
  {
    assert [p, q][1..] == [q];
    assert [q][1..] == [];
  }

  lemma {:induction false} LookupOverride(base: seq<Param>, over: seq<Param>, k: string)
    ensures Lookup(Override(base, over), k) ==
      if Lookup(base, k).Some? then Some(Lookup(over, k).GetOr(Lookup(base, k).value)) else None
    decreases |base|
  {
    if base != [] && base[0].key != k {
      LookupOverride(base[1..], over, k);
    }
  }

  lemma {:induction false} LookupExtra(base: seq<Param>, over: seq<Param>, k: string)
    ensures Lookup(Extra(base, over), k) == if Lookup(base, k).Some? then None else Lookup(over, k)
    decreases |over|
  {
    if over != [] {
      LookupExtra(base, over[1..], k);
    }
  }

  /** The value read back for a key is over's when over has the key,
      otherwise base's: the later object wins. */
  lemma SpreadWins(base: seq<Param>, over: seq<Param>, k: string)
    ensures Lookup(Spread(base, over), k) == if Lookup(over, k).Some? then Lookup(over, k) else Lookup(base, k)
  {
    LookupAppend(Override(base, over), Extra(base, over), k);
    LookupOverride(base, over, k);
    LookupExtra(base, over, k);
  }
}

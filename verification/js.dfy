/** The few pieces of JavaScript value semantics the pages rely on:
    truthiness and `||` fallbacks, `String.prototype.trim`, `parseInt`,
    number-to-string conversion, `padStart(2, '0')`, `includes` and the
    thousands-separator regular expression of `formatNumber`. */
module Js {

  datatype Option<+T> = None | Some(value: T) {
    function GetOr(default: T): T {
      match this
      case Some(v) => v
      case None => default
    }
  }

  /** A concatenation with a non-empty left part starts with that part's
      head and continues with its tail followed by the right part. */
  lemma ConsAppend<T>(a: seq<T>, b: seq<T>)
    requires a != []
    ensures (a + b)[0] == a[0] && (a + b)[1..] == a[1..] + b
  {
  }

  lemma AppendAssoc<T>(a: seq<T>, b: seq<T>, c: seq<T>)
    ensures a + (b + c) == (a + b) + c
  {
  }

  /** A concatenation with a non-empty right part ends with that part's
      last element, after the left part and the rest of the right one. */
  lemma SnocAppend<T>(a: seq<T>, b: seq<T>)
    requires b != []
    ensures (a + b)[|a + b| - 1] == b[|b| - 1] && (a + b)[..|a + b| - 1] == a + b[..|b| - 1]
  {
  }

  /** Reading a key of a string-keyed record (`storage.getItem(key)`,
      `formData.get(name)`, `element.dataset[key]`): None when the key is
      absent, which the pages see as null or undefined. */
  function Get(m: map<string, string>, key: string): (r: Option<string>)
    ensures r.Some? <==> key in m
    ensures r.Some? ==> r.value == m[key]
  {
    if key in m then Some(m[key]) else None
  }

  /** `a || b` on a possibly missing string: a non-empty string wins,
      anything else (missing or "") yields the fallback. */
  function OrStr(a: Option<string>, fallback: string): (r: string)
    ensures a.Some? && a.value != "" ==> r == a.value
    ensures (a.None? || a.value == "") ==> r == fallback
  {
    if a.Some? && a.value != "" then a.value else fallback
  }

  /** `a || null` on a possibly missing string. */
  function OrNull(a: Option<string>): (r: Option<string>)
    ensures r.Some? <==> a.Some? && a.value != ""
    ensures r.Some? ==> r == a
  {
    if a.Some? && a.value != "" then a else None
  }

  /** `n || d` on a number where None stands for NaN, undefined or null:
      0 and NaN are falsy. */
  function OrNum(n: Option<int>, fallback: int): (r: int)
    ensures n.Some? && n.value != 0 ==> r == n.value
    ensures (n.None? || n.value == 0) ==> r == fallback
    ensures fallback != 0 ==> r != 0
  {
    if n.Some? && n.value != 0 then n.value else fallback
  }

  // ---------------------------------------------------------------------
  // trim

  /** WhiteSpace and LineTerminator code points of ECMAScript, which
      `trim` and `parseInt` skip. */
  predicate IsSpace(c: char) {
    || c == ' ' || c == '\t' || c == '\n' || c == '\r'
    || c == '\U{000B}' || c == '\U{000C}' || c == '\U{00A0}' || c == '\U{FEFF}'
    || c == '\U{1680}' || ('\U{2000}' <= c <= '\U{200A}')
    || c == '\U{2028}' || c == '\U{2029}' || c == '\U{202F}' || c == '\U{205F}'
    || c == '\U{3000}'
  }

  predicate AllSpace(s: string) {
    forall i :: 0 <= i < |s| ==> IsSpace(s[i])
  }

  /** Number of leading white-space characters. */
  function LeadingSpaces(s: string): (n: nat)
    ensures n <= |s|
    ensures forall i :: 0 <= i < n ==> IsSpace(s[i])
    ensures n < |s| ==> !IsSpace(s[n])
  {
    if |s| > 0 && IsSpace(s[0]) then
      var m := LeadingSpaces(s[1..]);
      assert forall i :: 1 <= i < 1 + m ==> s[i] == s[1..][i - 1];
      1 + m
    else 0
  }

  /** Number of trailing white-space characters. */
  function TrailingSpaces(s: string): (n: nat)
    ensures n <= |s|
    ensures forall i :: |s| - n <= i < |s| ==> IsSpace(s[i])
    ensures n < |s| ==> !IsSpace(s[|s| - n - 1])
  {
    if |s| > 0 && IsSpace(s[|s| - 1]) then
      var p := s[..|s| - 1];
      var m := TrailingSpaces(p);
      assert forall i :: |p| - m <= i < |p| ==> s[i] == p[i];
      1 + m
    else 0
  }

  /** `s.trim()`: s with white space removed from both ends. */
  function Trim(s: string): (r: string)
    ensures |r| <= |s|
    ensures r == "" <==> AllSpace(s)
    ensures r != "" ==> !IsSpace(r[0]) && !IsSpace(r[|r| - 1])
    ensures |s| > 0 && !IsSpace(s[0]) && !IsSpace(s[|s| - 1]) ==> r == s
  {
    var a := LeadingSpaces(s);
    if a == |s| then
      ""
    else
      var t := s[a..];
      var b := TrailingSpaces(t);
      assert t[0] == s[a];
      assert b < |t|;
      var r := t[..|t| - b];
      assert r[0] == s[a];
      assert r[|r| - 1] == t[|t| - b - 1];
      r
  }

  lemma TrimIdempotent(s: string)
    ensures Trim(Trim(s)) == Trim(s)
  {
  }

  // ---------------------------------------------------------------------
  // digits, parseInt and number-to-string

  predicate IsDecimalDigit(c: char) { '0' <= c <= '9' }

  /** Value of c as a digit in the given radix (10 or 16), if it is one. */
  function DigitValue(c: char, radix: nat): (r: Option<nat>)
    requires radix == 10 || radix == 16
    ensures r.Some? ==> r.value < radix
    ensures radix == 10 ==> (r.Some? <==> IsDecimalDigit(c))
  {
    if '0' <= c <= '9' then Some(c as nat - '0' as nat)
    else if radix == 16 && 'a' <= c <= 'f' then Some(c as nat - 'a' as nat + 10)
    else if radix == 16 && 'A' <= c <= 'F' then Some(c as nat - 'A' as nat + 10)
    else None
  }

  predicate AllDigits(s: string, radix: nat)
    requires radix == 10 || radix == 16
  {
    forall i :: 0 <= i < |s| ==> DigitValue(s[i], radix).Some?
  }

  /** Length of the longest prefix of s made of radix digits. */
  function DigitRun(s: string, radix: nat): (n: nat)
    requires radix == 10 || radix == 16
    ensures n <= |s|
    ensures AllDigits(s[..n], radix)
    ensures n < |s| ==> DigitValue(s[n], radix).None?
  {
    if |s| > 0 && DigitValue(s[0], radix).Some? then
      var m := DigitRun(s[1..], radix);
      assert s[..1 + m] == [s[0]] + s[1..][..m];
      1 + m
    else 0
  }

  /** Big-endian value of a digit string. */
  function DigitsValue(s: string, radix: nat): nat
    requires radix == 10 || radix == 16
    requires AllDigits(s, radix)
  {
    if s == [] then 0
    else
      var p := s[..|s| - 1];
      assert AllDigits(p, radix) by {
        forall i | 0 <= i < |p| ensures DigitValue(p[i], radix).Some? {
          assert p[i] == s[i];
        }
      }
      DigitsValue(p, radix) * radix + DigitValue(s[|s| - 1], radix).value
  }

  /** `parseInt(s)` with no radix argument; None is NaN.
      Leading white space is skipped, one sign is accepted, a "0x"/"0X"
      prefix switches to hexadecimal, and the longest run of digits that
      follows is read; the rest of the string is ignored. */
  function ParseInt(s: string): (r: Option<int>)
  {
    var t := s[LeadingSpaces(s)..];
    var negative := |t| > 0 && t[0] == '-';
    var u := if |t| > 0 && (t[0] == '-' || t[0] == '+') then t[1..] else t;
    var hex := |u| >= 2 && u[0] == '0' && (u[1] == 'x' || u[1] == 'X');
    var radix := if hex then 16 else 10;
    var w := if hex then u[2..] else u;
    var n := DigitRun(w, radix);
    if n == 0 then None
    else
      var v := DigitsValue(w[..n], radix);
      var vi: int := v;
      var x: int := if negative then -vi else vi;
      Some(x)
  }

  /** `parseInt(x)` where x may be undefined (an absent element): NaN. */
  function ParseIntOpt(s: Option<string>): (r: Option<int>)
    ensures s.None? ==> r.None?
  {
    if s.Some? then ParseInt(s.value) else None
  }

  function DigitChar(d: nat): (c: char)
    requires d < 10
    ensures IsDecimalDigit(c) && DigitValue(c, 10) == Some(d)
  {
    ('0' as nat + d) as char
  }

  /** `String(n)` for a non-negative integer: its decimal digits. */
  function NatToString(n: nat): (s: string)
    ensures |s| >= 1 && AllDigits(s, 10)
    ensures s[0] == '0' ==> n == 0 && s == "0"
  {
    if n < 10 then [DigitChar(n)]
    else
      var p := NatToString(n / 10);
      assert AllDigits(p + [DigitChar(n % 10)], 10) by {
        var q := p + [DigitChar(n % 10)];
        forall i | 0 <= i < |q| ensures DigitValue(q[i], 10).Some? {
          if i < |p| { assert q[i] == p[i]; }
        }
      }
      p + [DigitChar(n % 10)]
  }

  /** `String(n)` for any integer. */
  function IntToString(n: int): (s: string)
    ensures |s| >= 1
    ensures n >= 0 ==> s == NatToString(n)
    ensures n < 0 ==> s == "-" + NatToString(-n)
  {
    if n < 0 then "-" + NatToString(-n) else NatToString(n)
  }

  lemma {:induction false} NatToStringValue(n: nat)
    ensures DigitsValue(NatToString(n), 10) == n
  {
    if n >= 10 {
      NatToStringValue(n / 10);
      var s := NatToString(n);
      assert s[..|s| - 1] == NatToString(n / 10);
    }
  }

  /** Reading back what `String(n)` wrote gives n: parseInt inverts
      number-to-string on integers. */
  lemma ParseIntOfIntToString(n: int)
    ensures ParseInt(IntToString(n)) == Some(n)
  {
    if n < 0 {
      ParseSigned(-n);
    } else {
      ParseUnsigned(n);
    }
  }

  /** What `String(m)` writes for m >= 0: no blank, no sign, no hex prefix,
      digits all the way, worth m. */
  lemma NatToStringShape(m: nat)
    ensures var d := NatToString(m);
      && LeadingSpaces(d) == 0 && d[0] != '-' && d[0] != '+'
      && !(|d| >= 2 && d[0] == '0')
      && DigitRun(d, 10) == |d| && d[..|d|] == d && DigitsValue(d, 10) == m
  {
    var d := NatToString(m);
    assert !IsSpace(d[0]);
    DigitRunOfDigits(d, 10);
    NatToStringValue(m);
  }

  lemma ParseUnsigned(m: nat)
    ensures ParseInt(NatToString(m)) == Some(m)
  {
    NatToStringShape(m);
  }

  lemma ParseSigned(m: nat)
    ensures ParseInt("-" + NatToString(m)) == Some(-(m as int))
  {
    var d := NatToString(m);
    var s := "-" + d;
    NatToStringShape(m);
    assert !IsSpace(s[0]) && s[0] == '-';
    assert LeadingSpaces(s) == 0;
    assert s[0..] == s && s[1..] == d;
  }

  lemma {:induction false} DigitRunOfDigits(s: string, radix: nat)
    requires radix == 10 || radix == 16
    requires AllDigits(s, radix)
    ensures DigitRun(s, radix) == |s|
  {
    if |s| > 0 {
      assert AllDigits(s[1..], radix) by {
        forall i | 0 <= i < |s| - 1 ensures DigitValue(s[1..][i], radix).Some? {
          assert s[1..][i] == s[i + 1];
        }
      }
      DigitRunOfDigits(s[1..], radix);
    }
  }

  /** `String(n).padStart(2, '0')` for a non-negative integer. */
  function Pad2(n: nat): (s: string)
    ensures |s| >= 2 && AllDigits(s, 10)
    ensures n < 100 ==> |s| == 2
    ensures ParseInt(s) == Some(n)
  {
    if n < 10 then
      var s := "0" + NatToString(n);
      assert s == ['0', DigitChar(n)];
      assert LeadingSpaces(s) == 0;
      assert DigitRun(s, 10) == 2 by { DigitRunOfDigits(s, 10); }
      assert s[..2] == s;
      assert s[..1] == "0";
      assert DigitsValue(s[..1], 10) == 0 by {
        assert s[..1][..0] == [];
      }
      assert DigitsValue(s, 10) == n;
      s
    else
      var s := NatToString(n);
      assert s == NatToString(n / 10) + [DigitChar(n % 10)];
      assert n < 100 ==> |NatToString(n / 10)| == 1;
      ParseIntOfIntToString(n);
      s
  }

  // ---------------------------------------------------------------------
  // separators

  /** c does not occur in s. */
  predicate Free(s: string, c: char) {
    forall i :: 0 <= i < |s| ==> s[i] != c
  }

  lemma FreeJoin(a: string, b: string, c: char)
    requires Free(a, c) && Free(b, c)
    ensures Free(a + b, c)
  {
    assert forall i :: |a| <= i < |a + b| ==> (a + b)[i] == b[i - |a|];
  }

  /** Two strings that are each a c-free head followed by nothing or by a
      tail starting with c split the same way when they are equal. */
  lemma SplitAtFirst(w1: string, t1: string, w2: string, t2: string, c: char)
    requires Free(w1, c) && Free(w2, c)
    requires t1 == [] || t1[0] == c
    requires t2 == [] || t2[0] == c
    requires w1 + t1 == w2 + t2
    ensures w1 == w2 && t1 == t2
  {
    var s := w1 + t1;
    assert forall i :: 0 <= i < |w1| ==> s[i] == w1[i];
    assert forall i :: 0 <= i < |w2| ==> s[i] == w2[i];
    assert |t1| > 0 ==> s[|w1|] == t1[0];
    assert |t2| > 0 ==> s[|w2|] == t2[0];
    assert |w1| == |w2|;
    assert w1 == s[..|w1|] == w2;
    assert t1 == s[|w1|..] == t2;
  }

  // ---------------------------------------------------------------------
  // includes

  predicate StartsWith(s: string, prefix: string) {
    |prefix| <= |s| && s[..|prefix|] == prefix
  }

  /** A text starts with the first of the pieces it is joined from. */
  lemma StartsWithJoin(a: string, b: string, c: string)
    ensures StartsWith(a + b + c, a)
  {
    assert (a + b + c)[..|a|] == a;
  }

  /** part occurs in s starting at index i. */
  predicate OccursAt(s: string, part: string, i: int) {
    0 <= i && i + |part| <= |s| && s[i..i + |part|] == part
  }

  /** `s.includes(part)`. */
  function Includes(s: string, part: string): (r: bool)
    ensures r <==> exists i :: OccursAt(s, part, i)
    decreases |s|
  {
    if StartsWith(s, part) then
      assert OccursAt(s, part, 0);
      true
    else if |s| <= |part| then
      assert forall i :: !OccursAt(s, part, i);
      false
    else
      var r := Includes(s[1..], part);
      assert r ==> exists i :: OccursAt(s, part, i) by {
        if r {
          var j :| OccursAt(s[1..], part, j);
          assert s[j + 1..j + 1 + |part|] == s[1..][j..j + |part|];
          assert OccursAt(s, part, j + 1);
        }
      }
      assert (exists i :: OccursAt(s, part, i)) ==> r by {
        if exists i :: OccursAt(s, part, i) {
          var i :| OccursAt(s, part, i);
          assert i != 0;
          assert s[1..][i - 1..i - 1 + |part|] == s[i..i + |part|];
          assert OccursAt(s[1..], part, i - 1);
        }
      }
      r
  }

  // ---------------------------------------------------------------------
  // thousands separators

  /** s without its commas. */
  function StripCommas(s: string): (r: string)
    ensures |r| <= |s|
  {
    if s == [] then [] else (if s[0] == ',' then [] else [s[0]]) + StripCommas(s[1..])
  }

  lemma {:induction false} StripCommasAppend(a: string, b: string)
    ensures StripCommas(a + b) == StripCommas(a) + StripCommas(b)
  {
    if a != [] {
      ConsAppend(a, b);
      StripCommasAppend(a[1..], b);
      AppendAssoc(if a[0] == ',' then [] else [a[0]], StripCommas(a[1..]), StripCommas(b));
    } else {
      assert a + b == b;
    }
  }

  lemma {:induction false} StripCommasNone(s: string)
    requires forall i :: 0 <= i < |s| ==> s[i] != ','
    ensures StripCommas(s) == s
  {
    if s != [] {
      StripCommasNone(s[1..]);
    }
  }

  /** Comma placement of the thousands-separator regular expression:
      a comma exactly where the number of characters from it to the end
      is a multiple of four, i.e. in front of every complete group of
      three digits counted from the right. */
  predicate CommaGrouped(r: string) {
    forall i :: 0 <= i < |r| ==> (r[i] == ',' <==> (|r| - i) % 4 == 0)
  }

  lemma GroupStep(g: string, tail: string)
    requires CommaGrouped(g)
    requires |tail| == 3 && forall i :: 0 <= i < 3 ==> tail[i] != ','
    ensures CommaGrouped(g + "," + tail)
  {
    var r := g + "," + tail;
    forall i | 0 <= i < |r| ensures r[i] == ',' <==> (|r| - i) % 4 == 0 {
      if i < |g| {
        assert r[i] == g[i];
      } else if i > |g| {
        assert r[i] == tail[i - |g| - 1];
      }
    }
  }

  lemma StripStep(g: string, head: string, tail: string)
    requires StripCommas(g) == head
    requires forall i :: 0 <= i < |tail| ==> tail[i] != ','
    ensures StripCommas(g + "," + tail) == head + tail
  {
    assert StripCommas(",") == [] by {
      assert ","[1..] == [];
    }
    StripCommasAppend(g, ",");
    assert StripCommas(g + ",") == head;
    StripCommasAppend(g + ",", tail);
    StripCommasNone(tail);
  }

  /** `digits.replace(/\B(?=(\d{3})+(?!\d))/g, ',')` on a run of decimal
      digits. */
  function GroupThousands(digits: string): (r: string)
    requires forall i :: 0 <= i < |digits| ==> digits[i] != ','
    ensures StripCommas(r) == digits
    ensures CommaGrouped(r)
    ensures |r| > 0 ==> r[0] != ','
    decreases |digits|
  {
    if |digits| <= 3 then
      StripCommasNone(digits);
      digits
    else
      var head := digits[..|digits| - 3];
      var tail := digits[|digits| - 3..];
      var g := GroupThousands(head);
      StripStep(g, head, tail);
      assert head + tail == digits;
      GroupStep(g, tail);
      g + "," + tail
  }

  lemma DigitsCommaFree(s: string)
    requires AllDigits(s, 10)
    ensures forall i :: 0 <= i < |s| ==> s[i] != ','
  {
    assert forall i :: 0 <= i < |s| ==> DigitValue(s[i], 10).Some?;
  }

  /** An integer's decimal text with the thousands separators of
      `formatNumber` (and of `toLocaleString` in the zh-CN and en-US
      locales): the sign, then the digit groups. */
  function GroupedInt(n: int): string {
    var m := if n < 0 then -n else n;
    DigitsCommaFree(NatToString(m));
    if n < 0 then "-" + GroupThousands(NatToString(m)) else GroupThousands(NatToString(m))
  }

  /** Removing the separators gives back `String(n)`, so the grouped text
      reads back with `parseInt`; the groups after the first have three
      digits. */
  lemma GroupedIntReadsBack(n: int)
    ensures StripCommas(GroupedInt(n)) == IntToString(n)
    ensures ParseInt(StripCommas(GroupedInt(n))) == Some(n)
    ensures n >= 0 ==> CommaGrouped(GroupedInt(n))
  {
    var m := if n < 0 then -n else n;
    DigitsCommaFree(NatToString(m));
    if n < 0 {
      StripCommasAppend("-", GroupThousands(NatToString(m)));
      StripCommasNone("-");
    }
    ParseIntOfIntToString(n);
  }
}

/**
 Text helpers the Go code takes from its standard library: decimal rendering
 (`strconv.Itoa`, `%d`), `strings.TrimPrefix`, `strings.SplitN` on the first
 separator, joining with a separator, and the `key=value` parameters of a
 query string. Each builder comes with an independent reader and a
 round-trip lemma.
 */
module Strings {
  import opened Results

  // ---------------------------------------------------------------------
  // Decimal rendering and parsing

  predicate IsDigit(c: char) {
    '0' as int <= c as int <= '9' as int
  }

  predicate AllDigits(s: string) {
    forall i :: 0 <= i < |s| ==> IsDigit(s[i])
  }

  function DigitChar(d: nat): (c: char)
    requires d < 10
    ensures IsDigit(c) && c as int - '0' as int == d
  {
    (d + '0' as int) as char
  }

  function DigitValue(c: char): nat
    requires IsDigit(c)
  {
    c as int - '0' as int
  }

  /** Value of a run of decimal digits, most significant first. */
  function DigitsValue(s: string): nat
    requires AllDigits(s)
  {
    if |s| == 0 then 0
    else DigitsValue(s[..|s| - 1]) * 10 + DigitValue(s[|s| - 1])
  }

  /** Decimal digits of `n`, without leading zeros. */
  function NatToString(n: nat): (r: string)
    ensures |r| >= 1 && AllDigits(r)
    ensures |r| > 1 ==> r[0] != '0'
  {
    if n < 10 then [DigitChar(n)] else NatToString(n / 10) + [DigitChar(n % 10)]
  }

  /** `strconv.Itoa` and `fmt`'s `%d`: an optional minus sign, then the digits of |n|. */
  function Itoa(n: int): (r: string)
    ensures |r| >= 1
    ensures r[0] == '-' <==> n < 0
    ensures forall i :: 0 <= i < |r| ==> IsDigit(r[i]) || (i == 0 && r[i] == '-')
  {
    if n < 0 then "-" + NatToString(-n) else NatToString(n)
  }

  /** Reads back what `Itoa` writes: an optional '-' followed by one or more digits. */
  function ParseInt(s: string): Option<int> {
    if |s| > 0 && s[0] == '-' then
      if |s| > 1 && AllDigits(s[1..]) then Some(-(DigitsValue(s[1..]) as int)) else None
    else if |s| > 0 && AllDigits(s) then Some(DigitsValue(s))
    else None
  }

  lemma {:induction false} NatToStringValue(n: nat)
    ensures DigitsValue(NatToString(n)) == n
  {
    if n >= 10 {
      var init := NatToString(n / 10);
      var s := init + [DigitChar(n % 10)];
      assert s[..|s| - 1] == init;
      NatToStringValue(n / 10);
    }
  }

  /** Only digits and a leading '-' appear in a rendered integer. */
  lemma ItoaLacks(n: int, c: char)
    requires !IsDigit(c) && c != '-'
    ensures c !in Itoa(n)
  {
  }

  /** Rendering an integer and reading it back yields the same integer. */
  lemma ItoaRoundTrip(n: int)
    ensures ParseInt(Itoa(n)) == Some(n)
  {
    if n < 0 {
      var s := Itoa(n);
      assert s[1..] == NatToString(-n);
      NatToStringValue(-n);
    } else {
      NatToStringValue(n);
    }
  }

  /** `Itoa` is injective: distinct integers render differently. */
  lemma ItoaInjective(a: int, b: int)
    requires Itoa(a) == Itoa(b)
    ensures a == b
  {
    ItoaRoundTrip(a);
    ItoaRoundTrip(b);
  }

  // ---------------------------------------------------------------------
  // Prefixes

  /** `strings.TrimPrefix`: drops `p` from the front of `s` when `s` starts with it. */
  function TrimPrefix(s: string, p: string): (r: string)
    ensures p <= s ==> p + r == s
    ensures !(p <= s) ==> r == s
  {
    if p <= s then s[|p|..] else s
  }

  // ---------------------------------------------------------------------
  // Searching for one character

  function Count(s: string, c: char): nat {
    if |s| == 0 then 0 else Count(s[..|s| - 1], c) + (if s[|s| - 1] == c then 1 else 0)
  }

  lemma {:induction false} CountAppend(a: string, b: string, c: char)
    ensures Count(a + b, c) == Count(a, c) + Count(b, c)
  {
    if |b| == 0 {
      assert a + b == a;
    } else {
      assert (a + b)[..|a + b| - 1] == a + b[..|b| - 1];
      CountAppend(a, b[..|b| - 1], c);
    }
  }

  lemma {:induction false} CountAbsent(s: string, c: char)
    ensures c !in s <==> Count(s, c) == 0
  {
    if |s| > 0 {
      CountAbsent(s[..|s| - 1], c);
      assert s == s[..|s| - 1] + [s[|s| - 1]];
    }
  }

  /** Index of the first `c` in `s`, or -1. */
  function IndexOf(s: string, c: char): (k: int)
    ensures -1 <= k < |s|
    ensures k >= 0 ==> s[k] == c
    ensures forall i :: 0 <= i < |s| && (k < 0 || i < k) ==> s[i] != c
  {
    if |s| == 0 then -1
    else if s[0] == c then 0
    else
      var k := IndexOf(s[1..], c);
      if k == -1 then -1 else k + 1
  }

  /** Index of the last `c` in `s`, or -1. */
  function LastIndexOf(s: string, c: char): (k: int)
    ensures -1 <= k < |s|
    ensures k >= 0 ==> s[k] == c
    ensures forall i :: k < i < |s| ==> s[i] != c
  {
    if |s| == 0 then -1
    else if s[|s| - 1] == c then |s| - 1
    else LastIndexOf(s[..|s| - 1], c)
  }

  /**
   `strings.SplitN(s, [sep], 2)` when it yields two parts: the text before the
   first `sep` and everything after it. None when `s` has no `sep`.
   */
  function SplitFirst(s: string, sep: char): (r: Option<(string, string)>)
    ensures r.None? <==> sep !in s
    ensures r.Some? ==> s == r.value.0 + [sep] + r.value.1 && sep !in r.value.0
  {
    var k := IndexOf(s, sep);
    if k < 0 then None
    else
      assert s == s[..k] + [sep] + s[k + 1..];
      assert forall i :: 0 <= i < k ==> s[..k][i] == s[i];
      Some((s[..k], s[k + 1..]))
  }

  /** `SplitFirst` cuts at a separator preceded by separator-free text. */
  lemma SplitFirstAt(a: string, sep: char, b: string)
    ensures sep !in a ==> SplitFirst(a + [sep] + b, sep) == Some((a, b))
  {
    if sep !in a {
      var s := a + [sep] + b;
      var k := IndexOf(s, sep);
      assert s[|a|] == sep;
      assert forall i :: 0 <= i < |a| ==> s[i] == a[i];
      assert k == |a|;
      assert s[..k] == a && s[k + 1..] == b;
    }
  }

  // ---------------------------------------------------------------------
  // Joining and splitting

  /**
   The parts, in order, with `sep` written before every part but the first:
   the loop `for i, x := range xs { if i > 0 { b.WriteString(sep) }; b.WriteString(x) }`.
   */
  function Join(parts: seq<string>, sep: char): string {
    if |parts| == 0 then ""
    else if |parts| == 1 then parts[0]
    else Join(parts[..|parts| - 1], sep) + [sep] + parts[|parts| - 1]
  }

  /** Cuts `s` at every `sep`; the independent reader of `Join`. */
  function Split(s: string, sep: char): (r: seq<string>)
    ensures |r| >= 1
    decreases |s|
  {
    var k := LastIndexOf(s, sep);
    if k < 0 then [s] else Split(s[..k], sep) + [s[k + 1..]]
  }

  predicate NoneContains(parts: seq<string>, sep: char) {
    forall i :: 0 <= i < |parts| ==> sep !in parts[i]
  }

  /** Splitting a join gives back the parts, provided no part contains the separator. */
  lemma {:induction false} SplitJoin(parts: seq<string>, sep: char)
    requires |parts| >= 1 && NoneContains(parts, sep)
    ensures Split(Join(parts, sep), sep) == parts
  {
    if |parts| > 1 {
      var init := parts[..|parts| - 1];
      var last := parts[|parts| - 1];
      var j := Join(init, sep);
      var s := j + [sep] + last;
      assert s[|j| + 1..] == last;
      assert LastIndexOf(s, sep) == |j| by {
        assert s[|j|] == sep;
        assert forall i :: |j| < i < |s| ==> s[i] == last[i - |j| - 1];
      }
      assert s[..|j|] == j;
      SplitJoin(init, sep);
      assert init + [last] == parts;
    }
  }

  /** A join of separator-free parts has exactly one separator between consecutive parts. */
  lemma {:induction false} JoinCount(parts: seq<string>, sep: char)
    requires |parts| >= 1 && NoneContains(parts, sep)
    ensures Count(Join(parts, sep), sep) == |parts| - 1
  {
    CountAbsent(parts[|parts| - 1], sep);
    if |parts| > 1 {
      var init := parts[..|parts| - 1];
      JoinCount(init, sep);
      CountAppend(Join(init, sep), [sep], sep);
      assert Count([sep], sep) == 1 by {
        assert [sep][..0] == [];
      }
      CountAppend(Join(init, sep) + [sep], parts[|parts| - 1], sep);
    }
  }

  /** The join starts with the first part and ends with the last one, so the separator is never leading or trailing when those are non-empty. */
  lemma {:induction false} JoinEnds(parts: seq<string>, sep: char)
    requires |parts| >= 1
    ensures parts[0] <= Join(parts, sep)
    ensures |parts[|parts| - 1]| <= |Join(parts, sep)|
    ensures Join(parts, sep)[|Join(parts, sep)| - |parts[|parts| - 1]|..] == parts[|parts| - 1]
  {
    if |parts| > 1 {
      JoinEnds(parts[..|parts| - 1], sep);
    }
  }

  // ---------------------------------------------------------------------
  // Query-string parameters

  /** The parameter `key=value` as written into a URL. */
  function Param(key: string, value: string): string {
    key + "=" + value
  }

  predicate HasKey(param: string, key: string) {
    key + "=" <= param
  }

  predicate HasParam(params: seq<string>, key: string) {
    exists i :: 0 <= i < |params| && HasKey(params[i], key)
  }

  /** The integer after `key=` in the first parameter named `key`, or 0 when there is none or it is malformed. */
  function IntParam(params: seq<string>, key: string): int {
    if |params| == 0 then 0
    else if HasKey(params[0], key) then
      match ParseInt(params[0][|key| + 1..])
      case Some(n) => n
      case None => 0
    else IntParam(params[1..], key)
  }
}

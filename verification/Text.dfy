/** Positional numerals and separator-joined lists, the text forms used by the
    patch strings, the id ranges and the address ranges. */
module Text {

  predicate IsDecimal(c: char) { '0' <= c <= '9' }

  predicate IsHex(c: char) { IsDecimal(c) || 'a' <= c <= 'f' || 'A' <= c <= 'F' }

  function DigitChar(d: nat): (c: char)
    requires d < 16
    ensures IsHex(c) && (d < 10 ==> IsDecimal(c)) && (c == '0' <==> d == 0) && DigitValue(c) == d
  {
    if d < 10 then '0' + d as char else 'a' + (d - 10) as char
  }

  function DigitValue(c: char): (d: nat)
    requires IsHex(c)
    ensures d < 16 && (IsDecimal(c) ==> d < 10)
  {
    if IsDecimal(c) then (c - '0') as nat
    else if 'a' <= c <= 'f' then (c - 'a') as nat + 10
    else (c - 'A') as nat + 10
  }

  /** The numeral of `n`, without leading zeros. */
  function Digits(n: nat, base: nat): (s: string)
    requires 2 <= base <= 16
    ensures |s| > 0
    decreases n
  {
    if n < base then [DigitChar(n)] else Digits(n / base, base) + [DigitChar(n % base)]
  }

  predicate AllHex(s: string) { forall i :: 0 <= i < |s| ==> IsHex(s[i]) }

  predicate AllDecimal(s: string) { forall i :: 0 <= i < |s| ==> IsDecimal(s[i]) }

  /** `int(s, base)`. */
  function Value(s: string, base: nat): nat
    requires AllHex(s)
    decreases |s|
  {
    if s == [] then 0
    else Value(s[..|s| - 1], base) * base + DigitValue(s[|s| - 1])
  }

  lemma {:induction false} DigitsRoundTrip(n: nat, base: nat)
    requires base == 10 || base == 16
    ensures AllHex(Digits(n, base)) && Value(Digits(n, base), base) == n
    ensures base == 10 ==> AllDecimal(Digits(n, base))
    ensures n > 0 ==> Digits(n, base)[0] != '0'
    decreases n
  {
    var s := Digits(n, base);
    if n < base {
      assert s[..0] == [];
    } else {
      DigitsRoundTrip(n / base, base);
      assert s[..|s| - 1] == Digits(n / base, base);
    }
  }

  // ----- split and join -----

  /** Python's `sep.join(parts)`. */
  function Join(parts: seq<string>, sep: char): string
  {
    if parts == [] then []
    else if |parts| == 1 then parts[0]
    else parts[0] + [sep] + Join(parts[1..], sep)
  }

  /** The length of the part before the first `sep`. */
  function Find(s: string, sep: char): (k: nat)
    ensures k <= |s| && (k < |s| ==> s[k] == sep)
    ensures forall i :: 0 <= i < k ==> s[i] != sep
  {
    if s == [] || s[0] == sep then 0 else 1 + Find(s[1..], sep)
  }

  /** Python's `s.split(sep)`. */
  function Split(s: string, sep: char): (parts: seq<string>)
    ensures |parts| > 0
    decreases |s|
  {
    var k := Find(s, sep);
    if k == |s| then [s] else [s[..k]] + Split(s[k + 1..], sep)
  }

  lemma FindAfter(a: string, b: string, sep: char)
    requires forall i :: 0 <= i < |a| ==> a[i] != sep
    ensures Find(a + [sep] + b, sep) == |a|
    ensures Find(a, sep) == |a|
  {
    var s := a + [sep] + b;
    assert s[|a|] == sep;
    assert forall i :: 0 <= i < |a| ==> s[i] == a[i];
  }

  lemma {:induction false} SplitJoin(parts: seq<string>, sep: char)
    requires |parts| > 0
    requires forall p, i :: 0 <= p < |parts| && 0 <= i < |parts[p]| ==> parts[p][i] != sep
    ensures Split(Join(parts, sep), sep) == parts
    decreases |parts|
  {
    if |parts| == 1 {
      FindAfter(parts[0], [], sep);
    } else {
      var rest := Join(parts[1..], sep);
      FindAfter(parts[0], rest, sep);
      SplitJoin(parts[1..], sep);
      var s := Join(parts, sep);
      assert s[..|parts[0]|] == parts[0];
      assert s[|parts[0]| + 1..] == rest;
    }
  }

  ghost predicate Without(s: string, sep: char) { forall i :: 0 <= i < |s| ==> s[i] != sep }

  /** The other way round: what was split joins back, and no part holds the separator. */
  lemma {:induction false} JoinSplit(s: string, sep: char)
    ensures Join(Split(s, sep), sep) == s && forall p :: p in Split(s, sep) ==> Without(p, sep)
    decreases |s|
  {
    var k := Find(s, sep);
    if k < |s| {
      var rest := Split(s[k + 1..], sep);
      JoinSplit(s[k + 1..], sep);
      assert ([s[..k]] + rest)[1..] == rest;
      assert s == s[..k] + [sep] + s[k + 1..];
    }
  }

  /** A decimal numeral is the one of its value. */
  lemma {:induction false} NumeralOfValue(s: string)
    requires s != [] && AllDecimal(s) && s[0] != '0'
    ensures AllHex(s) && Value(s, 10) > 0 && Digits(Value(s, 10), 10) == s
    decreases |s|
  {
    var n := |s| - 1;
    assert forall i :: 0 <= i < |s| ==> IsDecimal(s[i]);
    LastDigit(s[n]);
    assert s == s[..n] + [s[n]];
    if n > 0 {
      NumeralOfValue(s[..n]);
      DigitsSnoc(Value(s[..n], 10), DigitValue(s[n]));
    } else {
      assert s[..0] == [];
    }
  }

  lemma DigitsSnoc(n: nat, d: nat)
    requires n > 0 && d < 10
    ensures Digits(n * 10 + d, 10) == Digits(n, 10) + [DigitChar(d)]
  {
  }

  lemma LastDigit(c: char)
    requires IsDecimal(c)
    ensures DigitChar(DigitValue(c)) == c && DigitValue(c) < 10 && (c != '0' ==> DigitValue(c) > 0)
  {
  }
}

/** Segment and reference identifiers as strings: `seg_007`, `c00006@mid`. */
module Decimal {
  import opened Basics

  predicate IsDigit(c: char) { '0' <= c <= '9' }

  predicate AllDigits(s: string) { forall k :: 0 <= k < |s| ==> IsDigit(s[k]) }

  function Value(s: string): nat
    requires AllDigits(s)
  {
    if s == [] then 0 else 10 * Value(s[..|s| - 1]) + (s[|s| - 1] - '0') as nat
  }

  function Digits(n: nat): (s: string)
    ensures s != [] && AllDigits(s) && Value(s) == n
  {
    var last := ['0' + (n % 10) as char];
    if n < 10 then last else
      var s := Digits(n / 10) + last;
      assert s[..|s| - 1] == Digits(n / 10);
      s
  }

  /** Python's `{n:0{width}d}` for a natural number. */
  function Padded(n: nat, width: nat): (s: string)
    ensures AllDigits(s) && s != [] && Value(s) == n
    ensures |s| == (if |Digits(n)| < width then width else |Digits(n)|)
  {
    ZerosKeepValue(Digits(n), width);
    Zeros(width - |Digits(n)|) + Digits(n)
  }

  function Zeros(k: int): (s: string)
    ensures |s| == (if k < 0 then 0 else k)
    ensures forall i :: 0 <= i < |s| ==> s[i] == '0'
  {
    if k <= 0 then [] else Zeros(k - 1) + ['0']
  }

  lemma {:induction false} ZerosKeepValue(s: string, width: nat)
    requires AllDigits(s)
    ensures AllDigits(Zeros(width - |s|) + s) && Value(Zeros(width - |s|) + s) == Value(s)
  {
    ZeroPrefix(Zeros(width - |s|), s);
  }

  lemma {:induction false} ZeroPrefix(z: string, s: string)
    requires AllDigits(s) && forall i :: 0 <= i < |z| ==> z[i] == '0'
    ensures AllDigits(z + s) && Value(z + s) == Value(s)
  {
    var zs := z + s;
    if s != [] {
      ZeroPrefix(z, s[..|s| - 1]);
      assert zs[..|zs| - 1] == z + s[..|s| - 1];
    } else if z != [] {
      ZeroPrefix(z[..|z| - 1], s);
      assert zs[..|zs| - 1] == z[..|z| - 1] + s;
    }
  }

  /** A number below 10^width needs no more than `width` digits. */
  lemma {:induction false} DigitCount(n: nat, width: nat)
    requires width > 0
    ensures |Digits(n)| <= width <==> n < Power10(width)
    decreases width
  {
    if n >= 10 && width > 1 {
      DigitCount(n / 10, width - 1);
    }
  }

  function Power10(k: nat): (r: nat)
    ensures r > 0
  {
    if k == 0 then 1 else 10 * Power10(k - 1)
  }

  /** Python's `int(s)` on the unsigned decimals that the identifiers contain; anything else raises. */
  function ParseInt(s: string): Option<nat> {
    if s != [] && AllDigits(s) then Some(Value(s)) else None
  }

  /** `s.rsplit("_", 1)[-1]`. */
  function AfterLastUnderscore(s: string): string {
    if '_' !in s then s
    else if s[|s| - 1] == '_' then []
    else AfterLastUnderscore(s[..|s| - 1]) + [s[|s| - 1]]
  }

  /** `_segid`: GT segment ids count from one. */
  function SegId(i: nat): string { "seg_" + Padded(i + 1, 3) }

  /** `seg_num`: the number a GT segment id carries. */
  function SegNum(id: string): Option<nat> { ParseInt(AfterLastUnderscore(id)) }

  /** `_shot`: the production shot of a GT segment id. */
  function Shot(id: string): Option<int> {
    match SegNum(id) case Some(n) => Some(n - 1) case None => None
  }

  lemma {:induction false} SuffixAfterUnderscore(p: string, d: string)
    requires AllDigits(d)
    ensures AfterLastUnderscore(p + ['_'] + d) == d
  {
    var s := p + ['_'] + d;
    assert s[|p|] == '_';
    if d != [] {
      assert IsDigit(d[|d| - 1]);
      SuffixAfterUnderscore(p, d[..|d| - 1]);
      assert s[..|s| - 1] == p + ['_'] + d[..|d| - 1];
      assert d == d[..|d| - 1] + [d[|d| - 1]];
    }
  }

  /** The id written by the compiler is read back by every consumer. */
  lemma {:induction false} ShotInvertsSegId(i: nat)
    ensures SegNum(SegId(i)) == Some(i + 1)
    ensures Shot(SegId(i)) == Some(i)
  {
    SuffixAfterUnderscore("seg", Padded(i + 1, 3));
    assert SegId(i) == "seg" + ['_'] + Padded(i + 1, 3);
  }

  lemma {:induction false} SegIdInjective(i: nat, j: nat)
    ensures SegId(i) == SegId(j) <==> i == j
  {
    ShotInvertsSegId(i);
    ShotInvertsSegId(j);
  }
}

/** The intrinsic key of a cell: the two rounded intrinsic coordinates
    written as JavaScript writes integers, joined by a dash
    (`${Math.round(intrinsicX)}-${Math.round(intrinsicY)}`).
    Numbers of 10^21 and more, which JavaScript prints in exponent form,
    are not modelled. */
module Keys {
  import opened Wrappers

  predicate IsDigit(c: char) {
    '0' <= c <= '9'
  }

  predicate AllDigits(s: string) {
    forall i :: 0 <= i < |s| ==> IsDigit(s[i])
  }

  function DigitChar(d: nat): (c: char)
    requires d < 10
    ensures IsDigit(c)
  {
    ('0' as int + d) as char
  }

  function DigitValue(c: char): (d: nat)
    requires IsDigit(c)
    ensures d < 10
  {
    c as int - '0' as int
  }

  /** Decimal notation of a natural number, without leading zeros. */
  function NatStr(n: nat): (s: string)
    ensures |s| >= 1 && AllDigits(s)
    ensures |s| > 1 ==> s[0] != '0'
  {
    if n < 10 then [DigitChar(n)] else NatStr(n / 10) + [DigitChar(n % 10)]
  }

  /** JavaScript's string form of an integer: a minus sign for negatives. */
  function IntStr(x: int): (s: string)
    ensures |s| >= 1
    ensures AllDigits(s[1..])
    ensures s[0] == '-' <==> x < 0
  {
    if x < 0 then "-" + NatStr(-x) else NatStr(x)
  }

  /** The intrinsic key of a rounded intrinsic coordinate pair; it reads
      back to exactly that pair. */
  function KeyOf(x: int, y: int): (k: string)
    ensures ParseKey(k) == Some((x, y))
  {
    JoinedRoundTrip(x, y);
    IntStr(x) + "-" + IntStr(y)
  }

  /** The value of a string of decimal digits (empty string: 0). */
  function DigitsValue(s: string): nat
    requires AllDigits(s)
  {
    if |s| == 0 then 0 else DigitsValue(s[..|s| - 1]) * 10 + DigitValue(s[|s| - 1])
  }

  function ParseNat(s: string): Option<nat> {
    if |s| > 0 && AllDigits(s) then Some(DigitsValue(s)) else None
  }

  function ParseInt(s: string): Option<int> {
    if |s| > 0 && s[0] == '-' then
      match ParseNat(s[1..])
      case Some(n) => Some(-(n as int))
      case None => None
    else ParseNat(s)
  }

  /** The first dash at or after position `from`. */
  function FindDash(s: string, from: nat): (r: Option<nat>)
    ensures r.Some? ==> from <= r.value < |s| && s[r.value] == '-'
    ensures r.Some? ==> forall j :: from <= j < r.value ==> s[j] != '-'
    ensures r.None? ==> forall j :: from <= j < |s| ==> s[j] != '-'
    decreases |s| - from
  {
    if from >= |s| then None
    else if s[from] == '-' then Some(from)
    else FindDash(s, from + 1)
  }

  /** Reads a key back into its two integers. A leading minus belongs to
      the first number, so the separator is the first dash after position 0. */
  function ParseKey(s: string): Option<(int, int)> {
    match FindDash(s, 1)
    case None => None
    case Some(i) =>
      match (ParseInt(s[..i]), ParseInt(s[i + 1..]))
      case (Some(x), Some(y)) => Some((x, y))
      case _ => None
  }

  lemma {:induction false} ParseNatStr(n: nat)
    ensures ParseNat(NatStr(n)) == Some(n)
    decreases n
  {
    var s := NatStr(n);
    if n < 10 {
      assert s[..0] == [];
      assert DigitsValue(s) == n;
    } else {
      ParseNatStr(n / 10);
      assert s[..|s| - 1] == NatStr(n / 10);
      assert DigitValue(s[|s| - 1]) == n % 10;
      assert DigitsValue(s) == (n / 10) * 10 + n % 10;
    }
  }

  lemma ParseIntStr(x: int)
    ensures ParseInt(IntStr(x)) == Some(x)
  {
    if x < 0 {
      ParseNatStr(-x);
      assert IntStr(x)[1..] == NatStr(-x);
    } else {
      ParseNatStr(x);
    }
  }

  /** Two decimal integers joined by a dash split back at that dash. */
  lemma JoinedRoundTrip(x: int, y: int)
    ensures ParseKey(IntStr(x) + "-" + IntStr(y)) == Some((x, y))
  {
    var a := IntStr(x);
    var b := IntStr(y);
    var s := a + "-" + b;
    assert s[|a|] == '-';
    assert forall j :: 1 <= j < |a| ==> s[j] == a[1..][j - 1];
    var r := FindDash(s, 1);
    assert r == Some(|a|);
    assert s[..|a|] == a;
    assert s[|a| + 1..] == b;
    ParseIntStr(x);
    ParseIntStr(y);
  }

  /** Two cells share a key exactly when their rounded intrinsic pairs are
      equal, for all integers and not just non-negative ones. */
  lemma KeyInjective(x1: int, y1: int, x2: int, y2: int)
    ensures KeyOf(x1, y1) == KeyOf(x2, y2) <==> x1 == x2 && y1 == y2
  {
  }

  /** The key of the origin pair, used when no viewport exists yet. */
  lemma OriginKey()
    ensures KeyOf(0, 0) == "0-0"
  {
  }
}

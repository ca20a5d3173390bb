/** Byte strings (a char stands for one byte), options and results shared by every module. */
module Text {

  datatype Option<+T> = None | Some(value: T)

  /** The first position at or after `from` holding `ch`, or |s| when there is none. */
  function IndexOf(s: string, ch: char, from: nat): (i: nat)
    requires from <= |s|
    ensures from <= i <= |s|
    ensures i < |s| ==> s[i] == ch
    ensures forall j :: from <= j < i ==> s[j] != ch
    decreases |s| - from
  {
    if from == |s| || s[from] == ch then from else IndexOf(s, ch, from + 1)
  }

  /** The last position holding `ch`, or None. */
  function LastIndexOf(s: string, ch: char): (i: Option<nat>)
    ensures i.Some? ==> i.value < |s| && s[i.value] == ch && ch !in s[i.value + 1..]
    ensures i.None? ==> ch !in s
  {
    if s == [] then None
    else if s[|s| - 1] == ch then Some(|s| - 1)
    else
      assert s == s[..|s| - 1] + [s[|s| - 1]];
      var r := LastIndexOf(s[..|s| - 1], ch);
      assert r.Some? ==> s[r.value + 1..] == s[..|s| - 1][r.value + 1..] + [s[|s| - 1]];
      r
  }

  predicate IsDigit(ch: char) { '0' <= ch <= '9' }

  function Digit(n: nat): char
    requires n < 10
  {
    '0' + n as char
  }

  function Decimal(n: nat): (s: string)
    ensures |s| > 0
    ensures forall ch :: ch in s ==> IsDigit(ch)
  {
    if n < 10 then [Digit(n)] else Decimal(n / 10) + [Digit(n % 10)]
  }

  function DecimalValue(s: string): nat
    requires forall ch :: ch in s ==> IsDigit(ch)
  {
    if s == [] then 0
    else
      assert IsDigit(s[|s| - 1]);
      10 * DecimalValue(s[..|s| - 1]) + (s[|s| - 1] - '0') as nat
  }

  lemma {:induction false} DecimalRoundTrip(n: nat)
    ensures DecimalValue(Decimal(n)) == n
  {
    if n >= 10 {
      DecimalRoundTrip(n / 10);
      assert Decimal(n)[..|Decimal(n)| - 1] == Decimal(n / 10);
    } else {
      assert Decimal(n)[..0] == [];
    }
  }

  const UINT64_LIMIT: nat := 0x1_0000_0000_0000_0000

  /** strconv.ParseUint(s, 10, 64): digits only, and an error on overflow. */
  function ParseUint(s: string): Option<nat>
  {
    if s == [] || exists i :: 0 <= i < |s| && !IsDigit(s[i]) then None
    else
      assert forall ch :: ch in s ==> IsDigit(ch);
      var n := DecimalValue(s);
      if n < UINT64_LIMIT then Some(n) else None
  }

  lemma ParseDecimal(n: nat)
    ensures ParseUint(Decimal(n)) == if n < UINT64_LIMIT then Some(n) else None
  {
    DecimalRoundTrip(n);
    assert forall i :: 0 <= i < |Decimal(n)| ==> IsDigit(Decimal(n)[i]);
  }
}

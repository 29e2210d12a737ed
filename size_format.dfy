/**
 * The unit choice of `format_size` (app.py:140-146).
 *
 * The source divides a byte count by 1024.0 once per unit until the value drops
 * below 1024.0.  Division by a power of two is exact, and a count large enough
 * for the integer-to-float conversion to round (2^53 and up) is far beyond the
 * TB bound, so the chosen unit is exactly the one computed here over integers.
 * Below 2^53 the displayed value is exactly the real quotient `n / 1024^k`;
 * from 2^53 up it is that quotient before the conversion rounds it.
 *
 * The unit names are B, KB, MB, GB, TB and, as the fallback, PB.
 */
module SizeFormat {

  /** Index of the fallback unit PB. */
  const Fallback: nat := 5

  function Pow1024(k: nat): (p: nat)
    ensures p >= 1
  {
    if k == 0 then 1 else 1024 * Pow1024(k - 1)
  }

  /** The exclusive upper bound of the byte counts shown in unit `k`: 1024^(k+1). */
  function Limit(k: nat): nat
  {
    1024 * Pow1024(k)
  }

  /** The byte count with the unit it is shown in; `%.2f` would print `value`. */
  datatype SizeText = SizeText(value: real, unit: nat)

  /**
   * The least unit at or after `k` whose bound exceeds `n`, or PB when no
   * unit up to TB has one.
   */
  function UnitFrom(n: nat, k: nat): (u: nat)
    requires k <= Fallback
    decreases Fallback - k
    ensures k <= u <= Fallback
    ensures u < Fallback ==> n < Limit(u)
    ensures forall j :: k <= j < u ==> Limit(j) <= n
  {
    if k == Fallback || n < Limit(k) then k else UnitFrom(n, k + 1)
  }

  /** The unit `format_size` picks for `n` bytes. */
  function UnitIndex(n: nat): (u: nat)
    ensures u <= Fallback
    ensures u < Fallback ==> n < Limit(u)
    ensures forall j :: 0 <= j < u ==> Limit(j) <= n
  {
    UnitFrom(n, 0)
  }

  /** What `format_size(n)` shows, before the value is rounded to two decimals. */
  function Formatted(n: nat): SizeText
  {
    var k := UnitIndex(n);
    SizeText(n as real / Pow1024(k) as real, k)
  }

  lemma QuotientBelow(n: nat, p: nat, m: nat)
    requires p >= 1 && m == 1024 * p
    ensures (n as real / p as real < 1024.0) <==> n < m
  {
    var q, r := n as real / p as real, p as real;
    assert r > 0.0;
    assert q * r == n as real;
    ScaleBy(q, 1024.0, r);
    assert m as real == 1024.0 * r;
  }

  lemma QuotientAtLeastOne(n: nat, p: nat)
    requires p >= 1
    ensures (n as real / p as real >= 1.0) <==> n >= p
  {
    var q, r := n as real / p as real, p as real;
    assert r > 0.0;
    assert q * r == n as real;
    ScaleBy(q, 1.0, r);
    assert q < 1.0 <==> q * r < 1.0 * r;
    assert 1.0 * r == r;
    assert n < p <==> n as real < r;
  }

  lemma ScaleBy(q: real, c: real, r: real)
    requires r > 0.0
    ensures q < c <==> q * r < c * r
  {
    if q < c {
      assert (c - q) * r > 0.0;
    } else {
      assert (q - c) * r >= 0.0;
    }
  }

  lemma QuotientStep(n: nat, k: nat)
    ensures n as real / Pow1024(k) as real / 1024.0 == n as real / Pow1024(k + 1) as real
  {
    var p := Pow1024(k) as real;
    assert Pow1024(k + 1) as real == 1024.0 * p;
  }

  /**
   * The loop of `format_size`: keep dividing by 1024 while the value is at
   * least 1024 and units remain, and fall back to PB.
   */
  method FormatSize(size: nat) returns (text: SizeText)
    ensures text == Formatted(size)
    ensures text.unit < Fallback ==> text.value < 1024.0
  {
    var value: real := size as real;
    for i := 0 to Fallback
      invariant value == size as real / Pow1024(i) as real
      invariant forall j :: 0 <= j < i ==> Limit(j) <= size
    {
      QuotientBelow(size, Pow1024(i), Limit(i));
      if value < 1024.0 {
        UnitIsLeast(size, i);
        return SizeText(value, i);
      }
      QuotientStep(size, i);
      value := value / 1024.0;
    }
    UnitIsLeast(size, Fallback);
    text := SizeText(value, Fallback);
  }

  /** The unit is determined by being the least one whose bound exceeds `n`. */
  lemma UnitIsLeast(n: nat, k: nat)
    requires k <= Fallback
    requires k < Fallback ==> n < Limit(k)
    requires forall j :: 0 <= j < k ==> Limit(j) <= n
    ensures UnitIndex(n) == k
  {
  }

  /** A larger byte count is never shown in a smaller unit. */
  lemma UnitMonotone(m: nat, n: nat)
    requires m <= n
    ensures UnitIndex(m) <= UnitIndex(n)
  {
  }

  /**
   * The shown value is below 1024 in every unit but PB, at least 1 in every
   * unit but B, and scales back to the byte count exactly.
   */
  lemma FormattedValue(n: nat)
    ensures Formatted(n).unit <= Fallback
    ensures Formatted(n).unit < Fallback ==> Formatted(n).value < 1024.0
    ensures Formatted(n).unit > 0 ==> Formatted(n).value >= 1.0
    ensures Formatted(n).value * Pow1024(Formatted(n).unit) as real == n as real
  {
    var k := UnitIndex(n);
    QuotientBelow(n, Pow1024(k), Limit(k));
    QuotientAtLeastOne(n, Pow1024(k));
    if k > 0 {
      assert Limit(k - 1) <= n;
    }
  }
}

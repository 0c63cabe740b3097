/** Track ids are `<camera>-track-<n>`. The text determines camera and number, so ids drawn from
    different cameras or counters can never be confused. */
module TrackIds {
  const DIGITS := "0123456789"

  function Decimal(n: nat): (s: string)
    ensures s != []
  {
    if n < 10 then [DIGITS[n]] else Decimal(n / 10) + [DIGITS[n % 10]]
  }

  function TrackId(camera: string, n: nat): (id: string)
    ensures id != ""
  {
    camera + "-track-" + Decimal(n)
  }

  lemma {:induction false} DecimalHasNoDash(n: nat)
    ensures '-' !in Decimal(n)
  {
    if n >= 10 {
      DecimalHasNoDash(n / 10);
    }
  }

  /** The number a text of digits stands for. */
  function Value(s: string): nat
    requires forall i :: 0 <= i < |s| ==> '0' <= s[i] <= '9'
  {
    if s == [] then 0 else 10 * Value(s[..|s| - 1]) + (s[|s| - 1] - '0') as nat
  }

  /** The text is the number's usual one: digits only, of the right value, without a leading zero. */
  lemma {:induction false} DecimalDenotes(n: nat)
    ensures forall i :: 0 <= i < |Decimal(n)| ==> '0' <= Decimal(n)[i] <= '9'
    ensures Value(Decimal(n)) == n && (n > 0 ==> Decimal(n)[0] != '0')
  {
    DigitDenotes(n % 10);
    if n < 10 {
      assert Decimal(n)[..0] == [];
    } else {
      DecimalDenotes(n / 10);
      assert Decimal(n)[..|Decimal(n)| - 1] == Decimal(n / 10);
    }
  }

  lemma DigitDenotes(d: nat)
    requires d < 10
    ensures '0' <= DIGITS[d] <= '9' && (DIGITS[d] - '0') as nat == d
  {
    assert d == 0 || d == 1 || d == 2 || d == 3 || d == 4 || d == 5 || d == 6 || d == 7 || d == 8 || d == 9;
  }

  lemma {:induction false} DecimalInjective(m: nat, n: nat)
    requires Decimal(m) == Decimal(n)
    ensures m == n
  {
    var a, b := Decimal(m), Decimal(n);
    assert a[|a| - 1] == DIGITS[m % 10] && b[|b| - 1] == DIGITS[n % 10];
    assert m % 10 == n % 10;
    if m >= 10 && n >= 10 {
      assert a[..|a| - 1] == Decimal(m / 10) && b[..|b| - 1] == Decimal(n / 10);
      DecimalInjective(m / 10, n / 10);
    } else {
      assert m < 10 <==> |a| == 1;
      assert n < 10 <==> |b| == 1;
    }
  }

  /** The part after the last dash decides: no id is shared by two (camera, number) pairs. */
  lemma TrackIdInjective(c: string, m: nat, d: string, n: nat)
    requires TrackId(c, m) == TrackId(d, n)
    ensures c == d && m == n
  {
    var id := TrackId(c, m);
    var a, b := Decimal(m), Decimal(n);
    DecimalHasNoDash(m);
    DecimalHasNoDash(n);
    assert id[|id| - |a|..] == a && id[|id| - |b|..] == b;
    assert id[|id| - |a| - 1] == '-' && id[|id| - |b| - 1] == '-';
    assert |a| == |b|;
    DecimalInjective(m, n);
    assert id[..|id| - |a|] == c + "-track-" && id[..|id| - |b|] == d + "-track-";
    assert (c + "-track-")[..|c|] == c && (d + "-track-")[..|d|] == d;
  }
}

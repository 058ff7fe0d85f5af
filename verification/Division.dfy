/** Division with remainder by repeated subtraction, and its agreement with `/` and `%`. */
module Division {

  function Quot(t: nat, f: int): nat
    requires f > 0
  {
    if t < f then 0 else 1 + Quot(t - f, f)
  }

  function Rem(t: nat, f: int): (r: nat)
    requires f > 0
    ensures r < f
  {
    if t < f then t else Rem(t - f, f)
  }

  lemma AtLeast(a: int, f: int)
    requires f > 0
    ensures a >= 1 ==> a * f >= f
    ensures a <= -1 ==> a * f <= -f
  {
    if a >= 1 {
      assert (a - 1) * f >= 0;
    } else if a <= -1 {
      assert (-1 - a) * f >= 0;
    }
  }

  lemma UniqueDivision(q: int, r: int, q': int, r': int, f: int)
    requires f > 0 && 0 <= r < f && 0 <= r' < f && q * f + r == q' * f + r'
    ensures q == q' && r == r'
  {
    assert (q - q') * f == r' - r;
    AtLeast(q - q', f);
  }

  lemma {:induction false} DivisionWorks(t: nat, f: int)
    requires f > 0
    ensures t == Quot(t, f) * f + Rem(t, f)
  {
    if t >= f {
      DivisionWorks(t - f, f);
      assert (1 + Quot(t - f, f)) * f == f + Quot(t - f, f) * f;
    } else {
      assert 0 * f == 0;
    }
  }

  lemma IsDivision(t: nat, f: int)
    requires f > 0
    ensures Quot(t, f) == t / f && Rem(t, f) == t % f
  {
    DivisionWorks(t, f);
    assert t == (t / f) * f + t % f;
    UniqueDivision(Quot(t, f), Rem(t, f), t / f, t % f, f);
  }

  /** Time moving on by `d` within the current period, at most up to its end. */
  lemma {:induction false} Advance(t: nat, d: nat, f: int)
    requires f > 0 && Rem(t, f) + d <= f
    ensures Rem(t + d, f) == if Rem(t, f) + d == f then 0 else Rem(t, f) + d
    ensures Quot(t + d, f) == if Rem(t, f) + d == f then Quot(t, f) + 1 else Quot(t, f)
  {
    if t >= f {
      Advance(t - f, d, f);
    }
  }
}

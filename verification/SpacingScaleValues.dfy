/** The sizes of a spacing scale in closed form: which there are, what they are
    called and how long they are. */
module SpacingScaleValues {
  import opened SpacingScale

  function Power(x: real, k: nat): real {
    if k == 0 then 1.0 else Power(x, k - 1) * x
  }

  /** k divisions by f. */
  lemma OneMoreDivision(x: real, f: real, p: real, m: real)
    requires f != 0.0 && x * p == m
    ensures x / f * (p * f) == m
  {
    var q := x / f;
    assert q * f == x;
    assert q * (p * f) == q * f * p;
  }

  lemma OneMoreFactor(m: real, p: real, f: real)
    ensures m * p * f == m * (p * f)
  {
  }

  lemma {:induction false} Added(s: Scale, k: nat)
    requires s.operator.Plus?
    ensures Down(s, k) == s.medium + Times(-(k as int), s.increment) && Up(s, k) == s.medium + Times(k, s.increment)
  {
    if k > 0 {
      Added(s, k - 1);
      OneMoreTime(k, s.increment);
      OneMoreTime(1 - k, s.increment);
    }
  }

  lemma OneMoreTime(d: int, x: real)
    ensures Times(d, x) == Times(d - 1, x) + x
  {
    assert d as real == (d - 1) as real + 1.0;
  }

  /** k divisions by a factor are undone by its k-th power. */
  lemma {:induction false} DividedDown(s: Scale, k: nat)
    requires s.operator.Times? && s.increment > 1.0
    ensures Down(s, k) * Power(s.increment, k) == s.medium
  {
    if k > 0 {
      DividedDown(s, k - 1);
      OneMoreDivision(Down(s, k - 1), s.increment, Power(s.increment, k - 1), s.medium);
    } else {
      TimesOne(s.medium, Power(s.increment, 0));
    }
  }

  lemma {:induction false} DividedUp(s: Scale, k: nat)
    requires s.operator.Times? && s.increment != 0.0 && s.increment < 1.0
    ensures Up(s, k) * Power(s.increment, k) == s.medium
  {
    if k > 0 {
      DividedUp(s, k - 1);
      OneMoreDivision(Up(s, k - 1), s.increment, Power(s.increment, k - 1), s.medium);
    } else {
      TimesOne(s.medium, Power(s.increment, 0));
    }
  }

  /** k multiplications by a factor are one by its k-th power. */
  lemma {:induction false} Multiplied(s: Scale, k: nat)
    requires s.operator.Times? && s.increment != 0.0
    ensures s.increment > 1.0 ==> Up(s, k) == s.medium * Power(s.increment, k)
    ensures s.increment < 1.0 ==> Down(s, k) == s.medium * Power(s.increment, k)
  {
    if k > 0 {
      Multiplied(s, k - 1);
      OneMoreFactor(s.medium, Power(s.increment, k - 1), s.increment);
    } else {
      TimesOne(s.medium, Power(s.increment, 0));
    }
  }

  lemma TimesOne(x: real, p: real)
    requires p == 1.0
    ensures x * p == x
  {
  }

  lemma {:induction false} Unchanged(s: Scale, k: nat)
    requires s.operator.Times? && s.increment == 1.0
    ensures Down(s, k) == s.medium && Up(s, k) == s.medium && Power(s.increment, k) == 1.0
  {
    if k > 0 {
      Unchanged(s, k - 1);
    }
  }

  /** The length at distance d from the medium size: an increment added, or one
      above 1 multiplied by upwards and divided by downwards, or one below 1 the
      other way round, d times. */
  ghost predicate LengthOf(s: Scale, d: int, length: real) {
    var k: nat := if d < 0 then -d else d;
    match s.operator
    case Plus => length == s.medium + Times(d, s.increment)
    case Times =>
      if (d < 0 && s.increment > 1.0) || (d > 0 && s.increment < 1.0) then length * Power(s.increment, k) == s.medium
      else length == s.medium * Power(s.increment, k)
  }

  function Times(d: int, x: real): real {
    d as real * x
  }

  /** The name that belongs to a slug. */
  function NameOf(slug: int): Name {
    if slug == 50 then Medium
    else if slug == 40 then Small
    else if slug == 60 then Large
    else if slug == 30 then XSmall(Unset)
    else if slug == 70 then XLarge(Unset)
    else if slug < 50 then XSmall(Number((40 - slug) / 10))
    else XLarge(Number((slug - 60) / 10))
  }

  lemma LengthsAre(s: Scale, k: nat)
    requires s.operator.Plus? || s.increment != 0.0
    ensures LengthOf(s, -(k as int), Down(s, k)) && LengthOf(s, k, Up(s, k))
  {
    if k == 0 {
      assert Power(s.increment, 0) == 1.0;
    } else if s.operator.Plus? {
      Added(s, k);
    } else if s.increment == 1.0 {
      Unchanged(s, k);
      UnchangedLengths(s, k, s.medium);
    } else {
      MultipliedLengths(s, k);
    }
  }

  lemma MultipliedLengths(s: Scale, k: nat)
    requires s.operator.Times? && s.increment != 0.0 && s.increment != 1.0 && k > 0
    ensures LengthOf(s, -(k as int), Down(s, k)) && LengthOf(s, k, Up(s, k))
  {
    Multiplied(s, k);
    if s.increment > 1.0 {
      DividedDown(s, k);
    } else {
      DividedUp(s, k);
    }
  }

  lemma UnchangedLengths(s: Scale, k: nat, x: real)
    requires s.operator.Times? && s.increment == 1.0 && x == s.medium && Power(s.increment, k) == 1.0
    ensures LengthOf(s, -(k as int), x) && LengthOf(s, k, x)
  {
  }

  /** Every size of the scale has the name and the length that belong to its slug. */
  lemma SizesAre(s: Scale, i: nat)
    requires s.operator.Plus? || s.increment != 0.0
    requires i < |AllSizes(s)|
    ensures var size := AllSizes(s)[i];
      size.name == NameOf(size.slug) && exists d :: size.slug == 50 + 10 * d && LengthOf(s, d, size.length)
  {
    SizeAt(s, i);
    var d := i - Below(s);
    LengthsAre(s, if d < 0 then -d else d);
    assert AllSizes(s)[i].slug == 50 + 10 * d && LengthOf(s, d, AllSizes(s)[i].length);
  }

  /** How many sizes there may be below the medium one: half the scale, rounded up
      and without the medium one, and four at most. */
  function HalfBelow(steps: int): nat {
    if steps <= 1 then 0 else if (steps + 1) / 2 - 1 < 4 then (steps + 1) / 2 - 1 else 4
  }

  /** The medium size comes after as many as there is room for, unless one of them
      would not be above zero; then after those before the first such. */
  lemma MediumPlace(s: Scale) returns (b: nat)
    requires s.operator.Plus? || s.increment != 0.0
    ensures b < |AllSizes(s)| && AllSizes(s)[b] == Size(Medium, 50, s.medium)
    ensures b <= HalfBelow(s.steps) && forall k | 1 <= k <= b :: Down(s, k) > 0.0
    ensures b < HalfBelow(s.steps) ==> Down(s, b + 1) <= 0.0
  {
    b := Below(s);
    assert Room(s) == HalfBelow(s.steps);
    SizeAt(s, b);
  }

  /** There are as many sizes as steps, up to ten or if the scale reaches zero on
      the way down; of any other there are all those above and five more. */
  lemma HowMany(s: Scale)
    requires (s.operator.Plus? || s.increment != 0.0) && s.steps >= 1
    ensures |AllSizes(s)| ==
      if s.steps <= 10 || (exists k: nat | 1 <= k <= 4 :: Down(s, k) <= 0.0) then s.steps else s.steps / 2 + 5
  {
    CountExactly(s);
    SinksExactly(s);
    if s.steps > 10 {
      assert Room(s) == 4;
    }
  }
}

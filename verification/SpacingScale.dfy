/** WP_Theme_JSON_Gutenberg::compute_spacing_sizes: the sizes a spacing scale
    stands for, stepping outward from the medium one. Lengths are real numbers;
    rounding, units and translation of the names come after. */
module SpacingScale {

  datatype Operator = Plus | Times

  datatype Scale = Scale(steps: int, medium: real, operator: Operator, increment: real)

  /** Small, X-Small, 2X-Small and so on; `n` is the printed number, if any. */
  datatype Name = Small | XSmall(n: Count) | Medium | Large | XLarge(n: Count)

  datatype Count = Unset | Number(n: int)

  datatype Size = Size(name: Name, slug: int, length: real)

  /** PHP throws when a step divides by zero. */
  datatype Outcome = Sizes(sizes: seq<Size>) | DivisionByZero

  /** round( steps / 2, 0 ), halves away from zero. */
  function MidPoint(steps: int): int {
    if steps >= 0 then (steps + 1) / 2 else -((1 - steps) / 2)
  }

  // ---- The scale, step by step from the middle ----

  function Lower(s: Scale, x: real): real {
    if s.operator.Plus? then x - s.increment
    else if s.increment > 1.0 then x / s.increment
    else x * s.increment
  }

  predicate Divides(s: Scale) {
    s.operator.Plus? || s.increment != 0.0
  }

  function Higher(s: Scale, x: real): real
    requires Divides(s)
  {
    if s.operator.Plus? then x + s.increment
    else if s.increment >= 1.0 then x * s.increment
    else x / s.increment
  }

  function Down(s: Scale, k: nat): real {
    if k == 0 then s.medium else Lower(s, Down(s, k - 1))
  }

  function Up(s: Scale, k: nat): real
    requires Divides(s)
  {
    if k == 0 then s.medium else Higher(s, Up(s, k - 1))
  }

  /** How many steps down there are at most: half the scale, and four slugs. */
  function Room(s: Scale): nat {
    if s.steps <= 1 then 0 else if MidPoint(s.steps) - 1 < 4 then MidPoint(s.steps) - 1 else 4
  }

  function BelowFrom(s: Scale, k: nat): (b: nat)
    requires k <= Room(s)
    ensures k <= b <= Room(s)
    ensures forall i | k < i <= b :: Down(s, i) > 0.0
    ensures b < Room(s) ==> Down(s, b + 1) <= 0.0
    decreases Room(s) - k
  {
    if k == Room(s) || Down(s, k + 1) <= 0.0 then k else BelowFrom(s, k + 1)
  }

  /** The steps down that stay above zero. */
  function Below(s: Scale): nat {
    BelowFrom(s, 0)
  }

  /** What was lost below zero comes back above; what ran out of slugs does not. */
  function Remainder(s: Scale): nat {
    if Below(s) < Room(s) then MidPoint(s.steps) - 1 - Below(s) else 0
  }

  function Above(s: Scale): nat {
    var n := s.steps - MidPoint(s.steps) + Remainder(s);
    if n > 0 then n else 0
  }

  function CountAt(k: nat): Count {
    if k <= 2 then Unset else Number(k - 1)
  }

  function BelowSize(s: Scale, k: nat): Size
    requires k >= 1
  {
    Size(if k == 1 then Small else XSmall(CountAt(k)), 50 - 10 * k, Down(s, k))
  }

  function AboveSize(s: Scale, k: nat): Size
    requires k >= 1 && Divides(s)
  {
    Size(if k == 1 then Large else XLarge(CountAt(k)), 50 + 10 * k, Up(s, k))
  }

  function AllSizes(s: Scale): (r: seq<Size>)
    requires Divides(s) || Above(s) == 0
    ensures |r| == Below(s) + 1 + Above(s)
  {
    seq(Below(s), i requires 0 <= i < Below(s) => BelowSize(s, Below(s) - i))
    + [Size(Medium, 50, s.medium)]
    + if Above(s) == 0 then [] else seq(Above(s), i requires 0 <= i < Above(s) => AboveSize(s, i + 1))
  }

  // ---- The code ----

  method StepDown(s: Scale, current: real) returns (r: real)
    ensures r == Lower(s, current)
  {
    if s.operator.Plus? {
      r := current - s.increment;
    } else if s.increment > 1.0 {
      r := current / s.increment;
    } else {
      r := current * s.increment;
    }
  }

  method StepsDown(s: Scale) returns (below: seq<Size>, remainder: int)
    ensures |below| == Below(s) && remainder == Remainder(s)
    ensures forall i | 0 <= i < |below| :: below[i] == BelowSize(s, i + 1)
  {
    var mid := MidPoint(s.steps);
    var current := s.medium;
    var xSmall := Unset;
    var slug := 40;
    var count := mid - 1;
    ghost var k := 0;
    below, remainder := [], 0;
    while s.steps > 1 && slug > 0 && count > 0
      invariant |below| == k <= Room(s) && slug == 40 - 10 * k && count == mid - 1 - k
      invariant current == Down(s, k) && remainder == 0 && BelowFrom(s, k) == Below(s)
      invariant xSmall == if k <= 1 then Unset else Number(k)
      invariant forall i | 0 <= i < k :: below[i] == BelowSize(s, i + 1)
      decreases count
    {
      current := StepDown(s, current);
      assert current == Down(s, k + 1);
      if current <= 0.0 {
        remainder := count;
        break;
      }
      ghost var was := below;
      below := below + [Size(if count == mid - 1 then Small else XSmall(xSmall), slug, current)];
      assert below[k] == BelowSize(s, k + 1);
      if count == mid - 2 {
        xSmall := Number(2);
      }
      if count < mid - 2 {
        xSmall := Number(xSmall.n + 1);
      }
      slug := slug - 10;
      count := count - 1;
      k := k + 1;
    }
  }

  method StepUp(s: Scale, current: real) returns (ok: bool, r: real)
    ensures ok == Divides(s) && (ok ==> r == Higher(s, current))
  {
    ok, r := true, current;
    if s.operator.Plus? {
      r := current + s.increment;
    } else if s.increment >= 1.0 {
      r := current * s.increment;
    } else if s.increment == 0.0 {
      ok := false;
    } else {
      r := current / s.increment;
    }
  }

  method StepsUp(s: Scale, remainder: int) returns (ok: bool, above: seq<Size>)
    requires remainder == Remainder(s)
    ensures ok <==> Divides(s) || Above(s) == 0
    ensures ok ==> |above| == Above(s) && forall i | 0 <= i < |above| :: above[i] == AboveSize(s, i + 1)
  {
    var current := s.medium;
    var xLarge := Unset;
    above := [];
    var slug := 60;
    var stepsAbove := (s.steps - MidPoint(s.steps)) + remainder;
    var count := 0;
    while count < stepsAbove
      invariant 0 <= count <= Above(s) && |above| == count && slug == 60 + 10 * count
      invariant count > 0 ==> Divides(s)
      invariant Divides(s) ==> current == Up(s, count)
      invariant xLarge == if count <= 1 then Unset else Number(count)
      invariant forall i | 0 <= i < count :: above[i] == AboveSize(s, i + 1)
    {
      ok, current := StepUp(s, current);
      if !ok {
        return false, above;
      }
      assert current == Up(s, count + 1);
      above := above + [Size(if count == 0 then Large else XLarge(xLarge), slug, current)];
      assert above[count] == AboveSize(s, count + 1);
      if count == 1 {
        xLarge := Number(2);
      }
      if count > 1 {
        xLarge := Number(xLarge.n + 1);
      }
      slug := slug + 10;
      count := count + 1;
    }
    ok := true;
  }

  method ComputeSpacingSizes(s: Scale) returns (r: Outcome)
    ensures s.steps == 0 ==> r == Sizes([])
    ensures s.steps != 0 && (Divides(s) || Above(s) == 0) ==> r == Sizes(AllSizes(s))
    ensures s.steps != 0 && !(Divides(s) || Above(s) == 0) ==> r == DivisionByZero
  {
    if s.steps == 0 {
      return Sizes([]);
    }
    var below, remainder := StepsDown(s);
    var sizes := seq(|below|, i requires 0 <= i < |below| => below[|below| - 1 - i]);
    sizes := sizes + [Size(Medium, 50, s.medium)];
    var ok, above := StepsUp(s, remainder);
    if !ok {
      return DivisionByZero;
    }
    assert sizes + above == AllSizes(s);
    return Sizes(sizes + above);
  }

  // ---- What the sizes are like ----

  /** There is a division by zero exactly for a multiplying scale of more than
      one step with increment 0. */
  lemma DividesByZeroExactly(s: Scale)
    ensures !(Divides(s) || Above(s) == 0) <==> s.operator.Times? && s.increment == 0.0 && s.steps >= 2
  {
  }

  /** Some step down within the four slugs is not above zero. */
  predicate Sinks(s: Scale) {
    Below(s) < Room(s)
  }

  lemma SinksExactly(s: Scale)
    ensures Sinks(s) <==> exists k: nat | 1 <= k <= Room(s) :: Down(s, k) <= 0.0
  {
    if Sinks(s) {
      assert Down(s, Below(s) + 1) <= 0.0;
    }
  }

  /** As many sizes as steps: for up to ten steps, and for more only when the
      scale sinks below zero before its slugs run out. */
  lemma CountExactly(s: Scale)
    requires s.steps != 0 && (Divides(s) || Above(s) == 0)
    ensures |AllSizes(s)| == s.steps <==> 1 <= s.steps && (s.steps <= 10 || Sinks(s))
    ensures s.steps > 10 && !Sinks(s) ==> |AllSizes(s)| == s.steps - (MidPoint(s.steps) - 5)
    ensures s.steps < 0 ==> |AllSizes(s)| == 1
  {
  }

  lemma SizeAt(s: Scale, i: nat)
    requires (Divides(s) || Above(s) == 0) && i < |AllSizes(s)|
    ensures AllSizes(s)[i] ==
      if i < Below(s) then BelowSize(s, Below(s) - i) else if i == Below(s) then Size(Medium, 50, s.medium) else AboveSize(s, i - Below(s))
  {
  }

  /** The slugs are consecutive multiples of ten with 50 in the middle, none below 10. */
  lemma SlugsAreConsecutive(s: Scale)
    requires Divides(s) || Above(s) == 0
    ensures forall i | 0 <= i < |AllSizes(s)| :: AllSizes(s)[i].slug == 50 + 10 * (i - Below(s)) && AllSizes(s)[i].slug >= 10
    ensures AllSizes(s)[Below(s)] == Size(Medium, 50, s.medium)
  {
    forall i | 0 <= i < |AllSizes(s)|
      ensures AllSizes(s)[i].slug == 50 + 10 * (i - Below(s)) && AllSizes(s)[i].slug >= 10
    {
      SizeAt(s, i);
    }
    SizeAt(s, Below(s));
  }

  // ---- Order ----

  /** The length at signed distance d from the medium one. */
  function LengthAt(s: Scale, d: int): real
    requires Divides(s)
  {
    if d < 0 then Down(s, -d) else Up(s, d)
  }

  lemma LengthsAt(s: Scale, i: nat)
    requires Divides(s) && i < |AllSizes(s)|
    ensures AllSizes(s)[i].length == LengthAt(s, i - Below(s))
  {
    SizeAt(s, i);
  }

  ghost predicate Ascending(sizes: seq<Size>) {
    forall i | 0 < i < |sizes| :: sizes[i - 1].length < sizes[i].length
  }

  /** The increment makes the sizes grow. */
  predicate Grows(s: Scale) {
    s.increment > 0.0 && (s.operator.Times? ==> s.increment != 1.0)
  }

  lemma Shrinks(x: real, f: real)
    requires x > 0.0 && f > 0.0
    ensures f > 1.0 ==> x / f < x
    ensures f < 1.0 ==> x * f < x && x / f > x
    ensures f >= 1.0 ==> x * f >= x
    ensures f > 1.0 ==> x * f > x
    ensures x * f > 0.0 && x / f > 0.0
  {
    var q := x / f;
    assert q * f == x;
    if f > 1.0 {
      assert q * (f - 1.0) > 0.0 && x * (f - 1.0) > 0.0;
    }
    if f < 1.0 {
      assert q * (1.0 - f) > 0.0 && x * (1.0 - f) > 0.0;
    }
  }

  lemma LowerIsLess(s: Scale, x: real)
    requires Grows(s) && (s.operator.Times? ==> x > 0.0)
    ensures Lower(s, x) < x
  {
    if s.operator.Times? {
      Shrinks(x, s.increment);
    }
  }

  lemma HigherIsMore(s: Scale, x: real)
    requires Divides(s) && Grows(s) && (s.operator.Times? ==> x > 0.0)
    ensures Higher(s, x) > x
  {
    if s.operator.Times? {
      Shrinks(x, s.increment);
    }
  }

  lemma {:induction false} UpStaysAbove(s: Scale, k: nat)
    requires s.operator.Times? && s.medium > 0.0 && Grows(s)
    ensures Up(s, k) > 0.0
  {
    if k > 0 {
      UpStaysAbove(s, k - 1);
      HigherIsMore(s, Up(s, k - 1));
    }
  }

  lemma StepGrows(s: Scale, d: int)
    requires Divides(s) && Grows(s) && (s.operator.Times? ==> s.medium > 0.0)
    requires d < 0 ==> Down(s, -d - 1) > 0.0 || s.operator.Plus?
    ensures LengthAt(s, d) < LengthAt(s, d + 1)
  {
    if d < 0 {
      LowerIsLess(s, Down(s, -d - 1));
    } else {
      if s.operator.Times? {
        UpStaysAbove(s, d);
      }
      HigherIsMore(s, Up(s, d));
    }
  }

  /** With more than one step, the first step up shows that nothing else grows. */
  lemma FirstStepUp(s: Scale)
    requires Divides(s) && !Grows(s) && (s.operator.Times? ==> s.medium > 0.0)
    ensures Up(s, 1) <= Up(s, 0)
  {
    assert Up(s, 1) == Higher(s, Up(s, 0));
    if s.operator.Times? && s.increment < 0.0 {
      var q := s.medium / s.increment;
      assert q * s.increment == s.medium;
      assert q <= 0.0 || q * s.increment < 0.0;
    }
  }

  lemma SignOf(x: real, f: real)
    requires f != 0.0
    ensures x == 0.0 ==> x / f == 0.0 && x * f == 0.0
    ensures x < 0.0 && f < 0.0 ==> x / f > 0.0 && x * f > 0.0
    ensures x < 0.0 && f > 0.0 ==> x / f < 0.0 && x * f < 0.0
  {
    var q := x / f;
    assert q * f == x;
    if x < 0.0 && f < 0.0 {
      ProductIsPositive(-x, -f);
      assert (-x) * (-f) == x * f;
      if q < 0.0 {
        ProductIsPositive(-q, -f);
        assert false;
      }
    } else if x < 0.0 {
      ProductIsPositive(-x, f);
      assert (-x) * f == -(x * f);
      if q > 0.0 {
        ProductIsPositive(q, f);
      }
    }
  }

  lemma ProductIsPositive(x: real, y: real)
    requires x > 0.0 && y > 0.0
    ensures x * y > 0.0
  {
  }

  lemma NegativeSteps(x: real, f: real)
    requires x < 0.0 && f > 0.0
    ensures f >= 1.0 ==> x * f <= x
    ensures f < 1.0 ==> x / f <= x
  {
    Shrinks(-x, f);
    var q := x / f;
    assert (-x) * f == -(x * f);
    assert q * f == x && (-x) / f == -q by {
      assert (-q) * f == -x;
    }
  }

  /** Multiplying from a medium size that is not above zero. */
  lemma FirstStepFromBelow(s: Scale)
    requires s.operator.Times? && s.increment != 0.0 && s.medium <= 0.0
    ensures Up(s, 1) > Up(s, 0) <==> s.medium < 0.0 && s.increment < 0.0
    ensures s.medium < 0.0 && s.increment < 0.0 ==> Down(s, 1) > 0.0
  {
    assert Up(s, 1) == Higher(s, Up(s, 0)) && Down(s, 1) == Lower(s, Down(s, 0));
    SignOf(s.medium, s.increment);
    if s.medium < 0.0 && s.increment > 0.0 {
      NegativeSteps(s.medium, s.increment);
    }
  }

  /** What makes more than one size ascend. A multiplying scale with a medium
      size that is not above zero cannot, but for two sizes on both sides of it. */
  predicate Climbs(s: Scale) {
    if s.operator.Times? && s.medium <= 0.0 then s.steps == 2 && s.medium < 0.0 && s.increment < 0.0 else Grows(s)
  }

  /** The sizes ascend exactly when the increment makes them grow, or there is
      only one. */
  lemma AscendingExactly(s: Scale)
    requires Divides(s) || Above(s) == 0
    ensures Ascending(AllSizes(s)) <==> s.steps <= 1 || Climbs(s)
  {
    if s.steps <= 1 {
      assert |AllSizes(s)| == 1;
    } else if s.operator.Times? && s.medium <= 0.0 {
      AscendsFromBelow(s);
    } else {
      AscendsFromAbove(s);
    }
  }

  lemma AscendsFromBelow(s: Scale)
    requires Divides(s) && s.steps >= 2 && s.operator.Times? && s.medium <= 0.0
    ensures Ascending(AllSizes(s)) <==> Climbs(s)
  {
    var sizes, b := AllSizes(s), Below(s);
    FirstStepFromBelow(s);
    LengthsAt(s, b);
    LengthsAt(s, b + 1);
    assert sizes[b + 1 - 1].length < sizes[b + 1].length <==> s.medium < 0.0 && s.increment < 0.0;
    if s.medium < 0.0 && s.increment < 0.0 && s.steps > 2 {
      assert b > 0;
      LengthsAt(s, b - 1);
      assert !(sizes[b - 1].length < sizes[b].length);
    } else if s.steps == 2 {
      assert |sizes| == 2;
    }
  }

  lemma AscendsFromAbove(s: Scale)
    requires Divides(s) && s.steps >= 2 && (s.operator.Times? ==> s.medium > 0.0)
    ensures Ascending(AllSizes(s)) <==> Grows(s)
  {
    var sizes, b := AllSizes(s), Below(s);
    if Grows(s) {
      forall i | 0 < i < |sizes|
        ensures sizes[i - 1].length < sizes[i].length
      {
        LengthsAt(s, i - 1);
        LengthsAt(s, i);
        StepGrows(s, i - 1 - b);
      }
    } else {
      LengthsAt(s, b);
      LengthsAt(s, b + 1);
      FirstStepUp(s);
      assert !(sizes[b + 1 - 1].length < sizes[b + 1].length);
    }
  }
}

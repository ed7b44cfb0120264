/** Grades, offers and negotiation (app/tools/valuation_tools.py), with exact percentages. */
module Valuation {
  import opened Arith
  import opened Options

  // ---- Negotiation ----------------------------------------------------------------------------------

  datatype Decision = Accept(amount: int) | Reject(ceiling: int) | Counter(amount: int)

  /** `int(max * 1.15)`: truncation towards zero. */
  function RejectCeiling(max: int): int {
    if max >= 0 then max * 115 / 100 else -((-max) * 115 / 100)
  }

  function ProcessNegotiation(offer: int, ask: int, max: int): Decision {
    if ask <= 0 then Accept(offer)
    else if ask <= offer then Accept(offer)
    else if 100 * ask <= 105 * offer then Accept(ask)
    else if ask > RejectCeiling(max) then Reject(RejectCeiling(max))
    else Counter(Min((offer + ask) / 2, max))
  }

  /** Where feeding every counter back as the next offer ends. */
  datatype Outcome = Deal(amount: int) | NoDeal | Stuck(offer: int)

  /** The haggling loop; it stops when a counter no longer improves the offer. */
  function Haggle(offer: int, ask: int, max: int): Outcome
    requires offer <= max
    decreases max - offer
  {
    match ProcessNegotiation(offer, ask, max)
    case Accept(amount) => Deal(amount)
    case Reject(_) => NoDeal
    case Counter(next) => if next <= offer then Stuck(offer) else Haggle(next, ask, max)
  }

  /** A counter never lowers the offer or takes it above the maximum; it stalls only at the maximum or one below the ask. */
  lemma CounterMoves(offer: int, ask: int, max: int)
    requires 0 <= offer <= max && ProcessNegotiation(offer, ask, max).Counter?
    ensures var next := ProcessNegotiation(offer, ask, max).amount;
            && offer <= next <= max && next < ask
            && (next == offer <==> offer == max || ask == offer + 1)
            && (next > offer ==> ask - next < ask - offer)
  {
  }

  /**
   Each answer to an ask: accepted at the offer when it is no higher, at the ask when within 5% of the
   offer, rejected when more than 15% above the maximum; else countered at the midpoint, rounded down,
   or at the maximum.
   */
  lemma AnswerExactly(offer: int, ask: int, max: int)
    requires max >= 0
    ensures var d := ProcessNegotiation(offer, ask, max);
            && (d == Accept(offer) <==> ask <= 0 || ask <= offer)
            && (d == Accept(ask) && ask != offer <==> ask > 0 && ask > offer && 100 * ask <= 105 * offer)
            && (d.Reject? <==> ask > 0 && ask > offer && 100 * ask > 105 * offer && 100 * ask > 115 * max)
            && (d.Reject? ==> 100 * d.ceiling <= 115 * max < 100 * (d.ceiling + 1))
            && (d.Counter? ==> d.amount <= max && 2 * d.amount <= offer + ask
                               && (d.amount == max || offer + ask <= 2 * d.amount + 1))
  {
  }

  /** From an offer of at least 20 the gap shrinks until the offer is the maximum. */
  lemma GapShrinks(offer: int, ask: int, max: int)
    requires 20 <= offer < max && ProcessNegotiation(offer, ask, max).Counter?
    ensures var next := ProcessNegotiation(offer, ask, max).amount; ask - next < ask - offer
  {
    assert 100 * ask > 105 * offer;
    CounterMoves(offer, ask, max);
  }

  /**
   For every start with 0 <= offer <= max: the loop accepts at once an ask within the offer, rejects
   exactly above the ceiling, closes at the ask exactly when the ask is within 5% of the maximum and
   at least 21, and otherwise stalls at the maximum or one below a smaller ask.
   */
  lemma {:induction false} HaggleExactly(offer: int, ask: int, max: int)
    requires 0 <= offer <= max
    ensures Haggle(offer, ask, max) ==
            if ask <= offer then Deal(offer)
            else if ask > RejectCeiling(max) then NoDeal
            else if 100 * ask <= 105 * max && ask >= 21 then Deal(ask)
            else Stuck(Min(max, ask - 1))
    decreases max - offer
  {
    match ProcessNegotiation(offer, ask, max)
    case Accept(amount) =>
    case Reject(_) =>
    case Counter(next) =>
      CounterMoves(offer, ask, max);
      if next > offer {
        HaggleExactly(next, ask, max);
      }
  }

  /** For offers of at least 20: a deal within 5% of the maximum, no deal above the ceiling, else the maximum. */
  lemma HaggleConverges(offer: int, ask: int, max: int)
    requires 20 <= offer <= max
    ensures var r := Haggle(offer, ask, max);
            && (r.Deal? <==> 100 * ask <= 105 * max)
            && (r.NoDeal? <==> 100 * ask > 115 * max)
            && (r.Stuck? ==> r.offer == max)
            && (r.Deal? ==> 100 * r.amount <= 105 * max)
  {
    HaggleExactly(offer, ask, max);
  }

  /** Below 20 a one-unit gap never closes, however close the ask is. */
  lemma SmallOffersStall(offer: int, max: int)
    requires 0 < offer < max
    ensures Haggle(offer, offer + 1, max) == Stuck(offer) <==> offer < 20
  {
    HaggleExactly(offer, offer + 1, max);
  }

  // ---- Grades ---------------------------------------------------------------------------------------

  /** Positions in GRADE_ORDER: Excellent, Good, Fair, Poor. */
  type Grade = g: int | 0 <= g <= 3

  const FAIR: Grade := 2
  const POOR: Grade := 3

  /** `_downgrade`: saturates at Poor. */
  function Downgrade(grade: Grade, steps: nat): Grade {
    Min(grade + steps, 3)
  }

  /**
   A questionnaire after parsing: the three facts that force Poor, a battery reading if it is an
   integer from 0 to 100, and the flags of the four other defects in the order they are asked.
   */
  datatype Answers = Answers(forcing: seq<bool>, battery: Option<int>, defects: seq<bool>)

  function BatterySteps(battery: Option<int>): nat {
    match battery
    case None => 0
    case Some(pct) => if pct < 60 then 2 else if pct < 80 then 1 else 0
  }

  function CountTrue(flags: seq<bool>): nat {
    if flags == [] then 0 else CountTrue(flags[..|flags| - 1]) + if flags[|flags| - 1] then 1 else 0
  }

  /** The grade a questionnaire leads to. */
  function FinalGrade(vision: Grade, a: Answers): Grade {
    if true in a.forcing then POOR
    else Min(3, vision + BatterySteps(a.battery) + CountTrue(a.defects))
  }

  /** The loop over the facts that force Poor. */
  method AnyForcing(flags: seq<bool>) returns (forced: bool)
    ensures forced == (true in flags)
  {
    for i := 0 to |flags|
      invariant true !in flags[..i]
    {
      if flags[i] {
        return true;
      }
    }
    return false;
  }

  /** The loop over the other defects: one step down for each, and the number of adjustments. */
  method DowngradeForDefects(start: Grade, flags: seq<bool>) returns (grade: Grade, count: nat)
    ensures count == CountTrue(flags) && grade == Min(3, start + count)
  {
    grade, count := start, 0;
    for i := 0 to |flags|
      invariant count == CountTrue(flags[..i]) && grade == Min(3, start + count)
    {
      assert flags[..i + 1][..i] == flags[..i];
      if flags[i] {
        grade := Downgrade(grade, 1);
        count := count + 1;
      }
    }
    assert flags[..|flags|] == flags;
  }

  /** `adjust_grade_from_questionnaire`, with the number of adjustments it reports. */
  method AdjustGrade(vision: Option<Grade>, a: Answers) returns (grade: Grade, adjustments: nat)
    ensures grade == FinalGrade(if vision.Some? then vision.value else 2, a)
    ensures adjustments == if true in a.forcing then 1
                           else CountTrue(a.defects) + if BatterySteps(a.battery) > 0 then 1 else 0
  {
    var forced := AnyForcing(a.forcing);
    if forced {
      return POOR, 1;
    }
    grade := if vision.Some? then vision.value else FAIR;
    adjustments := 0;
    if a.battery.Some? {
      if a.battery.value < 60 {
        grade := Downgrade(grade, 2);
        adjustments := 1;
      } else if a.battery.value < 80 {
        grade := Downgrade(grade, 1);
        adjustments := 1;
      }
    }
    var count: nat;
    grade, count := DowngradeForDefects(grade, a.defects);
    adjustments := adjustments + count;
  }

  /**
   The final grade: Poor when a forcing fact holds; else the start, two steps down for a battery below
   60 percent or one below 80, one for every defect, and never below Poor.
   */
  lemma GradeExactly(vision: Grade, a: Answers)
    ensures var g, n := FinalGrade(vision, a), multiset(a.defects)[true];
            var steps := if a.battery.None? || a.battery.value >= 80 then n else if a.battery.value >= 60 then n + 1 else n + 2;
            && ((exists i :: 0 <= i < |a.forcing| && a.forcing[i]) ==> g == 3)
            && ((forall i :: 0 <= i < |a.forcing| ==> !a.forcing[i]) ==> g == if vision + steps <= 3 then vision + steps else 3)
  {
    CountTrueMultiset(a.defects);
  }

  lemma {:induction false} CountTrueMultiset(flags: seq<bool>)
    ensures CountTrue(flags) == multiset(flags)[true]
  {
    if flags != [] {
      CountTrueMultiset(flags[..|flags| - 1]);
      assert flags == flags[..|flags| - 1] + [flags[|flags| - 1]];
    }
  }

  /** The order of the flags does not matter. */
  lemma OrderIndependent(vision: Grade, a: Answers, b: Answers)
    requires multiset(a.forcing) == multiset(b.forcing) && multiset(a.defects) == multiset(b.defects)
    requires a.battery == b.battery
    ensures FinalGrade(vision, a) == FinalGrade(vision, b)
  {
    CountTrueMultiset(a.defects);
    CountTrueMultiset(b.defects);
    assert (true in a.forcing) == (true in multiset(a.forcing)) == (true in multiset(b.forcing)) == (true in b.forcing);
  }

  /** `b` reports every defect `a` reports, and no better a battery reading. */
  predicate Worse(a: Answers, b: Answers) {
    && |a.forcing| == |b.forcing| && |a.defects| == |b.defects|
    && (forall i :: 0 <= i < |a.forcing| && a.forcing[i] ==> b.forcing[i])
    && (forall i :: 0 <= i < |a.defects| && a.defects[i] ==> b.defects[i])
    && (a.battery.Some? ==> b.battery.Some? && b.battery.value <= a.battery.value)
  }

  lemma {:induction false} CountTrueMonotone(a: seq<bool>, b: seq<bool>)
    requires |a| == |b| && forall i :: 0 <= i < |a| && a[i] ==> b[i]
    ensures CountTrue(a) <= CountTrue(b)
  {
    if a != [] {
      var n := |a| - 1;
      forall i | 0 <= i < n && a[..n][i]
        ensures b[..n][i]
      {
        assert a[i];
      }
      CountTrueMonotone(a[..n], b[..n]);
    }
  }

  /** More defects or a lower battery reading never raise the grade. */
  lemma GradeMonotone(vision: Grade, a: Answers, b: Answers)
    requires Worse(a, b)
    ensures FinalGrade(vision, a) <= FinalGrade(vision, b)
  {
    CountTrueMonotone(a.defects, b.defects);
    if true in a.forcing {
      var i :| 0 <= i < |a.forcing| && a.forcing[i];
      assert b.forcing[i];
    }
  }

  // ---- Offers ---------------------------------------------------------------------------------------

  /** A price row by grade; a grade without a price is worth 0. */
  type PriceRow = map<Grade, int>

  function Priced(row: PriceRow, g: Grade): int {
    if g in row then row[g] else 0
  }

  /** Trade-in multipliers in percent. */
  function Multiplier(g: Grade): nat {
    if g == 0 then 68 else if g == 1 then 58 else if g == 2 then 45 else 29
  }

  /** `round(x / 100)`: to the nearest integer, halves to even. */
  function RoundPercent(x: nat): nat {
    var q, r := x / 100, x % 100;
    if r < 50 then q else if r > 50 then q + 1 else if q % 2 == 0 then q else q + 1
  }

  /** `calculate_trade_in_value`: the price table first, else a share of a positive retail price; None is its error. */
  function TradeInValue(row: Option<PriceRow>, retail: Option<int>, g: Grade): Option<int> {
    match row
    case Some(prices) => Some(Priced(prices, g))
    case None =>
      if retail.Some? && retail.value > 0 then Some(RoundPercent(retail.value * Multiplier(g))) else None
  }

  /**
   The offer: the price of the grade, 0 if the row has none; without a row 68, 58, 45 or 29 percent of a
   positive retail price, to the nearest unit and halves to an even one; otherwise an error.
   */
  lemma OfferExactly(row: Option<PriceRow>, retail: Option<int>, g: Grade)
    ensures var offer, percent: int := TradeInValue(row, retail, g), [68, 58, 45, 29][g];
            && (offer.None? <==> row.None? && (retail.None? || retail.value <= 0))
            && (row.Some? && g in row.value ==> offer == Some(row.value[g]))
            && (row.Some? && g !in row.value ==> offer == Some(0))
            && (row.None? && offer.Some? ==>
                  var rest := percent * retail.value - 100 * offer.value;
                  -50 <= rest <= 50 && (rest == 50 || rest == -50 ==> offer.value % 2 == 0))
  {
    if row.None? && retail.Some? && retail.value > 0 {
      RoundExactly(retail.value * Multiplier(g));
    }
  }

  lemma RoundExactly(x: nat)
    ensures var rest := x - 100 * RoundPercent(x);
            -50 <= rest <= 50 && (rest == 50 || rest == -50 ==> RoundPercent(x) % 2 == 0)
  {
  }

  lemma RoundNearest(x: nat)
    ensures -50 <= 100 * RoundPercent(x) - x <= 50
  {
  }

  lemma RoundMonotone(x: nat, y: nat)
    requires x <= y
    ensures RoundPercent(x) <= RoundPercent(y)
  {
    assert x / 100 <= y / 100;
  }

  predicate NonIncreasing(row: PriceRow) {
    forall g: Grade, h: Grade :: g <= h ==> Priced(row, h) <= Priced(row, g)
  }

  lemma OfferFallsWithGrade(row: Option<PriceRow>, retail: Option<int>, g: Grade, h: Grade)
    requires g <= h && (row.Some? ==> NonIncreasing(row.value))
    ensures TradeInValue(row, retail, g).Some? <==> TradeInValue(row, retail, h).Some?
    ensures TradeInValue(row, retail, g).Some? ==>
              TradeInValue(row, retail, h).value <= TradeInValue(row, retail, g).value
  {
    if row.None? && retail.Some? && retail.value > 0 {
      MulMonotone(Multiplier(h), Multiplier(g), retail.value);
      RoundMonotone(retail.value * Multiplier(h), retail.value * Multiplier(g));
    }
  }

  /**
   A worse questionnaire never raises the offer, when the price row does not increase as the grade
   worsens or the percentage of the retail price is used.
   */
  lemma OfferMonotone(vision: Grade, a: Answers, b: Answers, row: Option<PriceRow>, retail: Option<int>)
    requires Worse(a, b) && (row.Some? ==> NonIncreasing(row.value))
    requires TradeInValue(row, retail, FinalGrade(vision, a)).Some?
    ensures var better, worse := TradeInValue(row, retail, FinalGrade(vision, a)), TradeInValue(row, retail, FinalGrade(vision, b));
            worse.Some? && worse.value <= better.value
  {
    GradeMonotone(vision, a, b);
    OfferFallsWithGrade(row, retail, FinalGrade(vision, a), FinalGrade(vision, b));
  }
}

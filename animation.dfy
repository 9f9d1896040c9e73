/** The animated reveal in the result popup: `animate_price(current, target)`
    shows `min(current + target // 20, target)` and schedules itself again
    with that value until `current` reaches `target`. */
module Animation {
  import opened Wrappers
  import opened Text
  import opened Decimal
  import opened IndianCurrency

  function Min(a: int, b: int): int
  {
    if a <= b then a else b
  }

  /** The increment as written: `target // 20` (the target is never negative,
      so floor division is Dafny's `/`). */
  function Increment(target: nat): (step: nat)
    ensures 20 * step <= target < 20 * (step + 1)
  {
    target / 20
  }

  /** The increment with a floor of one, so that every call makes progress. */
  function FixedIncrement(target: nat): (step: nat)
    ensures step >= 1
    ensures target >= 20 ==> step == Increment(target)
  {
    if target / 20 == 0 then 1 else target / 20
  }

  /** One call with a given increment: `None` when the guard `current < target`
      fails and nothing is shown or scheduled, otherwise the value shown next. */
  function Frame(current: int, target: nat, step: nat): (next: Option<int>)
    ensures next.Some? <==> current < target
    ensures next.Some? ==> current <= next.value <= target
    ensures next.Some? ==> next.value == target || next.value == current + step
  {
    if current < target then Some(Min(current + step, target)) else None
  }

  /** One call of `animate_price` as written. */
  function NextFrame(current: int, target: nat): (next: Option<int>)
    ensures next.Some? <==> current < target
    ensures next.Some? ==> current <= next.value <= target
    ensures next.Some? && target < 20 ==> next.value == current
  {
    Frame(current, target, Increment(target))
  }

  /** The value on the label after `k` scheduled calls starting from `current`. */
  function Run(current: int, target: nat, step: nat, k: nat): (shown: int)
    ensures current <= target ==> current <= shown <= target
    ensures current >= target ==> shown == current
    decreases k
  {
    if k == 0 then current
    else match Frame(current, target, step)
      case None => current
      case Some(next) => Run(next, target, step, k - 1)
  }

  /** After `k` calls the label shows `min(current + k * step, target)`. */
  lemma {:induction false} RunValue(current: int, target: nat, step: nat, k: nat)
    requires current <= target
    ensures Run(current, target, step, k) == Min(current + k * step, target)
    decreases k
  {
    if k > 0 && current < target {
      var next := Min(current + step, target);
      RunValue(next, target, step, k - 1);
      assert current + step + (k - 1) * step == current + k * step;
    }
  }

  /** With a target of at least 20 the reveal reaches the target within 40
      calls (the increment is at least a fortieth of it) and then stops. */
  lemma RevealCompletes(target: nat)
    requires target >= 20
    ensures Run(0, target, Increment(target), 40) == target
    ensures NextFrame(target, target).None?
  {
    var q := target / 20;
    assert target == 20 * q + target % 20 && q >= 1;
    assert 40 * q >= target;
    RunValue(0, target, q, 40);
  }

  /** A target between 1 and 19 has increment 0: the label stays at 0 and the
      guard `current < target` holds on every call, so the callback is
      rescheduled without progress for as long as the popup
      stays open. */
  lemma StallsBelowTwenty(target: nat, k: nat)
    requires 0 < target < 20
    ensures Run(0, target, Increment(target), k) == 0
    ensures NextFrame(Run(0, target, Increment(target), k), target) == Some(0)
  {
    RunValue(0, target, Increment(target), k);
  }

  /** With the corrected increment every target, small ones included, is
      reached within 40 calls; from 20 on it behaves exactly as written. */
  lemma FixedRevealCompletes(target: nat)
    ensures Run(0, target, FixedIncrement(target), 40) == target
    ensures target >= 20 ==> Run(0, target, FixedIncrement(target), 40) == Run(0, target, Increment(target), 40)
  {
    var q := FixedIncrement(target);
    if target < 20 {
      assert q == 1;
    } else {
      assert target == 20 * q + target % 20;
    }
    assert 40 * q >= target;
    RunValue(0, target, q, 40);
  }

  /** The popup's round trip: its target is `int` of the shown price with the
      commas removed, which parses, and the last frame of the reveal shows the
      same text as the price itself whenever the reveal completes. */
  lemma RevealShowsPrice(amount: int)
    requires Abs(amount) >= 20
    ensures var t := ParseInt(WithoutCommas(FormatIndianCurrency(amount)));
            t.Some? && FormatIndianCurrency(Run(0, t.value, Increment(t.value), 40)) == FormatIndianCurrency(amount)
  {
    StripCommasRoundTrip(amount);
    RevealCompletes(Abs(amount));
  }

  /** With the corrected increment the round trip holds for every amount. */
  lemma FixedRevealShowsPrice(amount: int)
    ensures var t := ParseInt(WithoutCommas(FormatIndianCurrency(amount)));
            t.Some? && FormatIndianCurrency(Run(0, t.value, FixedIncrement(t.value), 40)) == FormatIndianCurrency(amount)
  {
    StripCommasRoundTrip(amount);
    FixedRevealCompletes(Abs(amount));
  }
}

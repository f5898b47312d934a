/**
 * Index arithmetic shared by the gallery's previous/next navigation and the
 * text switcher. JavaScript's `%` truncates toward zero, Dafny's is Euclidean;
 * both are written out here so that the difference is explicit.
 */
module CyclicIndex {

  /** JavaScript's `a % n` for a positive divisor: the remainder takes the sign of `a`. */
  function JsRemainder(a: int, n: int): (r: int)
    requires n > 0
    ensures -n < r < n
    ensures 0 <= a ==> 0 <= r && r == a % n
    ensures a < 0 ==> r <= 0 && -r == (-a) % n
  {
    if a >= 0 then a % n else -((-a) % n)
  }

  /**
   * The index `navigateDesignImage(direction)` moves to in a collection of
   * `length` images: nothing moves when there is at most one image, otherwise
   * `(index + direction + length) % length` with JavaScript's remainder.
   */
  function NavigateIndex(index: int, direction: int, length: nat): (r: int)
    ensures length <= 1 ==> r == index
    ensures 1 < length && 0 <= index + direction + length ==> 0 <= r < length
  {
    if length <= 1 then index else JsRemainder(index + direction + length, length)
  }

  /** For a positive divisor and a dividend below twice the divisor, `%` subtracts at most once. */
  lemma ModBelowTwice(x: int, n: int)
    requires 0 < n && 0 <= x <= 2 * n
    ensures x % n == if x < n then x else if x < 2 * n then x - n else 0
  {
    if x < n {
    } else if x < 2 * n {
      assert x == 1 * n + (x - n);
    } else {
      assert x == 2 * n + 0;
    }
  }

  /** One step forward: the next index, and the first after the last. */
  lemma StepForward(index: int, length: nat)
    requires 1 < length && 0 <= index < length
    ensures NavigateIndex(index, 1, length) == if index == length - 1 then 0 else index + 1
  {
    ModBelowTwice(index + 1 + length, length);
  }

  /** One step back: the previous index, and the last before the first. */
  lemma StepBackward(index: int, length: nat)
    requires 1 < length && 0 <= index < length
    ensures NavigateIndex(index, -1, length) == if index == 0 then length - 1 else index - 1
  {
    ModBelowTwice(index - 1 + length, length);
  }

  /** A step back undoes a step forward, and a step forward undoes a step back. */
  lemma StepsUndoEachOther(index: int, length: nat)
    requires 0 <= index < length
    ensures NavigateIndex(NavigateIndex(index, 1, length), -1, length) == index
    ensures NavigateIndex(NavigateIndex(index, -1, length), 1, length) == index
  {
    if 1 < length {
      StepForward(index, length);
      StepBackward(index, length);
      var f, b := NavigateIndex(index, 1, length), NavigateIndex(index, -1, length);
      StepBackward(f, length);
      StepForward(b, length);
    }
  }

  /** The index after `steps` forward steps from `index`. */
  function Forward(index: int, length: nat, steps: nat): int
    decreases steps
  {
    if steps == 0 then index else NavigateIndex(Forward(index, length, steps - 1), 1, length)
  }

  /** Up to a full turn, forward steps count up and wrap once past the last index. */
  lemma {:induction false} ForwardSteps(index: int, length: nat, steps: nat)
    requires 1 < length && 0 <= index < length && steps <= length
    ensures Forward(index, length, steps) == if index + steps < length then index + steps else index + steps - length
    decreases steps
  {
    if steps > 0 {
      ForwardSteps(index, length, steps - 1);
      StepForward(Forward(index, length, steps - 1), length);
    }
  }

  /** `length` forward steps visit every image once and come back to where they started. */
  lemma FullTurn(index: int, length: nat)
    requires 0 <= index < length
    ensures Forward(index, length, length) == index
  {
    if length == 1 {
      assert Forward(index, 1, 0) == index;
    } else {
      ForwardSteps(index, length, length);
    }
  }

  /**
   * Outside the precondition the JavaScript expression leaves the range:
   * `switchPoster(-5)` on the first of two images computes `(0 - 5 + 2) % 2`, which is -1.
   */
  lemma NegativeDividendLeavesRange()
    ensures NavigateIndex(0, -5, 2) == -1
  {
    assert (3 % 2) == 1 by { assert 3 == 1 * 2 + 1; }
  }

  /** The text switcher's `(currentIndex + 1) % options.length`. */
  function NextOption(index: nat, count: nat): (r: nat)
    requires index < count
    ensures r < count
    ensures r == if index == count - 1 then 0 else index + 1
  {
    (index + 1) % count
  }

  /** The switcher's step is the gallery's forward step, also for a single option. */
  lemma NextOptionIsForwardStep(index: nat, count: nat)
    requires index < count
    ensures NextOption(index, count) == NavigateIndex(index, 1, count)
  {
    if 1 < count {
      StepForward(index, count);
    }
  }
}

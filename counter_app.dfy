/**
 * The counter page of alx-project-0x06: the context-based counter container
 * (CountProvider), the guarded context accessor (useCount) and the message
 * the page derives from a count.
 */
module CounterApp {
  import opened Wrappers

  // ---------------------------------------------------------------------------
  // State updaters: the two functions CountProvider hands to setCount
  // ---------------------------------------------------------------------------

  /** The updater behind `increment`: one more. */
  function Incremented(count: int): (r: int)
    ensures r - 1 == count && r > count
  {
    count + 1
  }

  /**
   * The updater behind `decrement`: one fewer, but never below zero.
   * Hitting the floor is silent: the result is simply 0, not an error.
   */
  function Decremented(count: int): (r: int)
    ensures r >= 0
    ensures count >= 1 ==> r + 1 == count
    ensures count <= 0 ==> r == 0
  {
    if count > 0 then count - 1 else 0
  }

  // ---------------------------------------------------------------------------
  // The provider's state cell
  // ---------------------------------------------------------------------------

  /**
   * CountProvider's `useState<number>` cell. Each call of the context's
   * `increment` or `decrement` replaces the cell's value by the matching
   * updater applied to the current value.
   */
  class CountProvider {
    var count: int

    /** The cell never holds a negative count. */
    ghost predicate Valid()
      reads this
    {
      count >= 0
    }

    /** A freshly mounted provider starts with no clicks. */
    constructor ()
      ensures Valid() && count == 0
    {
      count := 0;
    }

    /** `increment`: the count goes up by exactly one. */
    method Increment()
      modifies this
      ensures count == old(count) + 1
      ensures old(Valid()) ==> Valid()
    {
      count := Incremented(count);
    }

    /** `decrement`: the count goes down by one, clamped at zero. */
    method Decrement()
      modifies this
      ensures old(count) > 0 ==> count == old(count) - 1
      ensures old(count) <= 0 ==> count == 0
      ensures Valid()
    {
      count := Decremented(count);
    }

    /** One call of `increment` or `decrement` moves the cell by one `Step`. */
    method Press(action: Action)
      modifies this
      ensures count == Step(old(count), action)
      ensures old(Valid()) ==> Valid()
    {
      match action
      case IncrementPress => Increment();
      case DecrementPress => Decrement();
    }
  }

  // ---------------------------------------------------------------------------
  // useCount: the context accessor
  // ---------------------------------------------------------------------------

  /** The error useCount raises outside a provider. */
  const OutsideProviderMessage: string := "useCount must be within a Count Provider"

  /**
   * `useCount`: the context of the nearest provider, or an error when the
   * component is rendered outside every CountProvider.
   */
  function UseCount(context: Option<CountProvider>): (r: Result<CountProvider, string>)
    ensures r.Failure? <==> context.None?
    ensures r.Failure? ==> r.error == OutsideProviderMessage
    ensures r.Success? ==> context == Some(r.value)
  {
    match context
    case None => Failure(OutsideProviderMessage)
    case Some(provider) => Success(provider)
  }

  // ---------------------------------------------------------------------------
  // The message shown next to the count
  // ---------------------------------------------------------------------------

  const NoClicksYet: string := "🙈 No clicks yet!"
  const OnFire: string := "🔥 You're on fire!"

  /** The count is a non-zero multiple of ten (stated without `%`). */
  ghost predicate IsOnFire(count: int)
  {
    exists k: int :: k != 0 && count == 10 * k
  }

  /**
   * The funny message: one text at zero, another at every other multiple of
   * ten, and nothing otherwise. The three outcomes are pairwise distinct, so
   * each iff below also says that the cases exclude one another.
   */
  function MessageFor(count: int): (m: string)
    ensures m == NoClicksYet <==> count == 0
    ensures m == OnFire <==> count != 0 && count % 10 == 0
    ensures m == "" <==> count != 0 && count % 10 != 0
  {
    if count == 0 then NoClicksYet
    else if count % 10 == 0 && count != 0 then OnFire
    else ""
  }

  /** The page shows the "on fire" text exactly at the non-zero multiples of ten. */
  lemma MessageOnFireIff(count: int)
    ensures MessageFor(count) == OnFire <==> IsOnFire(count)
  {
    if IsOnFire(count) {
      var k: int :| k != 0 && count == 10 * k;
      assert count % 10 == 0;
    }
    if count != 0 && count % 10 == 0 {
      assert count == 10 * (count / 10);
    }
  }

  // ---------------------------------------------------------------------------
  // Histories of calls to the provider's increment and decrement
  // ---------------------------------------------------------------------------

  /** One call of the provider's `increment` or `decrement`. */
  datatype Action = IncrementPress | DecrementPress

  /** The value the cell holds after one call. */
  function Step(count: int, action: Action): (r: int)
  {
    match action
    case IncrementPress => Incremented(count)
    case DecrementPress => Decremented(count)
  }

  /** The value the cell holds after the calls in `actions`, in order. */
  function Run(count: int, actions: seq<Action>): (r: int)
    decreases |actions|
  {
    if actions == [] then count else Run(Step(count, actions[0]), actions[1..])
  }

  /** `n` calls of the same operation. */
  function Repeat(action: Action, n: nat): (r: seq<Action>)
    ensures |r| == n
    ensures forall i :: 0 <= i < n ==> r[i] == action
  {
    if n == 0 then [] else [action] + Repeat(action, n - 1)
  }

  /** How many of the calls in `actions` are `action`. */
  function Occurrences(actions: seq<Action>, action: Action): (r: nat)
    ensures r <= |actions|
  {
    if actions == [] then 0
    else (if actions[0] == action then 1 else 0) + Occurrences(actions[1..], action)
  }

  /** Making the calls of `a` and then those of `b` is running `a + b`. */
  lemma {:induction false} RunAppend(count: int, a: seq<Action>, b: seq<Action>)
    ensures Run(count, a + b) == Run(Run(count, a), b)
    decreases |a|
  {
    if a == [] {
      assert a + b == b;
    } else {
      assert (a + b)[1..] == a[1..] + b;
      RunAppend(Step(count, a[0]), a[1..], b);
    }
  }

  /** From a non-negative count, no history of calls makes it negative. */
  lemma {:induction false} RunNonNegative(count: int, actions: seq<Action>)
    requires count >= 0
    ensures Run(count, actions) >= 0
    decreases |actions|
  {
    if actions != [] {
      RunNonNegative(Step(count, actions[0]), actions[1..]);
    }
  }

  /** Every count a provider reaches from its initial 0 is non-negative. */
  lemma ReachableNonNegative(actions: seq<Action>)
    ensures Run(0, actions) >= 0
  {
    RunNonNegative(0, actions);
  }

  /** `n` increments from `count` give exactly `count + n`. */
  lemma {:induction false} IncrementsAdd(count: int, n: nat)
    ensures Run(count, Repeat(IncrementPress, n)) == count + n
    decreases n
  {
    if n > 0 {
      assert Repeat(IncrementPress, n)[1..] == Repeat(IncrementPress, n - 1);
      IncrementsAdd(count + 1, n - 1);
    }
  }

  /**
   * At least `count` decrements from `count` reach the floor and stay there;
   * with `count == 0` this says that any number of decrements at zero leave zero.
   */
  lemma {:induction false} DecrementsReachFloor(count: int, n: nat)
    requires 0 <= count <= n
    ensures Run(count, Repeat(DecrementPress, n)) == 0
    decreases n
  {
    if n > 0 {
      assert Repeat(DecrementPress, n)[1..] == Repeat(DecrementPress, n - 1);
      DecrementsReachFloor(Decremented(count), n - 1);
    }
  }

  /**
   * An increment immediately undone by a decrement changes nothing, wherever
   * it happens in a history that starts from a non-negative count.
   */
  lemma IncrementThenDecrement(count: int, before: seq<Action>, after: seq<Action>)
    requires count >= 0
    ensures Run(count, before + [IncrementPress, DecrementPress] + after) == Run(count, before + after)
  {
    var mid := Run(count, before);
    RunNonNegative(count, before);
    RunAppend(count, before + [IncrementPress, DecrementPress], after);
    RunAppend(count, before, [IncrementPress, DecrementPress]);
    RunAppend(count, before, after);
    assert Run(mid, [IncrementPress, DecrementPress]) == mid;
  }

  /**
   * The clamp only ever raises the count: after any history from a
   * non-negative count, the count lies between "every decrement took effect"
   * and "no decrement took effect".
   */
  lemma {:induction false} RunBounds(count: int, actions: seq<Action>)
    requires count >= 0
    ensures count + Occurrences(actions, IncrementPress) - Occurrences(actions, DecrementPress)
            <= Run(count, actions)
            <= count + Occurrences(actions, IncrementPress)
    decreases |actions|
  {
    if actions != [] {
      RunBounds(Step(count, actions[0]), actions[1..]);
    }
  }

  /** With no decrement in a history, the count is the start plus the increments. */
  lemma {:induction false} RunWithoutDecrements(count: int, actions: seq<Action>)
    requires Occurrences(actions, DecrementPress) == 0
    ensures Run(count, actions) == count + |actions|
    decreases |actions|
  {
    if actions != [] {
      RunWithoutDecrements(count + 1, actions[1..]);
    }
  }

  /**
   * Ten increments from 0 reach a count whose message is "on fire"; nine and
   * eleven increments reach counts with no message, and none leaves "No clicks yet".
   */
  lemma TenClicksOnFire()
    ensures MessageFor(Run(0, Repeat(IncrementPress, 10))) == OnFire
    ensures MessageFor(Run(0, Repeat(IncrementPress, 9))) == ""
    ensures MessageFor(Run(0, Repeat(IncrementPress, 11))) == ""
    ensures MessageFor(Run(0, [])) == NoClicksYet
  {
  }

  /** What a component holding a provider can conclude from the contracts alone. */
  method ClickScenarios()
  {
    var provider := new CountProvider();
    provider.Increment();
    provider.Increment();
    provider.Increment();
    assert provider.count == 3;

    var idle := new CountProvider();
    idle.Press(DecrementPress);
    assert idle.count == 0 && MessageFor(idle.count) == NoClicksYet;

    var outcome := UseCount(Some(idle));
    assert outcome == Success(idle);
    assert UseCount(None).Failure?;
  }
}

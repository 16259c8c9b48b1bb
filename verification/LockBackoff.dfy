/**
 The retry loop of `ConfigLock::hold` in config_store.rs. What the file system and `rand()`
 answer is a parameter: `opens(k)` is the outcome of the attempt after `k` waits, `rand(k)`
 the number drawn for the wait after it.
 */
module LockBackoff {

  const INITIAL_BACKOFF_MS: nat := 1
  const BACKOFF_MAX_MULTIPLIER: nat := 1000

  datatype Open = Opened | AlreadyExists | OtherError

  datatype Hold = Held | Failed(error: Open)

  /** The step of the `k`th wait, counted from 1. */
  function Multiplier(k: nat): nat { if k * k < BACKOFF_MAX_MULTIPLIER then k * k else BACKOFF_MAX_MULTIPLIER }

  /** The `k`th wait in milliseconds. */
  function Wait(k: nat, drawn: nat): nat { (750 + drawn % 500) * Multiplier(k) / 1000 }

  /** The first `k` waits together. */
  function Slept(k: nat, rand: nat -> nat): nat {
    if k == 0 then 0 else Slept(k - 1, rand) + Wait(k, rand(k - 1))
  }

  lemma SquareGrows(a: nat, b: nat)
    requires a <= b
    ensures a * a <= b * b
  {
    assert b * b == a * a + (b - a) * (a + b);
  }

  lemma JitterBounds(j: nat, m: nat)
    requires j < 500
    ensures 750 * m <= (750 + j) * m <= 1249 * m
  {
    assert (750 + j) * m == 750 * m + j * m;
    assert (499 - j) * m >= 0;
    assert 1249 * m == (750 + j) * m + (499 - j) * m;
  }

  lemma MultiplierBounds(k: nat)
    ensures Multiplier(k) <= 1000 && (k >= 2 ==> Multiplier(k) >= 4) && (k >= 32 ==> Multiplier(k) == 1000)
  {
    if k >= 2 { SquareGrows(2, k); }
    if k >= 32 { SquareGrows(32, k); }
  }

  lemma WaitBounds(k: nat, drawn: nat)
    requires k >= 1
    ensures Wait(k, drawn) <= 1249 && (k >= 2 ==> Wait(k, drawn) >= 3)
    ensures k >= 32 ==> Wait(k, drawn) >= 750
  {
    hide Multiplier;
    MultiplierBounds(k);
    JitterBounds(drawn % 500, Multiplier(k));
    var x := (750 + drawn % 500) * Multiplier(k);
    assert Wait(k, drawn) == x / 1000;
  }

  /** Every wait but the first is positive, so the sleep grows with the attempts. */
  lemma {:induction false} SleptGrows(k: nat, rand: nat -> nat)
    ensures k >= 1 ==> Slept(k, rand) >= 3 * (k - 1)
    ensures k >= 32 ==> Slept(k, rand) >= 750 * (k - 31)
  {
    hide Wait;
    if k > 0 {
      SleptGrows(k - 1, rand);
      WaitBounds(k, rand(k - 1));
    }
  }

  /** The update of `multiplier` and `n` keeps them the square and its root until the cap. */
  lemma MultiplierStep(k: nat, n: nat)
    requires k >= 1 && n == if k <= 31 then k else 31
    ensures var next := Multiplier(k) + 2 * n + 1;
      && (next > BACKOFF_MAX_MULTIPLIER ==> Multiplier(k + 1) == BACKOFF_MAX_MULTIPLIER && k >= 31)
      && (next <= BACKOFF_MAX_MULTIPLIER ==> Multiplier(k + 1) == next && k < 31)
  {
    assert (k + 1) * (k + 1) == k * k + 2 * k + 1;
    if k <= 30 {
      SquareGrows(k + 1, 31);
    } else {
      SquareGrows(32, k + 1);
      SquareGrows(31, k);
    }
  }

  /** The jittered wait of a turn: the multiplier in milliseconds, by 0.75 to 1.249. */
  method Jittered(multiplier: nat, drawn: nat, ghost k: nat) returns (waitMs: nat)
    requires multiplier == Multiplier(k)
    ensures waitMs == Wait(k, drawn)
  {
    hide Multiplier;
    var backoffMs := multiplier * INITIAL_BACKOFF_MS;
    var jitter := drawn % 500;
    waitMs := (750 + jitter) * backoffMs / 1000;
  }

  lemma SleptOn(k: nat, rand: nat -> nat)
    ensures Slept(k + 1, rand) == Slept(k, rand) + Wait(k + 1, rand(k))
  {
    hide Wait;
  }

  /** Before attempt `waits`: the multiplier and its root, and of the timeout what the sleep has left. */
  ghost predicate InStep(timeoutMs: int, rand: nat -> nat, waits: nat, n: nat, multiplier: nat, remainingMs: int) {
    && multiplier == Multiplier(waits + 1) && n == (if waits + 1 <= 31 then waits + 1 else 31)
    && remainingMs == timeoutMs - Slept(waits, rand)
    && (timeoutMs > 0 ==> remainingMs > -1249 && (waits > 0 ==> Slept(waits - 1, rand) < timeoutMs))
  }

  lemma FirstStep(timeoutMs: int, rand: nat -> nat)
    ensures InStep(timeoutMs, rand, 0, 1, 1, timeoutMs)
  {
    hide Multiplier;
    FirstMultiplier();
  }

  lemma InStepIs(timeoutMs: int, rand: nat -> nat, waits: nat, n: nat, multiplier: nat, remainingMs: int)
    requires InStep(timeoutMs, rand, waits, n, multiplier, remainingMs)
    ensures multiplier == Multiplier(waits + 1) && remainingMs == timeoutMs - Slept(waits, rand)
    ensures timeoutMs > 0 ==> remainingMs > -1249 && (waits > 0 ==> Slept(waits - 1, rand) < timeoutMs)
  {
    hide Multiplier, Slept;
  }

  /** One more wait. */
  lemma NextStep(timeoutMs: int, rand: nat -> nat, waits: nat, n: nat, multiplier: nat, remainingMs: int, waitMs: nat)
    requires InStep(timeoutMs, rand, waits, n, multiplier, remainingMs) && waitMs == Wait(waits + 1, rand(waits))
    requires timeoutMs > 0 ==> remainingMs > 0
    ensures waits > 0 ==> waitMs >= 3
    ensures var next := multiplier + 2 * n + 1;
      if next > BACKOFF_MAX_MULTIPLIER then
        InStep(timeoutMs, rand, waits + 1, n, BACKOFF_MAX_MULTIPLIER, remainingMs - waitMs)
      else InStep(timeoutMs, rand, waits + 1, n + 1, next, remainingMs - waitMs)
  {
    hide Multiplier, Wait, Slept;
    SleptOn(waits, rand);
    WaitBounds(waits + 1, rand(waits));
    MultiplierStep(waits + 1, n);
  }

  /** `hold`, after `waits` waits. `patience` is where a caller that waits for ever finds the lock free. */
  method Acquire(timeoutMs: int, opens: nat -> Open, rand: nat -> nat, ghost patience: nat)
      returns (r: Hold, waits: nat)
    requires timeoutMs < 0 ==> opens(patience) != AlreadyExists
    ensures r == if opens(waits) == Opened then Held else Failed(opens(waits))
    ensures forall k :: 0 <= k < waits ==> opens(k) == AlreadyExists
    ensures timeoutMs == 0 ==> waits == 0
    ensures timeoutMs < 0 ==> r != Failed(AlreadyExists)
    ensures timeoutMs > 0 ==>
      && Slept(waits, rand) < timeoutMs + 1249
      && (r == Failed(AlreadyExists) ==> Slept(waits, rand) >= timeoutMs)
      && (waits > 0 ==> Slept(waits - 1, rand) < timeoutMs)
  {
    hide Multiplier, Wait, Slept, InStep;
    waits := 0;
    if timeoutMs == 0 {
      return if opens(0) == Opened then Held else Failed(opens(0)), 0;
    }
    var remainingMs := timeoutMs;
    var n: nat, multiplier: nat := 1, 1;
    FirstStep(timeoutMs, rand);
    while true
      invariant InStep(timeoutMs, rand, waits, n, multiplier, remainingMs)
      invariant forall k :: 0 <= k < waits ==> opens(k) == AlreadyExists
      invariant timeoutMs > 0 ==> remainingMs > -1249
      invariant timeoutMs < 0 ==> waits <= patience
      decreases if timeoutMs > 0 then 1249 + remainingMs + (if waits == 0 then 1 else 0) else patience - waits
    {
      InStepIs(timeoutMs, rand, waits, n, multiplier, remainingMs);
      match opens(waits)
      case Opened => return Held, waits;
      case OtherError => return Failed(OtherError), waits;
      case AlreadyExists =>
      if timeoutMs > 0 && remainingMs <= 0 { return Failed(AlreadyExists), waits; }
      var waitMs := Jittered(multiplier, rand(waits), waits + 1);
      NextStep(timeoutMs, rand, waits, n, multiplier, remainingMs, waitMs);
      remainingMs := remainingMs - waitMs;
      multiplier := multiplier + 2 * n + 1;
      if multiplier > BACKOFF_MAX_MULTIPLIER {
        multiplier := BACKOFF_MAX_MULTIPLIER;
      } else {
        n := n + 1;
      }
      waits := waits + 1;
      InStepIs(timeoutMs, rand, waits, n, multiplier, remainingMs);
    }
  }

  lemma FirstMultiplier()
    ensures Multiplier(1) == 1
  {
  }

  /** Under contention that never ends, any run that waits `k` times with the timeout not yet used up
   cannot have gone on for long: the number of attempts is bounded by the timeout alone. */
  lemma AttemptsBounded(timeoutMs: nat, rand: nat -> nat, waits: nat)
    requires timeoutMs > 0 && waits > 0 && Slept(waits - 1, rand) < timeoutMs
    ensures waits <= timeoutMs / 3 + 3 && (waits >= 33 ==> waits <= timeoutMs / 750 + 33)
  {
    SleptGrows(waits - 1, rand);
  }

  /** The waits written out: nothing at first, then the squares in milliseconds up to a second, by 0.75 to 1.249. */
  lemma WaitsAre(drawn: nat)
    requires drawn < 500
    ensures Wait(1, drawn) == (if drawn < 250 then 0 else 1) && Wait(2, 250) == 4 && Wait(31, 250) == 961
    ensures Wait(32, drawn) == Wait(1000, drawn) == 750 + drawn && Wait(3, drawn + 500) == Wait(3, drawn)
  {
    assert 32 * 32 == 1024 && 31 * 31 == 961 && 1000 * 1000 == 1000000;
  }
}

/** The wrapping 32-bit counter of pkg/autoscaler/counter.go. */
module Counters {

  const MODULUS: nat := 0x1_0000_0000

  /** A uint32 value. */
  type U32 = n: nat | n < 0x1_0000_0000

  /** What one invocation of a counting callback does; the switch in newEventCounter ignores other counter types. */
  datatype Callback = Increment | Decrement | NoCount

  /** AddUint32(c, 1). */
  function PlusOne(c: U32): U32 {
    (c + 1) % MODULUS
  }

  /** AddUint32(c, ^uint32(0)). */
  function PlusAllOnes(c: U32): U32 {
    (c + (MODULUS - 1)) % MODULUS
  }

  function Fire(callback: Callback, c: U32): U32 {
    match callback
    case Increment => PlusOne(c)
    case Decrement => PlusAllOnes(c)
    case NoCount => c
  }

  /** The counter's value after k callbacks, in closed form over the unbounded integers. */
  function Moved(callback: Callback, initial: U32, k: nat): U32 {
    match callback
    case Increment => (initial + k) % MODULUS
    case Decrement => (initial - k) % MODULUS
    case NoCount => initial
  }

  /** k callbacks and then one more are k + 1 callbacks. */
  lemma FireMoved(callback: Callback, initial: U32, k: nat)
    ensures Fire(callback, Moved(callback, initial, k)) == Moved(callback, initial, k + 1)
  {
    match callback {
      case Increment => AddMod(initial + k, 1);
      case Decrement =>
        AddMod(initial - k, MODULUS - 1);
        AddMultiple(initial - k - 1, 1);
      case NoCount =>
    }
  }

  lemma AddMultiple(x: int, q: int)
    ensures (x + q * MODULUS) % MODULUS == x % MODULUS
  {
  }

  lemma AddMod(x: int, y: int)
    ensures (x % MODULUS + y) % MODULUS == (x + y) % MODULUS
  {
    AddMultiple(x % MODULUS + y, x / MODULUS);
  }

  /** Incrementing and decrementing undo each other on every 32-bit value, wrap-around included. */
  lemma DecrementUndoesIncrement(c: U32)
    ensures Fire(Decrement, Fire(Increment, c)) == c
    ensures Fire(Increment, Fire(Decrement, c)) == c
  {
  }

  /**
    Two readings of a counting handler's counter agree exactly when the number of callbacks between them is a
    multiple of 2^32.
   */
  lemma SameReading(callback: Callback, initial: U32, j: nat, k: nat)
    requires callback != NoCount
    requires j <= k
    ensures Moved(callback, initial, j) == Moved(callback, initial, k) <==> (k - j) % MODULUS == 0
  {
    var x, y := if callback == Increment then initial + j else initial - k,
                if callback == Increment then initial + k else initial - j;
    EqualResidues(x, y);
  }

  lemma EqualResidues(x: int, y: int)
    ensures x % MODULUS == y % MODULUS <==> (y - x) % MODULUS == 0
  {
    var d := y - x;
    AddMod(x, d);
    if d % MODULUS == 0 {
      assert d == (d / MODULUS) * MODULUS;
      AddMultiple(x, d / MODULUS);
    } else if x % MODULUS == y % MODULUS {
      assert d == (y / MODULUS - x / MODULUS) * MODULUS;
      AddMultiple(0, y / MODULUS - x / MODULUS);
    }
  }

  /** Readings fewer than 2^32 callbacks apart agree only when there is no callback between them. */
  lemma SameCloseReading(callback: Callback, initial: U32, j: nat, k: nat)
    requires callback != NoCount
    requires j <= k < j + MODULUS
    requires Moved(callback, initial, j) == Moved(callback, initial, k)
    ensures j == k
  {
    SameReading(callback, initial, j, k);
  }

  /** An incremented counter is back at its initial value exactly after a multiple of 2^32 callbacks. */
  lemma InitialReading(initial: U32, k: nat)
    ensures Moved(Increment, initial, k) == initial <==> k % MODULUS == 0
  {
    SameReading(Increment, initial, 0, k);
  }

  class U32Counter {
    var value: U32

    constructor (initial: U32)
      ensures value == initial
    {
      value := initial;
    }

    method Increment() returns (r: U32)
      modifies this
      ensures r == value
      ensures value == if old(value) == MODULUS - 1 then 0 else old(value) + 1
    {
      value := PlusOne(value);
      r := value;
    }

    method Decrement() returns (r: U32)
      modifies this
      ensures r == value
      ensures value == if old(value) == 0 then MODULUS - 1 else old(value) - 1
    {
      value := PlusAllOnes(value);
      r := value;
    }

    method Get() returns (r: U32)
      ensures r == value
    {
      r := value;
    }
  }
}

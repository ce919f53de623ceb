/** The generator of track ids: xorshift64* over a 64-bit state. */
module KanaliTracks {
  import opened Bytes

  const MULTIPLIER := 0x2545_F491_4F6C_DD1D

  function Xor(x: bv64, y: bv64): bv64 { x ^ y }

  function Right12(x: bv64): bv64 { x >> 12 }

  function Left25(x: bv64): bv64 { x << 25 }

  function Right27(x: bv64): bv64 { x >> 27 }

  /** The state after one step. */
  function Step(state: bv64): bv64 {
    var x := Xor(state, Right12(state));
    var y := Xor(x, Left25(x));
    Xor(y, Right27(y))
  }

  function FromU64(n: U64): bv64 { n as bv64 }

  function ToU64(state: bv64): (n: U64)
    ensures FromU64(n) == state
  {
    state as nat
  }

  /** Wrapping multiplication by the generator's odd constant. */
  function Multiply(n: U64): U64 {
    (n * MULTIPLIER) % TWO_TO_64
  }

  /** The id issued when the state becomes `state`; zero is replaced, as bootstrap replies reserve it. */
  function IdOf(state: bv64): (id: U64)
    ensures id != 0
  {
    var id := Multiply(ToU64(state));
    if id == 0 then 1 else id
  }

  function StateAfter(seed: bv64, steps: nat): bv64 {
    if steps == 0 then seed else Step(StateAfter(seed, steps - 1))
  }

  // The word-level facts the proofs below rest on.

  lemma WordXorMoves(x: bv64, a: bv64, y: bv64, b: bv64)
    requires x ^ a == y ^ b
    ensures x ^ y == a ^ b
  {
  }

  lemma XorMoves(x: bv64, a: bv64, y: bv64, b: bv64)
    requires Xor(x, a) == Xor(y, b)
    ensures Xor(x, y) == Xor(a, b)
  {
    WordXorMoves(x, a, y, b);
  }

  lemma XorZero(x: bv64, y: bv64)
    requires Xor(x, y) == 0
    ensures x == y
  {
  }

  lemma Right12IsLinear(x: bv64, y: bv64)
    ensures Right12(Xor(x, y)) == Xor(Right12(x), Right12(y))
  {
  }

  lemma Left25IsLinear(x: bv64, y: bv64)
    ensures Left25(Xor(x, y)) == Xor(Left25(x), Left25(y))
  {
  }

  lemma Right27IsLinear(x: bv64, y: bv64)
    ensures Right27(Xor(x, y)) == Xor(Right27(x), Right27(y))
  {
  }

  lemma ShiftsFixOnlyZero(d: bv64)
    ensures d == Right12(d) || d == Left25(d) || d == Right27(d) ==> d == 0
  {
  }

  /** Each xor-shift is injective: two states it merges differ by a fixed point of the shift. */
  lemma XorShiftInjective(x: bv64, y: bv64)
    ensures Xor(x, Right12(x)) == Xor(y, Right12(y)) ==> x == y
    ensures Xor(x, Left25(x)) == Xor(y, Left25(y)) ==> x == y
    ensures Xor(x, Right27(x)) == Xor(y, Right27(y)) ==> x == y
  {
    hide Xor, Right12, Left25, Right27;
    var d := Xor(x, y);
    Right12IsLinear(x, y);
    Left25IsLinear(x, y);
    Right27IsLinear(x, y);
    ShiftsFixOnlyZero(d);
    if Xor(x, Right12(x)) == Xor(y, Right12(y)) {
      XorMoves(x, Right12(x), y, Right12(y));
      XorZero(x, y);
    }
    if Xor(x, Left25(x)) == Xor(y, Left25(y)) {
      XorMoves(x, Left25(x), y, Left25(y));
      XorZero(x, y);
    }
    if Xor(x, Right27(x)) == Xor(y, Right27(y)) {
      XorMoves(x, Right27(x), y, Right27(y));
      XorZero(x, y);
    }
  }

  lemma StepInjective(x: bv64, y: bv64)
    ensures Step(x) == Step(y) ==> x == y
  {
    hide Xor, Right12, Left25, Right27;
    var x1, y1 := Xor(x, Right12(x)), Xor(y, Right12(y));
    XorShiftInjective(x, y);
    XorShiftInjective(x1, y1);
    XorShiftInjective(Xor(x1, Left25(x1)), Xor(y1, Left25(y1)));
  }

  /** The odd multiplier has an inverse modulo 2^64, so wrapping multiplication merges no two words. */
  lemma MultiplyInjective(x: U64, y: U64)
    ensures Multiply(x) == Multiply(y) ==> x == y
  {
    if Multiply(x) == Multiply(y) {
      var laps := x * MULTIPLIER / TWO_TO_64 - y * MULTIPLIER / TWO_TO_64;
      UnmultiplyDifference(x - y, laps);
    }
  }

  lemma UnmultiplyDifference(difference: int, laps: int)
    requires difference * 0x2545_F491_4F6C_DD1D == laps * 0x1_0000_0000_0000_0000
    requires -0x1_0000_0000_0000_0000 < difference < 0x1_0000_0000_0000_0000
    ensures difference == 0
  {
    var turns := laps * 0x59071d96d81ecd35 - difference * 0xcf65b3f17bf4a6b;
    assert difference == turns * 0x1_0000_0000_0000_0000;
  }

  lemma ProductInjective(x: bv64, y: bv64)
    ensures Multiply(ToU64(x)) == Multiply(ToU64(y)) ==> x == y
  {
    hide Multiply, ToU64, FromU64;
    MultiplyInjective(ToU64(x), ToU64(y));
  }

  lemma ProductNotZero(x: bv64)
    requires x != 0
    ensures Multiply(ToU64(x)) != 0
  {
    MultiplyInjective(ToU64(x), 0);
    assert x as nat == 0 ==> x == 0;
  }

  /** From a nonzero state the generator never reaches zero, and the replacement of id zero is never used. */
  lemma {:induction false} NeverZero(seed: bv64, steps: nat)
    requires seed != 0
    ensures StateAfter(seed, steps) != 0
    ensures IdOf(StateAfter(seed, steps)) == Multiply(ToU64(StateAfter(seed, steps)))
  {
    hide Step, Multiply, ToU64;
    if steps > 0 {
      NeverZero(seed, steps - 1);
      StepInjective(StateAfter(seed, steps - 1), 0);
      StepOfZero();
    }
    ProductNotZero(StateAfter(seed, steps));
  }

  lemma StepOfZero()
    ensures Step(0) == 0
  {
  }

  /** The seed the session starts from has its low bit set, so it is not zero. */
  lemma SeedNotZero(clock: bv64)
    ensures clock | 1 != 0
  {
  }

  /** Along any run, equal ids come only from equal states. */
  lemma IdsAreStates(seed: bv64, i: nat, j: nat)
    requires seed != 0
    ensures IdOf(StateAfter(seed, i)) == IdOf(StateAfter(seed, j)) <==> StateAfter(seed, i) == StateAfter(seed, j)
  {
    NeverZero(seed, i);
    NeverZero(seed, j);
    ProductInjective(StateAfter(seed, i), StateAfter(seed, j));
  }

  /** An id is issued again only once the generator has come all the way round to its seed. */
  lemma {:induction false} IdRepeatsOnlyOnFullCycle(seed: bv64, i: nat, j: nat)
    requires seed != 0 && i < j
    requires IdOf(StateAfter(seed, i)) == IdOf(StateAfter(seed, j))
    ensures StateAfter(seed, j - i) == seed
    decreases i
  {
    hide Step, IdOf;
    IdsAreStates(seed, i, j);
    if i > 0 {
      StepInjective(StateAfter(seed, i - 1), StateAfter(seed, j - 1));
      IdRepeatsOnlyOnFullCycle(seed, i - 1, j - 1);
    }
  }

  /** One step and one product, worked out. */
  lemma StepWorkedOut()
    ensures Step(0x0123_4567_89AB_CDEF) == 0xA69C_F1E9_AA4D_68FC
    ensures Multiply(0xA69C_F1E9_AA4D_68FC) == 0x7C94_8247_2CB6_708C
  {
  }
}

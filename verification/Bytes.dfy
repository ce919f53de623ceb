/** Byte strings, and the laws of concatenation, searching and little-endian numbers the codecs share. */
module Bytes {
  datatype Option<+T> = None | Some(value: T)

  datatype Result<+T, +E> = Ok(value: T) | Err(error: E)

  type Byte = b: int | 0 <= b < 256

  type ByteString = seq<Byte>

  const TWO_TO_64 := 0x1_0000_0000_0000_0000

  /** Numbers of 64 bits. */
  type U64 = n: nat | n < TWO_TO_64

  /** A growable byte vector that its readers drain in place. */
  class Buffer {
    var data: ByteString

    constructor (initial: ByteString)
      ensures data == initial
    {
      data := initial;
    }
  }

  /** Whether `part` stands at position `at` of `whole`. */
  predicate OccursAt<T(==)>(whole: seq<T>, part: seq<T>, at: nat) {
    at + |part| <= |whole| && whole[at..at + |part|] == part
  }

  /** The first position at which `part` occurs. */
  function Find<T(==)>(whole: seq<T>, part: seq<T>): (found: Option<nat>)
    ensures found.Some? ==> OccursAt(whole, part, found.value)
    ensures found.Some? ==> forall k: nat :: k < found.value ==> !OccursAt(whole, part, k)
    ensures found.None? ==> forall k: nat :: !OccursAt(whole, part, k)
  {
    FindFrom(whole, part, 0)
  }

  function FindFrom<T(==)>(whole: seq<T>, part: seq<T>, start: nat): (found: Option<nat>)
    ensures found.Some? ==> start <= found.value && OccursAt(whole, part, found.value)
    ensures found.Some? ==> forall k: nat :: start <= k < found.value ==> !OccursAt(whole, part, k)
    ensures found.None? ==> forall k: nat :: start <= k ==> !OccursAt(whole, part, k)
    decreases |whole| - start
  {
    if start + |part| > |whole| then None
    else if OccursAt(whole, part, start) then Some(start)
    else FindFrom(whole, part, start + 1)
  }

  /** Searching a tail is searching the whole from there on. */
  lemma FindInTail<T>(whole: seq<T>, part: seq<T>, start: nat)
    requires start <= |whole|
    ensures var found := Find(whole[start..], part);
            if found.Some? then
              OccursAt(whole, part, start + found.value)
              && forall k: nat :: start <= k < start + found.value ==> !OccursAt(whole, part, k)
            else forall k: nat :: start <= k ==> !OccursAt(whole, part, k)
  {
    var found := Find(whole[start..], part);
    if found.Some? {
      assert whole[start..][found.value..found.value + |part|] == whole[start + found.value..start + found.value + |part|];
    }
    forall k: nat | start <= k && OccursAt(whole, part, k)
      ensures OccursAt(whole[start..], part, k - start)
    {
      assert whole[start..][k - start..k - start + |part|] == whole[k..k + |part|];
    }
  }

  /** The concatenation of a list of strings. */
  function Flatten<T>(parts: seq<seq<T>>): seq<T> {
    if parts == [] then [] else parts[0] + Flatten(parts[1..])
  }

  lemma {:induction false} FlattenAppend<T>(front: seq<seq<T>>, back: seq<seq<T>>)
    ensures Flatten(front + back) == Flatten(front) + Flatten(back)
  {
    if front == [] {
      assert front + back == back;
    } else {
      assert (front + back)[1..] == front[1..] + back;
      FlattenAppend(front[1..], back);
    }
  }

  /** The 32-bit number a four-byte little-endian field holds. */
  function U32FromLe(field: ByteString): (value: nat)
    requires |field| == 4
    ensures value < 0x1_0000_0000
  {
    Weigh(field[0], field[1], field[2], field[3])
  }

  function Weigh(b0: int, b1: int, b2: int, b3: int): int {
    b0 + 0x100 * (b1 + 0x100 * (b2 + 0x100 * b3))
  }

  function U32ToLe(value: nat): (field: ByteString)
    requires value < 0x1_0000_0000
    ensures |field| == 4
    ensures U32FromLe(field) == value
  {
    var v1 := value / 0x100;
    var v2 := v1 / 0x100;
    var v3 := v2 / 0x100;
    [value % 0x100, v1 % 0x100, v2 % 0x100, v3]
  }

  lemma U32LeUnique(field: ByteString)
    requires |field| == 4
    ensures U32ToLe(U32FromLe(field)) == field
  {
    var value := U32FromLe(field);
    var b1: int, b2: int, b3: int := field[1], field[2], field[3];
    assert value / 0x100 == b1 + 0x100 * (b2 + 0x100 * b3);
    assert value / 0x100 / 0x100 == b2 + 0x100 * b3;
    assert value / 0x100 / 0x100 / 0x100 == b3;
  }
}

/** The frame bitmap as a sequence of bits, and what allocation and release do to it (src/lib/bitmap.c). */
module FrameBits {
  // The lowest clear bit at or above i, or |bits| when there is none.
  function LowestClear(bits: seq<bool>, i: nat): (r: nat)
    requires i <= |bits|
    ensures i <= r <= |bits|
    ensures forall j | i <= j < r :: bits[j]
    ensures r < |bits| ==> !bits[r]
    decreases |bits| - i
  {
    if i == |bits| || !bits[i] then i else LowestClear(bits, i + 1)
  }

  // bitmap_set_bits: bits index, index+1, ..., clipped to the size of the map.
  function SetRange(bits: seq<bool>, index: nat, size: nat, value: bool): (r: seq<bool>)
    ensures |r| == |bits|
    ensures forall j | 0 <= j < |bits| :: r[j] == if index <= j < index + size then value else bits[j]
  {
    seq(|bits|, j requires 0 <= j < |bits| => if index <= j < index + size then value else bits[j])
  }

  function CountClear(bits: seq<bool>): nat {
    if bits == [] then 0 else CountClear(bits[1..]) + if bits[0] then 0 else 1
  }

  lemma {:induction false} CountAfterSet(bits: seq<bool>, i: nat)
    requires i < |bits| && !bits[i]
    ensures CountClear(bits[i := true]) == CountClear(bits) - 1
  {
    if i == 0 {
      assert bits[0 := true][1..] == bits[1..];
    } else {
      CountAfterSet(bits[1..], i - 1);
      assert bits[i := true][1..] == bits[1..][i - 1 := true];
    }
  }

  lemma {:induction false} CountZero(bits: seq<bool>)
    ensures CountClear(bits) == 0 <==> LowestClear(bits, 0) == |bits|
  {
    if bits == [] {
    } else {
      CountZero(bits[1..]);
      var r := LowestClear(bits, 0);
      if r == |bits| {
        assert forall j | 0 <= j < |bits[1..]| :: bits[1..][j] == bits[j + 1];
        assert LowestClear(bits[1..], 0) == |bits[1..]|;
      } else {
        if bits[0] {
          assert !bits[1..][r - 1];
        }
      }
    }
  }
}

/** The bitmap of src/lib/bitmap.c over its byte array. */
module Bitmap {
  import opened FrameBits

  // 1 << k
  function Mask(k: nat): bv8
    requires k < 8
  {
    if k == 0 then 1 else if k == 1 then 2 else if k == 2 then 4 else if k == 3 then 8
    else if k == 4 then 16 else if k == 5 then 32 else if k == 6 then 64 else 128
  }

  // b >> k & 1
  predicate GetBit(b: bv8, k: nat)
    requires k < 8
  {
    b & Mask(k) != 0
  }

  function PutBit(b: bv8, k: nat, value: bool): bv8
    requires k < 8
  {
    if value then b | Mask(k) else b & !Mask(k)
  }

  lemma PutBitGets(b: bv8, k: nat, value: bool, j: nat)
    requires k < 8 && j < 8
    ensures GetBit(PutBit(b, k, value), j) == if j == k then value else GetBit(b, j)
  {
    MaskedBits(b, Mask(k), Mask(j));
  }

  lemma MaskedBits(b: bv8, m: bv8, n: bv8)
    ensures (b | m) & n == (b & n) | (m & n)
    ensures (b & !m) & n == (b & n) & !m
    ensures m & n == 0 ==> (b & n) & !m == b & n
    ensures (b & m) & !m == 0
  {
  }

  /** What bitmap_alloc_bits answers: the index, and whether it set the bits from there. */
  datatype Scan = Scan(index: int, set_: bool)

  // The inner loop: how far it counts, where it stops, and whether it ran into a wrong bit.
  function Inner(bits: seq<bool>, value: bool, size: nat, i: nat, at: nat): (r: (nat, nat, bool))
    requires at <= |bits|
    ensures at <= r.1 <= |bits| && i <= r.0 && (i < size && at < |bits| ==> at < r.1)
    ensures r.2 ==> r.0 - i == r.1 - at && forall j | at <= j < r.1 :: bits[j] == value
    ensures !r.2 ==> r.0 < size
    decreases |bits| - at
  {
    if i < size && at < |bits| then
      if bits[at] != value then (i, at + 1, false) else Inner(bits, value, size, i + 1, at + 1)
    else (i, at, true)
  }

  // bitmap_alloc_bits from bit `at` on, with the answer so far.
  function AllocScan(bits: seq<bool>, value: bool, size: nat, at: nat, found: int): (r: Scan)
    requires at <= |bits|
    decreases |bits| - at
  {
    if at == |bits| then Scan(found, false)
    else if bits[at] != value then AllocScan(bits, value, size, at + 1, found)
    else
      var (i, next, ok) := Inner(bits, value, size, 1, at);
      if i >= size then Scan(at, true)
      else AllocScan(bits, value, size, next, if ok then at else -1)
  }

  lemma ScanEnd(bits: seq<bool>, value: bool, size: nat, found: int)
    ensures AllocScan(bits, value, size, |bits|, found) == Scan(found, false)
  {
  }

  // One turn of the scan.
  lemma ScanTurn(bits: seq<bool>, value: bool, size: nat, at: nat, found: int)
    requires at < |bits|
    ensures AllocScan(bits, value, size, at, found) ==
      if bits[at] != value then AllocScan(bits, value, size, at + 1, found) else
        var (i, next, ok) := Inner(bits, value, size, 1, at);
        if i >= size then Scan(at, true) else AllocScan(bits, value, size, next, if ok then at else -1)
  {
    hide Inner;
  }

  function Flipped(bits: seq<bool>): (r: seq<bool>)
    ensures |r| == |bits| && forall j | 0 <= j < |r| :: r[j] == !bits[j]
  {
    seq(|bits|, j requires 0 <= j < |bits| => !bits[j])
  }

  lemma {:induction false} InnerFlipped(bits: seq<bool>, value: bool, size: nat, i: nat, at: nat)
    requires at <= |bits|
    ensures Inner(Flipped(bits), !value, size, i, at) == Inner(bits, value, size, i, at)
    decreases |bits| - at
  {
    if i < size && at < |bits| && bits[at] == value {
      InnerFlipped(bits, value, size, i + 1, at + 1);
    }
  }

  /** Looking for set bits is looking for clear bits in the flipped map. */
  lemma {:induction false} ScanFlipped(bits: seq<bool>, value: bool, size: nat, at: nat, found: int)
    requires at <= |bits|
    ensures AllocScan(Flipped(bits), !value, size, at, found) == AllocScan(bits, value, size, at, found)
    decreases |bits| - at
  {
    hide Inner, Flipped;
    if at == |bits| {
    } else if bits[at] != value {
      ScanFlipped(bits, value, size, at + 1, found);
    } else {
      InnerFlipped(bits, value, size, 1, at);
      var (i, next, ok) := Inner(bits, value, size, 1, at);
      if i < size {
        ScanFlipped(bits, value, size, next, if ok then at else -1);
      }
    }
  }

  /** For one clear bit it is the lowest one, or -1 when there is none. */
  lemma {:induction false} AllocOneIsLowest(bits: seq<bool>, at: nat)
    requires at <= |bits|
    ensures AllocScan(bits, false, 1, at, -1) ==
      if LowestClear(bits, at) < |bits| then Scan(LowestClear(bits, at), true) else Scan(-1, false)
    decreases |bits| - at
  {
    if at == |bits| {
    } else {
      if bits[at] {
        AllocOneIsLowest(bits, at + 1);
      } else {
        assert Inner(bits, false, 1, 1, at) == (1, at, true);
      }
    }
  }

  // n clear bits from k on, inside the map.
  predicate ClearRun(bits: seq<bool>, k: nat, n: nat) {
    k + n <= |bits| && forall j | k <= j < k + n :: !bits[j]
  }

  /** The lowest start of n clear bits at or above `at`, or |bits| when there is none. */
  function LowestRun(bits: seq<bool>, n: nat, at: nat): (k: nat)
    requires at <= |bits| && n >= 1
    ensures at <= k <= |bits| && (k < |bits| ==> ClearRun(bits, k, n))
    ensures forall j: nat | at <= j < k :: !ClearRun(bits, j, n)
    decreases |bits| - at
  {
    if at == |bits| || ClearRun(bits, at, n) then at else LowestRun(bits, n, at + 1)
  }

  // The inner loop from a clear bit on: it gets through, or stops past a set bit, or runs into the end of the map.
  lemma {:induction false} InnerMeans(bits: seq<bool>, size: nat, i: nat, at: nat)
    requires at <= |bits| && 1 <= i <= size
    ensures var (c, next, ok) := Inner(bits, false, size, i, at);
      && (ok ==> forall j | at <= j < next :: !bits[j])
      && (!ok ==> at < next && bits[next - 1] && next - 1 - at < size - i && forall j | at <= j < next - 1 :: !bits[j])
      && (c >= size <==> ok && next == at + (size - i)) && (ok && c < size ==> next == |bits|)
      && (c >= size <==> ClearRun(bits, at, size - i))
    decreases |bits| - at
  {
    if i == size || at == |bits| {
    } else {
      if bits[at] == false {
        InnerMeans(bits, size, i + 1, at + 1);
      } else {
        assert Inner(bits, false, size, i, at) == (i, at + 1, false);
      }
    }
  }

  // Up to a set bit that is too near, no run of n clear bits begins.
  lemma NoRunBefore(bits: seq<bool>, n: nat, at: nat, p: nat)
    requires at <= p < |bits| && bits[p] && p < at + n && n >= 1
    ensures LowestRun(bits, n, at) == LowestRun(bits, n, p + 1)
    decreases p - at
  {
    assert !ClearRun(bits, at, n);
    if at < p {
      NoRunBefore(bits, n, at + 1, p);
    }
  }

  lemma {:induction false} NoRunAtEnd(bits: seq<bool>, n: nat, at: nat)
    requires at <= |bits| < at + n
    ensures n >= 1 && LowestRun(bits, n, at) == |bits|
    decreases |bits| - at
  {
    if at == |bits| {
    } else {
      NoRunAtEnd(bits, n, at + 1);
    }
  }

  // The scan for two bits and more, told from the bits.
  lemma {:induction false} ScanMeans(bits: seq<bool>, size: nat, at: nat, found: int)
    requires 2 <= size && at <= |bits| && (at == |bits| && |bits| > 0 && !bits[|bits| - 1] ==> found >= 0)
    requires at == 0 || bits[at - 1] || at == |bits|
    requires at < |bits| || bits == [] || bits[|bits| - 1] ==> found == -1
    ensures var (r, k) := (AllocScan(bits, false, size, at, found), LowestRun(bits, size - 1, at));
      && (k < |bits| ==> r == Scan(k, true))
      && (k == |bits| ==> !r.set_ && (r.index == -1 <==> bits == [] || bits[|bits| - 1]))
    decreases |bits| - at
  {
    if at == |bits| {
    } else {
      if bits[at] {
        NoRunBefore(bits, size - 1, at, at);
        ScanMeans(bits, size, at + 1, found);
      } else {
        InnerMeans(bits, size, 1, at);
        var (i, next, ok) := Inner(bits, false, size, 1, at);
        if i < size && ok {
          NoRunAtEnd(bits, size - 1, at);
          assert AllocScan(bits, false, size, at, found) == Scan(at, false);
        } else if i < size {
          NoRunBefore(bits, size - 1, at, next - 1);
          ScanMeans(bits, size, next, -1);
        }
      }
    }
  }

  /** For two bits and more it looks for a run one bit short: it sets bits exactly when size-1 consecutive bits are clear,
      from the lowest such run on; when it sets none, it answers -1 exactly when the last bit is in use or the map is
      empty, and otherwise an index. */
  lemma AllocManyExactly(bits: seq<bool>, size: nat)
    requires 2 <= size
    ensures var (r, n) := (AllocScan(bits, false, size, 0, -1), size - 1);
      && (r.set_ <==> exists k: nat :: k < |bits| && ClearRun(bits, k, n))
      && (r.set_ ==> r.index == LowestRun(bits, n, 0))
      && (!r.set_ ==> (r.index == -1 <==> bits == [] || bits[|bits| - 1]))
  {
    ScanMeans(bits, size, 0, -1);
    var k := LowestRun(bits, size - 1, 0);
    assert k < |bits| ==> ClearRun(bits, k, size - 1);
  }

  /** What the call is for: a run of that length, or -1 and nothing set when there is none. */
  predicate Right(bits: seq<bool>, size: nat, r: Scan) {
    if r.set_ then r.index >= 0 && ClearRun(bits, r.index, size)
    else r.index == -1 && forall k: nat | k < |bits| :: !ClearRun(bits, k, size)
  }

  /** The answer is right exactly when, at the lowest run of size-1 clear bits, one more bit is inside the map and clear,
      or, without such a run, the last bit is in use or the map is empty. */
  lemma AllocManyRight(bits: seq<bool>, size: nat)
    requires 2 <= size
    ensures var k := LowestRun(bits, size - 1, 0);
      Right(bits, size, AllocScan(bits, false, size, 0, -1)) <==>
        if k < |bits| then k + size - 1 < |bits| && !bits[k + size - 1] else bits == [] || bits[|bits| - 1]
  {
    ScanMeans(bits, size, 0, -1);
    var k := LowestRun(bits, size - 1, 0);
    if k < |bits| {
      assert ClearRun(bits, k, size) <==> k + size - 1 < |bits| && !bits[k + size - 1];
    } else {
      forall j: nat | j < |bits|
        ensures !ClearRun(bits, j, size)
      {
        assert !ClearRun(bits, j, size - 1);
      }
    }
  }

  /** A bit in use can be handed out again, and an index can be returned with nothing set. */
  lemma AllocManyDiverges()
    ensures AllocScan([false, true], false, 2, 0, -1) == Scan(0, true)
    ensures AllocScan([false], false, 3, 0, -1) == Scan(0, false)
  {
    assert Inner([false, true], false, 2, 1, 0) == (2, 1, true);
    assert Inner([false], false, 3, 1, 0) == (2, 1, true);
  }

  class BitMap {
    var bitSize: nat
    var bits: array<bv8>

    ghost predicate Valid()
      reads this
    {
      bitSize <= 8 * bits.Length
    }

    predicate Bit(i: nat)
      reads this, bits
      requires i < 8 * bits.Length
    {
      GetBit(bits[i / 8], i % 8)
    }

    /** The abstract value: the first bitSize bits. */
    function Bits(): (s: seq<bool>)
      reads this, bits
      requires Valid()
      ensures |s| == bitSize && forall i | 0 <= i < bitSize :: s[i] == Bit(i)
    {
      seq(bitSize, i requires 0 <= i < bitSize reads this, bits requires Valid() => Bit(i))
    }

    // bitmap_init with FALSE
    constructor (buffer: array<bv8>, bitSize: nat)
      requires (bitSize + 7) / 8 <= buffer.Length
      modifies buffer
      ensures Valid() && bits == buffer && Bits() == seq(bitSize, _ => false)
    {
      this.bitSize := bitSize;
      this.bits := buffer;
      new;
      var n := (bitSize + 7) / 8;
      for k := 0 to n
        invariant bits == buffer && this.bitSize == bitSize
        invariant forall j | 0 <= j < k :: buffer[j] == 0
      {
        buffer[k] := 0;
      }
      assert forall i: nat | i < bitSize :: buffer[i / 8] == 0;
    }

    // bitmap_set_bits
    method SetBits(index: nat, size: nat, value: bool)
      requires Valid()
      modifies bits
      ensures Valid() && bits == old(bits) && bitSize == old(bitSize)
      ensures Bits() == SetRange(old(Bits()), index, size, value)
    {
      var i, at := 0, index;
      while i < size && at < bitSize
        invariant 0 <= i <= size && at == index + i && (i > 0 ==> at <= bitSize)
        invariant Valid() && bits == old(bits) && bitSize == old(bitSize)
        invariant Bits() == SetRange(old(Bits()), index, i, value)
        decreases size - i
      {
        SetOne(at, value);
        at := at + 1;
        i := i + 1;
      }
    }

    // bits[index / 8] |= 1 << index % 8, or the matching clear
    method SetOne(index: nat, value: bool)
      requires Valid() && index < bitSize
      modifies bits
      ensures Valid() && bits == old(bits) && bitSize == old(bitSize)
      ensures Bits() == old(Bits())[index := value]
    {
      ghost var was := Bits();
      ghost var b := bits[index / 8];
      bits[index / 8] := PutBit(bits[index / 8], index % 8, value);
      forall i | 0 <= i < bitSize
        ensures Bits()[i] == was[index := value][i]
      {
        PutBitGets(b, index % 8, value, i % 8);
        if i / 8 == index / 8 && i != index {
          assert i % 8 != index % 8;
        }
      }
    }

    // bitmap_alloc_bits, loop for loop
    method AllocBits(value: bool, size: nat) returns (index: int)
      requires Valid()
      modifies bits
      ensures Valid() && bits == old(bits) && bitSize == old(bitSize)
      ensures var r := AllocScan(old(Bits()), value, size, 0, -1);
        index == r.index && Bits() == if r.set_ && index >= 0 then SetRange(old(Bits()), index, size, true) else old(Bits())
    {
      ghost var was := Bits();
      hide Inner, SetRange, GetBit, AllocScan;
      var at := 0;
      index := -1;
      while at < bitSize
        invariant 0 <= at <= bitSize && index >= -1
        invariant Bits() == was && bits == old(bits) && bitSize == old(bitSize)
        invariant AllocScan(was, value, size, at, index) == AllocScan(was, value, size, 0, -1)
        decreases bitSize - at
      {
        ScanTurn(was, value, size, at, index);
        if Bit(at) != value {
          at := at + 1;
          continue;
        }
        index := at;
        var i, next, ok := CountRun(value, size, at);
        at := next;
        if !ok {
          index := -1;
        }
        if i >= size {
          SetBits(index, size, true);
          return;
        }
      }
      ScanEnd(was, value, size, index);
    }

    // The inner loop of bitmap_alloc_bits: compares bits from `at` on, size-1 of them at most.
    method CountRun(value: bool, size: nat, at: nat) returns (i: nat, next: nat, ok: bool)
      requires Valid() && at <= bitSize
      ensures (i, next, ok) == Inner(Bits(), value, size, 1, at)
    {
      i, next, ok := 1, at, true;
      while i < size && next < bitSize
        invariant at <= next <= bitSize && ok
        invariant Inner(Bits(), value, size, i, next) == Inner(Bits(), value, size, 1, at)
        decreases bitSize - next
      {
        var b := Bit(next);
        next := next + 1;
        if b != value {
          return i, next, false;
        }
        i := i + 1;
      }
    }
  }
}

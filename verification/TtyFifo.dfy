/** The ring buffer of src/kernel32/device/tty.c: a bounded queue. */
module TtyFifo {
  // tty_fifo_put and tty_fifo_get on the queue of bytes.
  function FifoPut(q: seq<bv8>, size: nat, c: bv8): (seq<bv8>, int) {
    if |q| >= size then (q, -1) else (q + [c], 0)
  }

  function FifoGet(q: seq<bv8>): (seq<bv8>, int) {
    if q == [] then (q, -1) else (q[1..], 0)
  }

  // Position k places after read, in a ring of n.
  function Around(read: nat, k: nat, n: nat): (i: nat)
    requires read < n && k <= n
    ensures i < n
  {
    if read + k < n then read + k else read + k - n
  }

  class Fifo {
    var buf: array<bv8>
    var size: nat
    var read: nat
    var write: nat
    var count: nat

    ghost predicate Valid()
      reads this
    {
      && size == buf.Length && count <= size
      && if size == 0 then read == write == 0 else read < size && write == Around(read, count, size)
    }

    /** The bytes waiting, oldest first. */
    ghost function Contents(): (q: seq<bv8>)
      requires Valid()
      reads this, buf
      ensures |q| == count && forall k | 0 <= k < count :: q[k] == buf[Around(read, k, size)]
    {
      seq(count, k requires Valid() && 0 <= k < count reads this, buf => buf[Around(read, k, size)])
    }

    // tty_fifo_init
    constructor (buf: array<bv8>)
      ensures Valid() && Contents() == [] && this.buf == buf
    {
      this.buf := buf;
      size := buf.Length;
      read, write, count := 0, 0, 0;
    }

    // tty_fifo_put
    method PutByte(c: bv8) returns (err: int)
      requires Valid()
      modifies this`write, this`count, buf
      ensures Valid() && (Contents(), err) == FifoPut(old(Contents()), size, c)
    {
      if count >= size {
        return -1;
      }
      ghost var was := Contents();
      buf[write] := c;
      write := write + 1;
      if write >= size {
        write := 0;
      }
      count := count + 1;
      assert Contents() == was + [c];
      return 0;
    }

    // tty_fifo_get; an empty buffer leaves the caller's byte alone.
    method GetByte(c: bv8) returns (err: int, r: bv8)
      requires Valid()
      modifies this`read, this`count
      ensures Valid() && (Contents(), err) == FifoGet(old(Contents()))
      ensures r == if old(Contents()) == [] then c else old(Contents())[0]
    {
      if count <= 0 {
        return -1, c;
      }
      ghost var was := Contents();
      r := buf[read];
      read := read + 1;
      if read >= size {
        read := 0;
      }
      count := count - 1;
      assert Contents() == was[1..];
      err := 0;
    }
  }
}

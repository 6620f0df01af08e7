/** Taking and releasing single frames over whole runs: the bitmap is the set of live frames. */
module FrameRuns {
  import opened Wrappers
  import opened PageLayout
  import opened FrameBits
  import opened Memory32

  datatype Call = Take | Release(f: nat)

  /** Memory with the frames that have been handed out and not released since. */
  datatype Pool = Pool(phys: Phys, live: set<nat>)

  function Step(p: Pool, c: Call): Pool {
    match c
    case Take =>
      var (s, f) := AllocPage(p.phys);
      Pool(s, if f.Some? then p.live + {f.value} else p.live)
    case Release(f) => Pool(FreePage(p.phys, f), p.live - {f})
  }

  function Run(p: Pool, calls: seq<Call>): Pool
    decreases |calls|
  {
    if calls == [] then p else Run(Step(p, calls[0]), calls[1..])
  }

  // A bitmap of n clear bits.
  function Empty(ram: seq<Page>, n: nat): Pool { Pool(Phys(ram, seq(n, _ => false)), {}) }

  ghost predicate Exact(p: Pool) { forall f: nat :: Used(p.phys, f) <==> f in p.live }

  lemma {:induction false} RunExact(p: Pool, calls: seq<Call>)
    requires Exact(p)
    ensures Exact(Run(p, calls)) && |Run(p, calls).phys.used| == |p.phys.used|
    decreases |calls|
  {
    if calls == [] {
    } else {
      RunExact(Step(p, calls[0]), calls[1..]);
    }
  }

  /** After any run from an empty map: no frame is handed out twice while live, the one handed out is the lowest that is
      not, and none is refused unless all are live. */
  lemma NeverTwice(ram: seq<Page>, n: nat, calls: seq<Call>)
    ensures var p := Run(Empty(ram, n), calls);
      var f := AllocPage(p.phys).1;
      && (f.Some? ==> f.value !in p.live && FIRST <= f.value < FIRST + n
                      && forall g: nat | FIRST <= g < f.value :: g in p.live)
      && (f.None? <==> forall g: nat | FIRST <= g < FIRST + n :: g in p.live)
  {
    RunExact(Empty(ram, n), calls);
    var p := Run(Empty(ram, n), calls);
    var i := LowestClear(p.phys.used, 0);
    forall g: nat | FIRST <= g < FIRST + i
      ensures g in p.live
    {
      assert p.phys.used[g - FIRST];
      assert Used(p.phys, g);
    }
    if i < n {
      assert !Used(p.phys, FIRST + i);
    }
  }
}

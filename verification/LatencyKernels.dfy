/**
 * mem_latency/{global,constant,local}_latency.cl: the three device kernels. A run of 128
 * consecutive `next = input[next]` lines is one counted loop here, and so is the run of 32 copies.
 */
module LatencyKernels {
  import opened Words
  import opened PointerChase

  /** Adding to an unsigned accumulator that has already wrapped. */
  lemma WrapAdd(x: nat, y: nat)
    ensures Wrap32(Wrap32(x) + y) == Wrap32(x + y)
  {
    WrapShift(Wrap32(x) + y, x / TWO_32);
  }

  lemma WrapShift(x: nat, q: nat)
    ensures Wrap32(x + TWO_32 * q) == Wrap32(x)
  {
    var k := x / TWO_32;
    assert x + TWO_32 * q == TWO_32 * (k + q) + Wrap32(x);
  }

  /** Factors may be reduced to 32 bits before multiplying. */
  lemma WrapMul(x: nat, y: nat)
    ensures Wrap32(Wrap32(x) * y) == Wrap32(x * y)
  {
    var q := x / TWO_32;
    assert x * y == (TWO_32 * q + Wrap32(x)) * y == Wrap32(x) * y + TWO_32 * (q * y);
    WrapShift(Wrap32(x) * y, q * y);
  }

  /** `expected_result *= iterations`: a 64-bit product cut down to 32 bits. */
  lemma WrapProduct(x: nat, y: nat)
    ensures Wrap32(Wrap64(Wrap32(x) * y)) == Wrap32(y * x)
  {
    var p := Wrap32(x) * y;
    assert p == Wrap64(p) + TWO_32 * (TWO_32 * (p / TWO_64));
    WrapShift(Wrap64(p), TWO_32 * (p / TWO_64));
    WrapMul(x, y);
  }

  /** One more pass: its checksum and its loads are added. */
  lemma OneMorePass(i: nat, perPass: nat, length: nat)
    ensures (i + 1) * perPass == i * perPass + perPass && (i + 1) * length == i * length + length
  {
  }

  /**
   * The traversal common to the three kernels (global_latency.cl lines 7 to 144). `loads` counts
   * the dependent loads.
   */
  method Chase(input: seq<nat>, iterations: nat) returns (result: nat, ghost loads: nat)
    requires OneCycle(input) && |input| % BLOCK == 0
    ensures result == Wrap32(iterations * Checksum(input, |input| / BLOCK))
    ensures loads == iterations * |input|
  {
    ghost var perPass := Checksum(input, |input| / BLOCK);
    var res, next := 0, 0;
    loads := 0;
    for i := 0 to iterations
      invariant next == 0 && res == Wrap32(i * perPass) && loads == i * |input|
    {
      res, next, loads := OnePass(input, next, res, i * perPass, loads);
      OneMorePass(i, perPass, |input|);
    }
    result := res;
  }

  /** The do-while loop: `sofar` is the checksum up to now, before the accumulator wrapped. */
  method OnePass(input: seq<nat>, start: nat, sum: nat, ghost sofar: nat, ghost before: nat)
    returns (res: nat, next: nat, ghost loads: nat)
    requires OneCycle(input) && |input| % BLOCK == 0 && start == 0 && sum == Wrap32(sofar)
    ensures next == 0 && res == Wrap32(sofar + Checksum(input, |input| / BLOCK)) && loads == before + |input|
  {
    ghost var blocks: nat := 0;
    res, next, loads := sum, start, before;
    while true
      invariant BLOCK * blocks < |input| && next == Walk(input, BLOCK * blocks)
      invariant res == Wrap32(sofar + Checksum(input, blocks)) && loads == before + BLOCK * blocks
      decreases |input| - BLOCK * blocks
    {
      next, loads := LoadBlock(input, next, BLOCK * blocks, loads);
      WrapAdd(sofar + Checksum(input, blocks), next);
      res := Wrap32(res + next);
      blocks := blocks + 1;
      if next == 0 {
        break;
      }
    }
    assert blocks == |input| / BLOCK;
  }

  /** The 128 lines `next = input[next]` of one pass through the do-while body. */
  method LoadBlock(input: seq<nat>, start: nat, ghost done: nat, ghost loads: nat)
    returns (next: nat, ghost total: nat)
    requires Closed(input) && start == Walk(input, done)
    ensures next == Walk(input, done + BLOCK) && total == loads + BLOCK
  {
    next, total := start, loads;
    for j := 0 to BLOCK
      invariant next == Walk(input, done + j) && total == loads + j
    {
      next := input[next];
      total := total + 1;
    }
  }

  /** local_latency.cl: copy the whole array to local memory, then chase. */
  method LocalLatency(input: seq<nat>, iterations: nat) returns (result: nat, ghost loads: nat)
    requires OneCycle(input) && |input| % BLOCK == 0
    requires |input| < 0x8000_0000 && iterations < 0x8000_0000
    ensures result == Wrap32(iterations * Checksum(input, |input| / BLOCK))
    ensures loads == iterations * |input|
  {
    var shared := CopyToLocal(input, |input| / 32);
    result, loads := Chase(shared[..], iterations);
  }

  /** local_latency.cl lines 9 to 76: 32 elements at a time. */
  method CopyToLocal(input: seq<nat>, ghost blocks: nat) returns (shared: array<nat>)
    requires |input| == 32 * blocks
    ensures fresh(shared) && shared[..] == input
  {
    shared := new nat[|input|];
    var i := 0;
    ghost var block := 0;
    while i < |input|
      invariant i == 32 * block <= |input| && shared[..i] == input[..i]
      decreases |input| - i
    {
      i := CopyBlock(input, shared, i);
      block := block + 1;
    }
    assert shared[..] == input;
  }

  /** The 32 pairs of lines `shared[i] = input[i]; ++i`. */
  method CopyBlock(input: seq<nat>, shared: array<nat>, start: nat) returns (i: nat)
    requires shared.Length == |input| && start + 32 <= |input| && shared[..start] == input[..start]
    modifies shared
    ensures i == start + 32 && shared[..i] == input[..i]
  {
    i := start;
    for j := 0 to 32
      invariant i == start + j && shared[..i] == input[..i]
    {
      shared[i] := input[i];
      i := i + 1;
    }
  }
}

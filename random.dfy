/**
 * The xoroshiro128+ generator of core.cpp (after Blackman and Vigna):
 * `ROTL`, `NEXT`, `JUMP`, `LONG_JUMP`, `create_default_random` and the
 * `random_*` draws.  The generator state is the two 64-bit words of
 * `Random_Data`; all arithmetic is on `bv64`, so additions wrap modulo 2^64
 * exactly as `u64` does.
 */
module Random {

  /** The value of a `Random_Data`: `seed_low` and `seed_high`. */
  datatype Seed = Seed(low: bv64, high: bv64)

  /** The seed `create_default_random` installs. */
  const DEFAULT_SEED: Seed := Seed(0x357638792F423F45, 0x635266556A586E32)

  /** The jump polynomials, two 64-bit words each. */
  const JUMP_TABLE: seq<bv64> := [0xdf900294d8f554a5, 0x170865df4b3201fc]
  const LONG_JUMP_TABLE: seq<bv64> := [0xd2a98b26625eee7b, 0xdddf9b1090aa7ac1]

  /** `ROTL(v, nbit)`: rotate left; only called with 0 < nbit < 64. */
  function Rotl(v: bv64, nbit: bv8): (r: bv64)
    requires 0 < nbit < 64
  {
    (v << nbit) | (v >> (64 - nbit))
  }

  /** The two rotations `NEXT` uses are undone by rotating on by the rest of the word. */
  lemma RotlInverse(v: bv64)
    ensures Rotl(Rotl(v, 24), 40) == v
    ensures Rotl(Rotl(v, 37), 27) == v
  {
  }

  /** The value `NEXT` returns for a state: the wrapping sum of both words. */
  function Output(s: Seed): bv64
  {
    s.low + s.high
  }

  /** The state `NEXT` leaves behind. */
  function Successor(s: Seed): Seed
  {
    var high := s.high ^ s.low;
    Seed(Rotl(s.low, 24) ^ high ^ (high << 16), Rotl(high, 37))
  }

  /** The all-zero state is a fixed point of `NEXT`, which is why the seeds must not both be zero. */
  lemma ZeroIsFixed()
    ensures Successor(Seed(0, 0)) == Seed(0, 0) && Output(Seed(0, 0)) == 0
  {
  }

  /**
   * The first draw after `create_default_random`: its value, the state it
   * leaves, and the byte `random_char` takes from it.
   */
  lemma DefaultFirstDraw()
    ensures Output(DEFAULT_SEED) == 0x98C89ECE999AAD77
    ensures Successor(DEFAULT_SEED) == Seed(0x712759095158274F, 0xA34A2EEAC48BC588)
    ensures CharOf(DEFAULT_SEED) == 0x98
  {
  }

  /** The byte `random_char` takes from the draw of state `s`: the top eight bits. */
  function CharOf(s: Seed): (c: bv8)
    ensures c as bv64 == Output(s) >> 56
  {
    (Output(s) >> 56) as bv8
  }

  /** Word-wise exclusive or of two states. */
  function Xor(a: Seed, b: Seed): Seed
  {
    Seed(a.low ^ b.low, a.high ^ b.high)
  }

  /** `n` consecutive calls of `NEXT`. */
  function Iterate(s: Seed, n: nat): Seed
    decreases n
  {
    if n == 0 then s else Iterate(Successor(s), n - 1)
  }

  /** Whether bit `ibit` of `word` is set: `word & u64(1) << ibit`. */
  predicate BitSet(word: bv64, ibit: bv8)
    requires ibit < 64
  {
    word & ((1 as bv64) << ibit) != 0
  }

  /**
   * The rest of one 64-iteration loop of `JUMP` from bit `ibit` on: `acc`
   * collects the exclusive or of the states at the set bits of `word`, and
   * the state advances by one `NEXT` per bit.  The result is (acc, state).
   */
  function JumpPass(word: bv64, ibit: bv8, acc: Seed, s: Seed): (Seed, Seed)
    requires ibit <= 64
    decreases 64 - ibit as int
  {
    if ibit == 64 then (acc, s)
    else JumpPass(word, ibit + 1, if BitSet(word, ibit) then Xor(acc, s) else acc, Successor(s))
  }

  /** The state `JUMP` (or `LONG_JUMP`, with its own table) installs: two passes, the accumulator starting at zero. */
  function JumpFrom(table: seq<bv64>, s: Seed): Seed
    requires |table| == 2
  {
    var first := JumpPass(table[0], 0, Seed(0, 0), s);
    JumpPass(table[1], 0, first.0, first.1).0
  }

  /** A pass from bit `ibit` calls `NEXT` exactly `64 - ibit` times. */
  lemma {:induction false} JumpPassAdvances(word: bv64, ibit: bv8, acc: Seed, s: Seed)
    requires ibit <= 64
    ensures JumpPass(word, ibit, acc, s).1 == Iterate(s, 64 - ibit as int)
    decreases 64 - ibit as int
  {
    if ibit < 64 {
      JumpPassAdvances(word, ibit + 1, if BitSet(word, ibit) then Xor(acc, s) else acc, Successor(s));
    }
  }

  /** The two passes of a jump drive the discarded generator state forward by exactly 128 `NEXT` calls. */
  lemma JumpAdvances(table: seq<bv64>, s: Seed)
    requires |table| == 2
    ensures JumpPass(table[0], 0, Seed(0, 0), s).1 == Iterate(s, 64)
    ensures var first := JumpPass(table[0], 0, Seed(0, 0), s);
            JumpPass(table[1], 0, first.0, first.1).1 == Iterate(s, 128)
  {
    var first := JumpPass(table[0], 0, Seed(0, 0), s);
    JumpPassAdvances(table[0], 0, Seed(0, 0), s);
    JumpPassAdvances(table[1], 0, first.0, first.1);
    IterateAdd(s, 64, 64);
  }

  /** Iterating `m` then `n` times is iterating `m + n` times. */
  lemma {:induction false} IterateAdd(s: Seed, m: nat, n: nat)
    ensures Iterate(Iterate(s, m), n) == Iterate(s, m + n)
    decreases m
  {
    if m > 0 {
      IterateAdd(Successor(s), m - 1, n);
    }
  }

  /** The zero state jumps to zero. */
  lemma {:induction false} JumpPassZero(word: bv64, ibit: bv8)
    requires ibit <= 64
    ensures JumpPass(word, ibit, Seed(0, 0), Seed(0, 0)) == (Seed(0, 0), Seed(0, 0))
    decreases 64 - ibit as int
  {
    if ibit < 64 {
      assert Successor(Seed(0, 0)) == Seed(0, 0);
      assert Xor(Seed(0, 0), Seed(0, 0)) == Seed(0, 0);
      JumpPassZero(word, ibit + 1);
    }
  }

  /** Neither jump can leave the all-zero state. */
  lemma JumpFromZero(table: seq<bv64>)
    requires |table| == 2
    ensures JumpFrom(table, Seed(0, 0)) == Seed(0, 0)
  {
    JumpPassZero(table[0], 0);
    JumpPassZero(table[1], 0);
  }

  /** `Random_Data` as the object `NEXT` and the jumps update in place. */
  class RandomData {
    /** `seed_low` and `seed_high`. */
    var seed: Seed
    /** How many times `NEXT` has run on this object. */
    ghost var draws: nat

    constructor (seed: Seed)
      ensures this.seed == seed && draws == 0
    {
      this.seed := seed;
      draws := 0;
    }

    /** `create_default_random`: installs the fixed default seed. */
    method CreateDefault()
      modifies this
      ensures seed == DEFAULT_SEED && draws == old(draws)
    {
      seed := Seed(0x357638792F423F45, 0x635266556A586E32);
    }

    /** `xoroshiro128P_NEXT`: returns the sum of the old words and advances the state. */
    method Next() returns (r: bv64)
      modifies this
      ensures r == Output(old(seed))
      ensures seed == Successor(old(seed))
      ensures draws == old(draws) + 1
    {
      r := Output(seed);
      seed := Successor(seed);
      draws := draws + 1;
    }

    /** The inner loop of `JUMP` and `LONG_JUMP` over the 64 bits of one table word. */
    method JumpWord(word: bv64, acc0: Seed) returns (acc: Seed)
      modifies this
      ensures (acc, seed) == JumpPass(word, 0, acc0, old(seed))
      ensures draws == old(draws) + 64
    {
      acc := acc0;
      var ibit: bv8 := 0;
      while ibit != 64
        invariant ibit <= 64
        invariant JumpPass(word, ibit, acc, seed) == JumpPass(word, 0, acc0, old(seed))
        invariant draws == old(draws) + ibit as int
        decreases 64 - ibit as int
      {
        if BitSet(word, ibit) {
          acc := Xor(acc, seed);
        }
        var discarded := Next();
        ibit := ibit + 1;
      }
    }

    /** The loop shared by `JUMP` and `LONG_JUMP`, over `table`'s two words. */
    method JumpBy(table: seq<bv64>)
      requires |table| == 2
      modifies this
      ensures seed == JumpFrom(table, old(seed))
      ensures draws == old(draws) + 128
    {
      var acc := JumpWord(table[0], Seed(0, 0));
      acc := JumpWord(table[1], acc);
      seed := acc;
    }

    /** `xoroshiro128P_JUMP`. */
    method Jump()
      modifies this
      ensures seed == JumpFrom(JUMP_TABLE, old(seed))
      ensures draws == old(draws) + 128
    {
      JumpBy(JUMP_TABLE);
    }

    /** `xoroshiro128P_LONG_JUMP`. */
    method LongJump()
      modifies this
      ensures seed == JumpFrom(LONG_JUMP_TABLE, old(seed))
      ensures draws == old(draws) + 128
    {
      JumpBy(LONG_JUMP_TABLE);
    }

    /** `random_char`: the top 8 bits of one draw (as a bit pattern). */
    method RandomChar() returns (c: bv8)
      modifies this
      ensures c == CharOf(old(seed))
      ensures seed == Successor(old(seed)) && draws == old(draws) + 1
    {
      var r := Next();
      c := (r >> 56) as bv8;
    }

    /** `random_short`: the top 16 bits of one draw. */
    method RandomShort() returns (c: bv16)
      modifies this
      ensures c as bv64 == Output(old(seed)) >> 48
      ensures seed == Successor(old(seed)) && draws == old(draws) + 1
    {
      var r := Next();
      c := (r >> 48) as bv16;
    }

    /** `random_int`: the top 32 bits of one draw. */
    method RandomInt() returns (c: bv32)
      modifies this
      ensures c as bv64 == Output(old(seed)) >> 32
      ensures seed == Successor(old(seed)) && draws == old(draws) + 1
    {
      var r := Next();
      c := (r >> 32) as bv32;
    }

    /** `random_int64`: the whole draw. */
    method RandomInt64() returns (c: bv64)
      modifies this
      ensures c == Output(old(seed))
      ensures seed == Successor(old(seed)) && draws == old(draws) + 1
    {
      c := Next();
    }
  }
}

/**
 * What the interpreter of main.cpp guarantees, proved about the value model
 * of `Chip8Spec`: the instruction encoding, the sprite draw, the flag
 * arithmetic, the memory and stack instructions, the key wait and the loop.
 */
module Chip8Properties {
  import opened Random
  import opened Chip8Spec

  // ---- instruction words ----

  /**
   * The instructions some word decodes to: the well-formed ones, where an
   * unknown instruction carries a word that no opcode claims.
   */
  predicate Decodable(ins: Instr)
  {
    WfInstr(ins) && (ins.Unknown? ==> Decode(ins.hi, ins.lo) == ins)
  }

  /** Every decodable instruction has a word that decodes back to it. */
  lemma DecodeEncode(ins: Instr)
    requires Decodable(ins)
    ensures Encode(ins).0 < 256 && Encode(ins).1 < 256
    ensures Decode(Encode(ins).0, Encode(ins).1) == ins
  {
    if ins.Unknown? {
    } else if ins.Cls? || ins.Ret? || ins.Jp? || ins.Call? || ins.LdI? || ins.JpV0? {
      DecodeEncodeFlow(ins);
    } else if ins.SeByte? || ins.SneByte? || ins.LdByte? || ins.AddByte? || ins.Rnd? {
      DecodeEncodeByteOperand(ins);
    } else if ins.SeReg? || ins.SneReg? || ins.LdReg? || ins.Or? || ins.And? || ins.Xor? {
      DecodeEncodeRegisterPair(ins);
    } else if ins.AddReg? || ins.Sub? || ins.Shr? || ins.Subn? || ins.Shl? || ins.Drw? {
      DecodeEncodeArith(ins);
    } else if ins.Skp? || ins.Sknp? || ins.LdVxDt? || ins.LdKey? || ins.LdDtVx? || ins.LdStVx? {
      DecodeEncodeTimer(ins);
    } else {
      DecodeEncodeMemory(ins);
    }
  }

  /** The round trip for the flow instructions and `Annn`. */
  lemma DecodeEncodeFlow(ins: Instr)
    requires WfInstr(ins) && (ins.Cls? || ins.Ret? || ins.Jp? || ins.Call? || ins.LdI? || ins.JpV0?)
    ensures Encode(ins).0 < 256 && Encode(ins).1 < 256
    ensures Decode(Encode(ins).0, Encode(ins).1) == ins
  {
  }

  /** The round trip for the instructions with a register and a byte. */
  lemma DecodeEncodeByteOperand(ins: Instr)
    requires WfInstr(ins) && (ins.SeByte? || ins.SneByte? || ins.LdByte? || ins.AddByte? || ins.Rnd?)
    ensures Encode(ins).0 < 256 && Encode(ins).1 < 256
    ensures Decode(Encode(ins).0, Encode(ins).1) == ins
  {
  }

  /** The round trip for the register-pair tests and the logic instructions. */
  lemma DecodeEncodeRegisterPair(ins: Instr)
    requires WfInstr(ins) && (ins.SeReg? || ins.SneReg? || ins.LdReg? || ins.Or? || ins.And? || ins.Xor?)
    ensures Encode(ins).0 < 256 && Encode(ins).1 < 256
    ensures Decode(Encode(ins).0, Encode(ins).1) == ins
  {
  }

  /** The round trip for the carrying and shifting instructions and the draw. */
  lemma DecodeEncodeArith(ins: Instr)
    requires WfInstr(ins) && (ins.AddReg? || ins.Sub? || ins.Shr? || ins.Subn? || ins.Shl? || ins.Drw?)
    ensures Encode(ins).0 < 256 && Encode(ins).1 < 256
    ensures Decode(Encode(ins).0, Encode(ins).1) == ins
  {
  }

  /** The round trip for the key and timer instructions. */
  lemma DecodeEncodeTimer(ins: Instr)
    requires WfInstr(ins) && (ins.Skp? || ins.Sknp? || ins.LdVxDt? || ins.LdKey? || ins.LdDtVx? || ins.LdStVx?)
    ensures Encode(ins).0 < 256 && Encode(ins).1 < 256
    ensures Decode(Encode(ins).0, Encode(ins).1) == ins
  {
  }

  /** The round trip for the instructions on memory at I. */
  lemma DecodeEncodeMemory(ins: Instr)
    requires WfInstr(ins) && (ins.AddI? || ins.LdFont? || ins.LdBcd? || ins.Store? || ins.Load?)
    ensures Encode(ins).0 < 256 && Encode(ins).1 < 256
    ensures Decode(Encode(ins).0, Encode(ins).1) == ins
  {
  }

  /** Decoding loses nothing: re-encoding a decoded word gives the word back, so distinct words decode differently. */
  lemma EncodeDecode(hi: nat, lo: nat)
    requires hi < 256 && lo < 256
    ensures Encode(Decode(hi, lo)) == (hi, lo)
    ensures Decodable(Decode(hi, lo))
  {
    DecodeWf(hi, lo);
    if hi / 16 <= 3 {
      EncodeDecodeFlow(hi, lo);
    } else if hi / 16 <= 7 {
      EncodeDecodeRegisters(hi, lo);
    } else if hi / 16 <= 8 {
      EncodeDecodeArith(hi, lo);
    } else if hi / 16 <= 13 {
      EncodeDecodeOperands(hi, lo);
    } else {
      EncodeDecodeSystem(hi, lo);
    }
  }

  /** The round trip for high nibbles 0 to 3: the flow instructions and the byte tests. */
  lemma EncodeDecodeFlow(hi: nat, lo: nat)
    requires hi < 256 && lo < 256 && hi / 16 <= 3
    ensures Encode(Decode(hi, lo)) == (hi, lo)
  {
  }

  /** The round trip for high nibbles 4 to 7: the register tests and loads. */
  lemma EncodeDecodeRegisters(hi: nat, lo: nat)
    requires hi < 256 && lo < 256 && 4 <= hi / 16 <= 7
    ensures Encode(Decode(hi, lo)) == (hi, lo)
  {
  }

  /** The round trip for high nibbles 8: the register arithmetic. */
  lemma EncodeDecodeArith(hi: nat, lo: nat)
    requires hi < 256 && lo < 256 && hi / 16 == 8
    ensures Encode(Decode(hi, lo)) == (hi, lo)
  {
  }

  /** The round trip for high nibbles 9 to 0xD: the addresses, the random byte and the draw. */
  lemma EncodeDecodeOperands(hi: nat, lo: nat)
    requires hi < 256 && lo < 256 && 9 <= hi / 16 <= 13
    ensures Encode(Decode(hi, lo)) == (hi, lo)
  {
  }

  /** The round trip for high nibbles 0xE and 0xF: the keys, timers and memory at I. */
  lemma EncodeDecodeSystem(hi: nat, lo: nat)
    requires hi < 256 && lo < 256 && 14 <= hi / 16 <= 15
    ensures Encode(Decode(hi, lo)) == (hi, lo)
  {
  }

  // ---- the sprite draw ----

  /** What one pass XORs into byte `j`: its row value inside its rows, nothing elsewhere. */
  function Contribution(base: nat, vals: seq<bv8>, j: nat): bv8
  {
    if base <= j < base + |vals| then vals[j - base] else 0
  }

  lemma XorPassPointwise(screen: seq<bv8>, base: nat, vals: seq<bv8>, j: nat)
    requires base + |vals| <= |screen| && j < |screen|
    ensures XorPass(screen, base, vals)[j] == screen[j] ^ Contribution(base, vals, j)
  {
  }

  /**
   * The byte the whole draw XORs into screen byte `j`: the four passes
   * together, which depends on the position and the sprite only.
   */
  function PassesMask(baseL: nat, baseR: nat, y: nat, a: nat, left: seq<bv8>, right: seq<bv8>, spill: bool, j: nat): bv8
    requires a <= |left| == |right|
  {
    var l := Contribution(baseL + y, left[..a], j) ^ Contribution(baseL, left[a..], j);
    var r := Contribution(baseR + y, right[..a], j) ^ Contribution(baseR, right[a..], j);
    if spill then l ^ r else l
  }

  function DrawMask(x: nat, y: nat, sprite: seq<bv8>, j: nat): bv8
    requires x < SCREEN_WIDTH && y < SCREEN_HEIGHT && |sprite| < SCREEN_HEIGHT
  {
    var bit := (x % 8) as bv8;
    PassesMask(DrawLeft(x) * SCREEN_HEIGHT, DrawRight(x) * SCREEN_HEIGHT, y, DirectRows(y, |sprite|),
               ShiftedRight(sprite, bit), ShiftedLeft(sprite, 8 - bit), bit != 0, j)
  }

  /** Two passes in a row XOR both their contributions into byte `j`. */
  lemma TwoPassesPointwise(screen: seq<bv8>, p: nat, vp: seq<bv8>, q: nat, vq: seq<bv8>, j: nat)
    requires p + |vp| <= |screen| && q + |vq| <= |screen| && j < |screen|
    ensures XorPass(XorPass(screen, p, vp), q, vq)[j]
            == screen[j] ^ (Contribution(p, vp, j) ^ Contribution(q, vq, j))
  {
    var s1 := XorPass(screen, p, vp);
    XorPassPointwise(screen, p, vp, j);
    XorPassPointwise(s1, q, vq, j);
    XorAssoc(screen[j], Contribution(p, vp, j), Contribution(q, vq, j));
  }

  lemma PassesPointwise(screen: seq<bv8>, baseL: nat, baseR: nat, y: nat, a: nat,
                        left: seq<bv8>, right: seq<bv8>, spill: bool, j: nat)
    requires |screen| == SCREEN_BYTES && a <= |left| == |right|
    requires baseL + y + a <= SCREEN_BYTES && baseL + (|left| - a) <= SCREEN_BYTES
    requires baseR + y + a <= SCREEN_BYTES && baseR + (|right| - a) <= SCREEN_BYTES
    requires j < SCREEN_BYTES
    ensures DrawPasses(screen, baseL, baseR, y, a, left, right, spill).0[j]
            == screen[j] ^ PassesMask(baseL, baseR, y, a, left, right, spill, j)
  {
    // The passes are combined through `TwoPassesPointwise`; what each
    // pass computes is not needed here.
    hide XorPass;
    hide Contribution;
    hide PassErases;
    var s2 := XorPass(XorPass(screen, baseL + y, left[..a]), baseL, left[a..]);
    var l := Contribution(baseL + y, left[..a], j) ^ Contribution(baseL, left[a..], j);
    TwoPassesPointwise(screen, baseL + y, left[..a], baseL, left[a..], j);
    if spill {
      var s4 := XorPass(XorPass(s2, baseR + y, right[..a]), baseR, right[a..]);
      var r := Contribution(baseR + y, right[..a], j) ^ Contribution(baseR, right[a..], j);
      assert DrawPasses(screen, baseL, baseR, y, a, left, right, spill).0 == s4;
      TwoPassesPointwise(s2, baseR + y, right[..a], baseR, right[a..], j);
      XorAssoc(screen[j], l, r);
    } else {
      assert DrawPasses(screen, baseL, baseR, y, a, left, right, spill).0 == s2;
    }
  }

  /** The draw XORs a fixed mask into the screen, byte by byte. */
  lemma DrawPointwise(screen: seq<bv8>, x: nat, y: nat, sprite: seq<bv8>, j: nat)
    requires |screen| == SCREEN_BYTES && x < SCREEN_WIDTH && y < SCREEN_HEIGHT && |sprite| < SCREEN_HEIGHT
    requires j < SCREEN_BYTES
    ensures DrawSprite(screen, x, y, sprite).0[j] == screen[j] ^ DrawMask(x, y, sprite, j)
  {
    var bit := (x % 8) as bv8;
    PassesPointwise(screen, DrawLeft(x) * SCREEN_HEIGHT, DrawRight(x) * SCREEN_HEIGHT, y, DirectRows(y, |sprite|),
                    ShiftedRight(sprite, bit), ShiftedLeft(sprite, 8 - bit), bit != 0, j);
  }

  lemma XorAssoc(a: bv8, b: bv8, c: bv8)
    ensures a ^ b ^ c == a ^ (b ^ c)
  {
  }

  /** Drawing the same sprite twice at the same place restores the screen: XOR drawing is its own inverse. */
  lemma DrawTwiceRestores(screen: seq<bv8>, x: nat, y: nat, sprite: seq<bv8>)
    requires |screen| == SCREEN_BYTES && x < SCREEN_WIDTH && y < SCREEN_HEIGHT && |sprite| < SCREEN_HEIGHT
    ensures DrawSprite(DrawSprite(screen, x, y, sprite).0, x, y, sprite).0 == screen
  {
    var once := DrawSprite(screen, x, y, sprite).0;
    var twice := DrawSprite(once, x, y, sprite).0;
    forall j | 0 <= j < SCREEN_BYTES
      ensures twice[j] == screen[j]
    {
      DrawPointwise(screen, x, y, sprite, j);
      DrawPointwise(once, x, y, sprite, j);
    }
  }

  /** Some pixel of byte `j` is on in `before` and off in `after`. */
  predicate Cleared(before: seq<bv8>, after: seq<bv8>, j: nat)
    requires j < |before| && j < |after|
  {
    before[j] & !after[j] != 0
  }

  /**
   * A pass whose rows still hold their original bytes when it runs, and end
   * up holding the original XOR its rows, erases exactly when one of its
   * rows has a pixel cleared overall.
   */
  predicate RowsSettled(prev: seq<bv8>, screen: seq<bv8>, final: seq<bv8>, base: nat, vals: seq<bv8>)
    requires base + |vals| <= |prev| && |prev| == |screen| == |final|
  {
    forall j :: base <= j < base + |vals| ==> prev[j] == screen[j] && final[j] == screen[j] ^ vals[j - base]
  }

  lemma PassErasesOnRegion(prev: seq<bv8>, screen: seq<bv8>, final: seq<bv8>, base: nat, vals: seq<bv8>)
    requires base + |vals| <= |prev| && |prev| == |screen| == |final|
    requires RowsSettled(prev, screen, final, base, vals)
    ensures PassErases(prev, base, vals) <==> exists j :: base <= j < base + |vals| && Cleared(screen, final, j)
  {
    if PassErases(prev, base, vals) {
      var k :| 0 <= k < |vals| && Clears(prev[base + k], vals[k]);
      assert (base + k) - base == k;
      assert Cleared(screen, final, base + k);
    }
    if exists j :: base <= j < base + |vals| && Cleared(screen, final, j) {
      var j :| base <= j < base + |vals| && Cleared(screen, final, j);
      var k := j - base;
      assert Clears(prev[base + k], vals[k]);
    }
  }

  /** Where the rows of the draw lie never overlap: the wrapped rows end above row `y`, and the columns differ. */
  predicate PassesDisjoint(baseL: nat, baseR: nat, y: nat, a: nat, n: nat)
  {
    && a <= n && n - a <= y && y + a <= SCREEN_HEIGHT
    && (baseL + SCREEN_HEIGHT <= baseR || baseR + SCREEN_HEIGHT <= baseL)
  }

  /**
   * With rows that do not overlap, the erasure flag of the four passes is
   * set exactly when the finished draw has turned some pixel off.
   */
  lemma PassesErasure(screen: seq<bv8>, baseL: nat, baseR: nat, y: nat, a: nat,
                      left: seq<bv8>, right: seq<bv8>, spill: bool)
    requires |screen| == SCREEN_BYTES && a <= |left| == |right|
    requires baseL + y + a <= SCREEN_BYTES && baseL + (|left| - a) <= SCREEN_BYTES
    requires baseR + y + a <= SCREEN_BYTES && baseR + (|right| - a) <= SCREEN_BYTES
    requires PassesDisjoint(baseL, baseR, y, a, |left|)
    ensures var r := DrawPasses(screen, baseL, baseR, y, a, left, right, spill);
            r.1 <==> exists j :: 0 <= j < SCREEN_BYTES && Cleared(screen, r.0, j)
  {
    var r := DrawPasses(screen, baseL, baseR, y, a, left, right, spill);
    var s1 := XorPass(screen, baseL + y, left[..a]);
    var s2 := XorPass(s1, baseL, left[a..]);
    var s3 := XorPass(s2, baseR + y, right[..a]);
    var s4 := XorPass(s3, baseR, right[a..]);
    PassScreensHold(screen, baseL, baseR, y, a, left, right);
    var final := if spill then s4 else s2;
    RegionRowsLeft(screen, s1, s2, s3, s4, baseL, baseR, y, a, left, right, spill);
    RegionWrappedLeft(screen, s1, s2, s3, s4, baseL, baseR, y, a, left, right, spill);
    if spill {
      RegionRowsRight(screen, s1, s2, s3, s4, baseL, baseR, y, a, left, right, spill);
      RegionWrappedRight(screen, s1, s2, s3, s4, baseL, baseR, y, a, left, right, spill);
    }
    forall j | 0 <= j < SCREEN_BYTES && Cleared(screen, final, j)
      ensures || baseL + y <= j < baseL + y + a || baseL <= j < baseL + (|left| - a)
              || (spill && (baseR + y <= j < baseR + y + a || baseR <= j < baseR + (|right| - a)))
    {
      ClearedInRows(screen, s1, s2, s3, s4, baseL, baseR, y, a, left, right, spill, j);
    }
    ErasureCombine(screen, s1, s2, s3, final, baseL, baseR, y, a, left, right, spill);
    assert r.0 == if spill then s4 else s2;
    assert r.1 == (PassErases(screen, baseL + y, left[..a]) || PassErases(s1, baseL, left[a..])
                   || (spill && (PassErases(s2, baseR + y, right[..a]) || PassErases(s3, baseR, right[a..]))));
  }

  lemma PassScreensHold(screen: seq<bv8>, baseL: nat, baseR: nat, y: nat, a: nat, left: seq<bv8>, right: seq<bv8>)
    requires |screen| == SCREEN_BYTES && a <= |left| == |right|
    requires baseL + y + a <= SCREEN_BYTES && baseL + (|left| - a) <= SCREEN_BYTES
    requires baseR + y + a <= SCREEN_BYTES && baseR + (|right| - a) <= SCREEN_BYTES
    ensures var s1 := XorPass(screen, baseL + y, left[..a]);
            var s2 := XorPass(s1, baseL, left[a..]);
            var s3 := XorPass(s2, baseR + y, right[..a]);
            PassScreens(screen, s1, s2, s3, XorPass(s3, baseR, right[a..]), baseL, baseR, y, a, left, right)
  {
    // Each pass is settled by `XorPassAll`; what a pass computes is not
    // needed to put the four together.
    hide XorPass, PassStep;
    var s1 := XorPass(screen, baseL + y, left[..a]);
    var s2 := XorPass(s1, baseL, left[a..]);
    var s3 := XorPass(s2, baseR + y, right[..a]);
    XorPassAll(screen, baseL + y, left[..a]);
    XorPassAll(s1, baseL, left[a..]);
    XorPassAll(s2, baseR + y, right[..a]);
    XorPassAll(s3, baseR, right[a..]);
  }

  /** `next` is `prev` with the rows `vals` from `base` XOR-ed in. */
  predicate PassStep(prev: seq<bv8>, next: seq<bv8>, base: nat, vals: seq<bv8>)
    requires |prev| == |next|
  {
    forall j :: 0 <= j < |prev| ==> next[j] == prev[j] ^ Contribution(base, vals, j)
  }

  lemma XorPassAll(screen: seq<bv8>, base: nat, vals: seq<bv8>)
    requires base + |vals| <= |screen|
    ensures PassStep(screen, XorPass(screen, base, vals), base, vals)
  {
    forall j | 0 <= j < |screen|
      ensures XorPass(screen, base, vals)[j] == screen[j] ^ Contribution(base, vals, j)
    {
      XorPassPointwise(screen, base, vals, j);
    }
  }

  /** The intermediate screens of the four passes. */
  predicate PassScreens(screen: seq<bv8>, s1: seq<bv8>, s2: seq<bv8>, s3: seq<bv8>, s4: seq<bv8>,
                        baseL: nat, baseR: nat, y: nat, a: nat, left: seq<bv8>, right: seq<bv8>)
    requires |screen| == |s1| == |s2| == |s3| == |s4| == SCREEN_BYTES && a <= |left| == |right|
  {
    && PassStep(screen, s1, baseL + y, left[..a])
    && PassStep(s1, s2, baseL, left[a..])
    && PassStep(s2, s3, baseR + y, right[..a])
    && PassStep(s3, s4, baseR, right[a..])
  }

  /**
   * The erasure argument once each pass is known to see the original bytes
   * of its rows and to leave them as the original XOR its row values, and
   * every cleared byte is known to lie in some pass's rows.
   */
  lemma ErasureCombine(screen: seq<bv8>, s1: seq<bv8>, s2: seq<bv8>, s3: seq<bv8>, final: seq<bv8>,
                       baseL: nat, baseR: nat, y: nat, a: nat, left: seq<bv8>, right: seq<bv8>, spill: bool)
    requires |screen| == |s1| == |s2| == |s3| == |final| == SCREEN_BYTES && a <= |left| == |right|
    requires baseL + y + a <= SCREEN_BYTES && baseL + (|left| - a) <= SCREEN_BYTES
    requires baseR + y + a <= SCREEN_BYTES && baseR + (|right| - a) <= SCREEN_BYTES
    requires RowsSettled(screen, screen, final, baseL + y, left[..a])
    requires RowsSettled(s1, screen, final, baseL, left[a..])
    requires spill ==> RowsSettled(s2, screen, final, baseR + y, right[..a])
    requires spill ==> RowsSettled(s3, screen, final, baseR, right[a..])
    requires forall j :: 0 <= j < SCREEN_BYTES && Cleared(screen, final, j) ==>
               || baseL + y <= j < baseL + y + a || baseL <= j < baseL + (|left| - a)
               || (spill && (baseR + y <= j < baseR + y + a || baseR <= j < baseR + (|right| - a)))
    ensures var flag := PassErases(screen, baseL + y, left[..a]) || PassErases(s1, baseL, left[a..])
                        || (spill && (PassErases(s2, baseR + y, right[..a]) || PassErases(s3, baseR, right[a..])));
            flag <==> exists j :: 0 <= j < SCREEN_BYTES && Cleared(screen, final, j)
  {
    // The argument is about which regions hold a cleared byte; the bits of
    // `Cleared` and `PassErases` are settled by `PassErasesOnRegion`.
    hide Cleared;
    hide PassErases;
    PassErasesOnRegion(screen, screen, final, baseL + y, left[..a]);
    PassErasesOnRegion(s1, screen, final, baseL, left[a..]);
    if spill {
      PassErasesOnRegion(s2, screen, final, baseR + y, right[..a]);
      PassErasesOnRegion(s3, screen, final, baseR, right[a..]);
    }
  }

  /** A byte no pass touches keeps its value, so a cleared pixel lies in the rows of some pass. */
  lemma ClearedInRows(screen: seq<bv8>, s1: seq<bv8>, s2: seq<bv8>, s3: seq<bv8>, s4: seq<bv8>,
                      baseL: nat, baseR: nat, y: nat, a: nat, left: seq<bv8>, right: seq<bv8>, spill: bool, j: nat)
    requires |screen| == |s1| == |s2| == |s3| == |s4| == SCREEN_BYTES && a <= |left| == |right|
    requires PassesDisjoint(baseL, baseR, y, a, |left|)
    requires PassScreens(screen, s1, s2, s3, s4, baseL, baseR, y, a, left, right)
    requires j < SCREEN_BYTES && Cleared(screen, if spill then s4 else s2, j)
    ensures || baseL + y <= j < baseL + y + a || baseL <= j < baseL + (|left| - a)
            || (spill && (baseR + y <= j < baseR + y + a || baseR <= j < baseR + (|right| - a)))
  {
    FactsOutside(screen, s1, s2, s3, s4, baseL, baseR, y, a, left, right, j);
  }

  lemma RegionRowsLeft(screen: seq<bv8>, s1: seq<bv8>, s2: seq<bv8>, s3: seq<bv8>, s4: seq<bv8>,
                          baseL: nat, baseR: nat, y: nat, a: nat, left: seq<bv8>, right: seq<bv8>, spill: bool)
    requires |screen| == |s1| == |s2| == |s3| == |s4| == SCREEN_BYTES && a <= |left| == |right|
    requires baseL + y + a <= SCREEN_BYTES && baseL + (|left| - a) <= SCREEN_BYTES
    requires baseR + y + a <= SCREEN_BYTES && baseR + (|right| - a) <= SCREEN_BYTES
    requires PassesDisjoint(baseL, baseR, y, a, |left|)
    requires PassScreens(screen, s1, s2, s3, s4, baseL, baseR, y, a, left, right)
    ensures RowsSettled(screen, screen, if spill then s4 else s2, baseL + y, left[..a])
  {
    forall j | baseL + y <= j < baseL + y + |left[..a]|
      ensures screen[j] == screen[j] && (if spill then s4 else s2)[j] == screen[j] ^ left[..a][j - (baseL + y)]
    {
      FactsRowsLeft(screen, s1, s2, s3, s4, baseL, baseR, y, a, left, right, j);
    }
  }


  lemma RegionWrappedLeft(screen: seq<bv8>, s1: seq<bv8>, s2: seq<bv8>, s3: seq<bv8>, s4: seq<bv8>,
                          baseL: nat, baseR: nat, y: nat, a: nat, left: seq<bv8>, right: seq<bv8>, spill: bool)
    requires |screen| == |s1| == |s2| == |s3| == |s4| == SCREEN_BYTES && a <= |left| == |right|
    requires baseL + y + a <= SCREEN_BYTES && baseL + (|left| - a) <= SCREEN_BYTES
    requires baseR + y + a <= SCREEN_BYTES && baseR + (|right| - a) <= SCREEN_BYTES
    requires PassesDisjoint(baseL, baseR, y, a, |left|)
    requires PassScreens(screen, s1, s2, s3, s4, baseL, baseR, y, a, left, right)
    ensures RowsSettled(s1, screen, if spill then s4 else s2, baseL, left[a..])
  {
    forall j | baseL <= j < baseL + |left[a..]|
      ensures s1[j] == screen[j] && (if spill then s4 else s2)[j] == screen[j] ^ left[a..][j - (baseL)]
    {
      FactsWrappedLeft(screen, s1, s2, s3, s4, baseL, baseR, y, a, left, right, j);
    }
  }


  lemma RegionRowsRight(screen: seq<bv8>, s1: seq<bv8>, s2: seq<bv8>, s3: seq<bv8>, s4: seq<bv8>,
                          baseL: nat, baseR: nat, y: nat, a: nat, left: seq<bv8>, right: seq<bv8>, spill: bool)
    requires |screen| == |s1| == |s2| == |s3| == |s4| == SCREEN_BYTES && a <= |left| == |right|
    requires baseL + y + a <= SCREEN_BYTES && baseL + (|left| - a) <= SCREEN_BYTES
    requires baseR + y + a <= SCREEN_BYTES && baseR + (|right| - a) <= SCREEN_BYTES
    requires PassesDisjoint(baseL, baseR, y, a, |left|)
    requires PassScreens(screen, s1, s2, s3, s4, baseL, baseR, y, a, left, right)
    requires spill
    ensures RowsSettled(s2, screen, if spill then s4 else s2, baseR + y, right[..a])
  {
    forall j | baseR + y <= j < baseR + y + |right[..a]|
      ensures s2[j] == screen[j] && (if spill then s4 else s2)[j] == screen[j] ^ right[..a][j - (baseR + y)]
    {
      FactsRowsRight(screen, s1, s2, s3, s4, baseL, baseR, y, a, left, right, j);
    }
  }


  lemma RegionWrappedRight(screen: seq<bv8>, s1: seq<bv8>, s2: seq<bv8>, s3: seq<bv8>, s4: seq<bv8>,
                          baseL: nat, baseR: nat, y: nat, a: nat, left: seq<bv8>, right: seq<bv8>, spill: bool)
    requires |screen| == |s1| == |s2| == |s3| == |s4| == SCREEN_BYTES && a <= |left| == |right|
    requires baseL + y + a <= SCREEN_BYTES && baseL + (|left| - a) <= SCREEN_BYTES
    requires baseR + y + a <= SCREEN_BYTES && baseR + (|right| - a) <= SCREEN_BYTES
    requires PassesDisjoint(baseL, baseR, y, a, |left|)
    requires PassScreens(screen, s1, s2, s3, s4, baseL, baseR, y, a, left, right)
    requires spill
    ensures RowsSettled(s3, screen, if spill then s4 else s2, baseR, right[a..])
  {
    forall j | baseR <= j < baseR + |right[a..]|
      ensures s3[j] == screen[j] && (if spill then s4 else s2)[j] == screen[j] ^ right[a..][j - (baseR)]
    {
      FactsWrappedRight(screen, s1, s2, s3, s4, baseL, baseR, y, a, left, right, j);
    }
  }


  // What each intermediate screen holds at one byte, by the pass whose rows contain it.

  lemma FactsRowsLeft(screen: seq<bv8>, s1: seq<bv8>, s2: seq<bv8>, s3: seq<bv8>, s4: seq<bv8>,
                  baseL: nat, baseR: nat, y: nat, a: nat, left: seq<bv8>, right: seq<bv8>, j: nat)
    requires |screen| == |s1| == |s2| == |s3| == |s4| == SCREEN_BYTES && a <= |left| == |right|
    requires PassesDisjoint(baseL, baseR, y, a, |left|)
    requires PassScreens(screen, s1, s2, s3, s4, baseL, baseR, y, a, left, right)
    requires j < SCREEN_BYTES
    requires baseL + y <= j < baseL + y + a
    ensures s4[j] == s2[j] == screen[j] ^ left[..a][j - baseL - y]
  {
  }

  lemma FactsWrappedLeft(screen: seq<bv8>, s1: seq<bv8>, s2: seq<bv8>, s3: seq<bv8>, s4: seq<bv8>,
                  baseL: nat, baseR: nat, y: nat, a: nat, left: seq<bv8>, right: seq<bv8>, j: nat)
    requires |screen| == |s1| == |s2| == |s3| == |s4| == SCREEN_BYTES && a <= |left| == |right|
    requires PassesDisjoint(baseL, baseR, y, a, |left|)
    requires PassScreens(screen, s1, s2, s3, s4, baseL, baseR, y, a, left, right)
    requires j < SCREEN_BYTES
    requires baseL <= j < baseL + (|left| - a)
    ensures s4[j] == s2[j] == screen[j] ^ left[a..][j - baseL] && s1[j] == screen[j]
  {
  }

  lemma FactsRowsRight(screen: seq<bv8>, s1: seq<bv8>, s2: seq<bv8>, s3: seq<bv8>, s4: seq<bv8>,
                  baseL: nat, baseR: nat, y: nat, a: nat, left: seq<bv8>, right: seq<bv8>, j: nat)
    requires |screen| == |s1| == |s2| == |s3| == |s4| == SCREEN_BYTES && a <= |left| == |right|
    requires PassesDisjoint(baseL, baseR, y, a, |left|)
    requires PassScreens(screen, s1, s2, s3, s4, baseL, baseR, y, a, left, right)
    requires j < SCREEN_BYTES
    requires baseR + y <= j < baseR + y + a
    ensures s4[j] == screen[j] ^ right[..a][j - baseR - y] && s2[j] == screen[j]
  {
  }

  lemma FactsWrappedRight(screen: seq<bv8>, s1: seq<bv8>, s2: seq<bv8>, s3: seq<bv8>, s4: seq<bv8>,
                  baseL: nat, baseR: nat, y: nat, a: nat, left: seq<bv8>, right: seq<bv8>, j: nat)
    requires |screen| == |s1| == |s2| == |s3| == |s4| == SCREEN_BYTES && a <= |left| == |right|
    requires PassesDisjoint(baseL, baseR, y, a, |left|)
    requires PassScreens(screen, s1, s2, s3, s4, baseL, baseR, y, a, left, right)
    requires j < SCREEN_BYTES
    requires baseR <= j < baseR + (|right| - a)
    ensures s4[j] == screen[j] ^ right[a..][j - baseR] && s3[j] == screen[j]
  {
  }

  lemma FactsOutside(screen: seq<bv8>, s1: seq<bv8>, s2: seq<bv8>, s3: seq<bv8>, s4: seq<bv8>,
                  baseL: nat, baseR: nat, y: nat, a: nat, left: seq<bv8>, right: seq<bv8>, j: nat)
    requires |screen| == |s1| == |s2| == |s3| == |s4| == SCREEN_BYTES && a <= |left| == |right|
    requires PassesDisjoint(baseL, baseR, y, a, |left|)
    requires PassScreens(screen, s1, s2, s3, s4, baseL, baseR, y, a, left, right)
    requires j < SCREEN_BYTES
    ensures !(baseL + y <= j < baseL + y + a || baseL <= j < baseL + (|left| - a)) ==> s2[j] == screen[j]
    ensures !(baseL + y <= j < baseL + y + a || baseL <= j < baseL + (|left| - a)
              || baseR + y <= j < baseR + y + a || baseR <= j < baseR + (|right| - a))
            ==> s4[j] == screen[j]
  {
  }

  /**
   * `VF` after `Dxyn` is 1 exactly when the draw turned some pixel off:
   * the erasure flag is a collision test on the whole sprite.
   */
  lemma DrawErasesIff(screen: seq<bv8>, x: nat, y: nat, sprite: seq<bv8>)
    requires |screen| == SCREEN_BYTES && x < SCREEN_WIDTH && y < SCREEN_HEIGHT && |sprite| < SCREEN_HEIGHT
    ensures var r := DrawSprite(screen, x, y, sprite);
            r.1 <==> exists j :: 0 <= j < SCREEN_BYTES && Cleared(screen, r.0, j)
  {
    var bit := (x % 8) as bv8;
    PassesErasure(screen, DrawLeft(x) * SCREEN_HEIGHT, DrawRight(x) * SCREEN_HEIGHT, y, DirectRows(y, |sprite|),
                  ShiftedRight(sprite, bit), ShiftedLeft(sprite, 8 - bit), bit != 0);
  }

  /** The digit 0 drawn at the top-left corner of a blank screen: its five rows, then blank bytes. */
  lemma FontZeroDrawn()
    ensures DrawSprite(Zeros(SCREEN_BYTES), 0, 0, FONT[..5]).0 == FONT[..5] + Zeros(SCREEN_BYTES - 5)
  {
    var blank := Zeros(SCREEN_BYTES);
    var first := DrawSprite(blank, 0, 0, FONT[..5]);
    forall j | 0 <= j < SCREEN_BYTES
      ensures first.0[j] == (FONT[..5] + Zeros(SCREEN_BYTES - 5))[j]
    {
      DrawPointwise(blank, 0, 0, FONT[..5], j);
    }
  }

  /**
   * The digit 0 drawn at the top-left corner of a blank screen lights the
   * bytes of its five rows without a collision; drawn a second time it
   * collides and leaves the screen blank again.
   */
  lemma FontZeroCollides()
    ensures var first := DrawSprite(Zeros(SCREEN_BYTES), 0, 0, FONT[..5]);
            && !first.1
            && first.0[..5] == [0xF0, 0x90, 0x90, 0x90, 0xF0]
            && var second := DrawSprite(first.0, 0, 0, FONT[..5]);
               second.1 && second.0 == Zeros(SCREEN_BYTES)
  {
    var blank := Zeros(SCREEN_BYTES);
    var first := DrawSprite(blank, 0, 0, FONT[..5]);
    FontZeroDrawn();
    assert FONT[..5] == [0xF0, 0x90, 0x90, 0x90, 0xF0];
    assert first.0[..5] == FONT[..5];
    DrawErasesIff(blank, 0, 0, FONT[..5]);
    DrawTwiceRestores(blank, 0, 0, FONT[..5]);
    DrawErasesIff(first.0, 0, 0, FONT[..5]);
    assert Cleared(first.0, blank, 0);
  }
}

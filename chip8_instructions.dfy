/**
 * Instruction by instruction, what the interpreter of main.cpp promises:
 * the flag arithmetic of `8xy4` to `8xyE`, the decimal digits of `Fx33`,
 * the memory footprint and round trip of `Fx55` / `Fx65`, the key wait of
 * `Fx0A`, the call / return pairing, and the checks that can never fire.
 * Two guards of the source are modelled as written beside the corrected
 * ones `Chip8Spec` uses.
 */
module Chip8Instructions {
  import opened Chip8Spec

  // ---- 8xy4 to 8xyE: the flag register ----

  /** The registers other than `Vx` and `VF` keep their values. */
  predicate OthersKept(before: seq<bv8>, after: seq<bv8>, x: nat)
    requires |before| == REGISTER_COUNT && |after| == REGISTER_COUNT
  {
    forall k :: 0 <= k < REGISTER_COUNT && k != x && k != FLAG ==> after[k] == before[k]
  }

  /**
   * `8xy4`: `Vx` is the low byte of the sum and `VF` its carry, so that
   * together they give the 16-bit sum exactly; nothing but `Vx` and `VF`
   * changes.
   */
  lemma AddRegCarry(m: Machine, x: nat, y: nat)
    requires Wf(m) && x < 16 && y < 16 && x != FLAG
    ensures var r := ExecuteArith(m, AddReg(x, y));
      && r.v[FLAG] <= 1
      && r.v[x] as bv16 + 256 * r.v[FLAG] as bv16 == m.v[x] as bv16 + m.v[y] as bv16
      && r.v[x] == m.v[x] + m.v[y]
      && OthersKept(m.v, r.v, x)
      && r.(v := m.v) == m
  {
    AddRegsSum(m.v, x, y);
    AddRegsKept(m.v, x, y);
  }

  lemma AddRegsSum(v: seq<bv8>, x: nat, y: nat)
    requires |v| == REGISTER_COUNT && x < 16 && y < 16 && x != FLAG
    ensures var r := AddRegs(v, x, y);
      && r[FLAG] <= 1
      && r[x] as bv16 + 256 * r[FLAG] as bv16 == v[x] as bv16 + v[y] as bv16
      && r[x] == v[x] + v[y]
  {
    CarryBits(v[x], v[y]);
  }

  lemma AddRegsKept(v: seq<bv8>, x: nat, y: nat)
    requires |v| == REGISTER_COUNT && x < 16 && y < 16
    ensures OthersKept(v, AddRegs(v, x, y), x)
  {
  }

  /** The 16-bit sum of two bytes is its low byte plus 256 times its carry. */
  lemma CarryBits(a: bv8, b: bv8)
    ensures var sum := a as bv16 + b as bv16;
      LowByte(sum) as bv16 + 256 * (if sum > 255 then 1 else 0) == sum && LowByte(sum) == a + b
  {
  }

  /** `8Fy4`: the sum is written over the carry, so the carry is lost. */
  lemma AddRegIntoFlag(m: Machine, y: nat)
    requires Wf(m) && y < 16
    ensures ExecuteArith(m, AddReg(FLAG, y)).v == m.v[FLAG := m.v[FLAG] + m.v[y]]
  {
    CarryBits(m.v[FLAG], m.v[y]);
  }

  /**
   * `8xy5` with neither operand `VF`: `Vx` becomes `Vx - Vy` in wrapping
   * 8-bit arithmetic and `VF` is 1 exactly when `Vx > Vy` (so it is 0 when
   * they are equal).
   */
  lemma SubBorrow(m: Machine, x: nat, y: nat)
    requires Wf(m) && x < 16 && y < 16 && x != FLAG && y != FLAG
    ensures var r := ExecuteArith(m, Sub(x, y));
      && (r.v[FLAG] == 1 <==> m.v[x] > m.v[y]) && r.v[FLAG] <= 1
      && r.v[x] == m.v[x] - m.v[y]
      && OthersKept(m.v, r.v, x)
      && r.(v := m.v) == m
  {
    SubRegsBorrow(m.v, x, y);
  }

  lemma SubRegsBorrow(v: seq<bv8>, x: nat, y: nat)
    requires |v| == REGISTER_COUNT && x < 16 && y < 16 && x != FLAG && y != FLAG
    ensures var r := SubRegs(v, x, y);
      && (r[FLAG] == 1 <==> v[x] > v[y]) && r[FLAG] <= 1
      && r[x] == v[x] - v[y]
      && OthersKept(v, r, x)
  {
  }

  /**
   * `8xF5`: the flag is written before the subtraction reads `VF`, so what is
   * subtracted is the new flag, not the old `VF`.
   */
  lemma SubReadsNewFlag(m: Machine, x: nat)
    requires Wf(m) && x < 16 && x != FLAG
    ensures var r := ExecuteArith(m, Sub(x, FLAG));
      r.v[x] == m.v[x] - r.v[FLAG] && (r.v[FLAG] == 1 <==> m.v[x] > m.v[FLAG])
  {
    SubRegsNewFlag(m.v, x);
  }

  lemma SubRegsNewFlag(v: seq<bv8>, x: nat)
    requires |v| == REGISTER_COUNT && x < 16 && x != FLAG
    ensures var r := SubRegs(v, x, FLAG);
      r[x] == v[x] - r[FLAG] && (r[FLAG] == 1 <==> v[x] > v[FLAG])
  {
  }

  /**
   * `8Fy5`: `VF` is the destination, so the flag just written is what `Vy`
   * is subtracted from; `VF` ends as `flag - Vy`.  For `8FF5` both operands
   * read the new flag, which is 0, so `VF` ends 0.
   */
  lemma SubIntoFlag(m: Machine, y: nat)
    requires Wf(m) && y < 16
    ensures var flag: bv8 := if m.v[FLAG] > m.v[y] then 1 else 0;
      ExecuteArith(m, Sub(FLAG, y)) == m.(v := m.v[FLAG := flag - (if y == FLAG then flag else m.v[y])])
  {
    assert ExecuteArith(m, Sub(FLAG, y)) == m.(v := SubRegs(m.v, FLAG, y));
  }

  /**
   * `8xy7` with neither operand `VF`: `Vx` becomes `Vy - Vx` in wrapping
   * 8-bit arithmetic and `VF` is 1 exactly when `Vy > Vx`.
   */
  lemma SubnBorrow(m: Machine, x: nat, y: nat)
    requires Wf(m) && x < 16 && y < 16 && x != FLAG && y != FLAG
    ensures var r := ExecuteArith(m, Subn(x, y));
      && (r.v[FLAG] == 1 <==> m.v[y] > m.v[x]) && r.v[FLAG] <= 1
      && r.v[x] == m.v[y] - m.v[x]
      && OthersKept(m.v, r.v, x)
      && r.(v := m.v) == m
  {
    SubnRegsBorrow(m.v, x, y);
  }

  lemma SubnRegsBorrow(v: seq<bv8>, x: nat, y: nat)
    requires |v| == REGISTER_COUNT && x < 16 && y < 16 && x != FLAG && y != FLAG
    ensures var r := SubnRegs(v, x, y);
      && (r[FLAG] == 1 <==> v[y] > v[x]) && r[FLAG] <= 1
      && r[x] == v[y] - v[x]
      && OthersKept(v, r, x)
  {
  }

  /**
   * `8Fy7`: `VF` is the destination, so `Vy` minus the flag just written is
   * what `VF` ends with.  For `8FF7` both operands read the new flag, which
   * is 0, so `VF` ends 0.
   */
  lemma SubnIntoFlag(m: Machine, y: nat)
    requires Wf(m) && y < 16
    ensures var flag: bv8 := if m.v[y] > m.v[FLAG] then 1 else 0;
      ExecuteArith(m, Subn(FLAG, y)) == m.(v := m.v[FLAG := (if y == FLAG then flag else m.v[y]) - flag])
  {
    assert ExecuteArith(m, Subn(FLAG, y)) == m.(v := SubnRegs(m.v, FLAG, y));
  }

  /**
   * `8xF7`: the flag is written before the subtraction reads `VF`, so `Vx`
   * becomes the new flag minus `Vx`, not the old `VF` minus `Vx`.
   */
  lemma SubnReadsNewFlag(m: Machine, x: nat)
    requires Wf(m) && x < 16 && x != FLAG
    ensures var flag: bv8 := if m.v[FLAG] > m.v[x] then 1 else 0;
      ExecuteArith(m, Subn(x, FLAG)) == m.(v := m.v[FLAG := flag][x := flag - m.v[x]])
  {
    assert ExecuteArith(m, Subn(x, FLAG)) == m.(v := SubnRegs(m.v, x, FLAG));
  }

  /** `8xy6`: `Vx` is halved and `VF` receives the bit shifted out, so `2 * Vx + VF` is the old `Vx`; `Vy` is ignored. */
  lemma ShrHalves(m: Machine, x: nat, y: nat)
    requires Wf(m) && x < 16 && y < 16 && x != FLAG
    ensures var r := ExecuteArith(m, Shr(x, y));
      && r.v[FLAG] <= 1
      && 2 * r.v[x] as int + r.v[FLAG] as int == m.v[x] as int
      && OthersKept(m.v, r.v, x)
      && r.(v := m.v) == m
  {
    ShrRegsHalves(m.v, x);
  }

  lemma ShrRegsHalves(v: seq<bv8>, x: nat)
    requires |v| == REGISTER_COUNT && x < 16 && x != FLAG
    ensures var r := ShrRegs(v, x);
      && r[FLAG] <= 1
      && 2 * r[x] as int + r[FLAG] as int == v[x] as int
      && OthersKept(v, r, x)
  {
  }

  /**
   * `8Fy6`: the bit shifted out is written to `VF` and then shifted itself,
   * so `VF` always ends 0.
   */
  lemma ShrIntoFlag(m: Machine, y: nat)
    requires Wf(m) && y < 16
    ensures ExecuteArith(m, Shr(FLAG, y)) == m.(v := m.v[FLAG := 0])
  {
    assert ExecuteArith(m, Shr(FLAG, y)) == m.(v := ShrRegs(m.v, FLAG));
  }

  /** `8xyE`: `Vx` is doubled modulo 256 and `VF` receives the bit shifted out, so `Vx + 256 * VF` is twice the old `Vx`. */
  lemma ShlDoubles(m: Machine, x: nat, y: nat)
    requires Wf(m) && x < 16 && y < 16 && x != FLAG
    ensures var r := ExecuteArith(m, Shl(x, y));
      && r.v[FLAG] <= 1
      && r.v[x] as int + 256 * r.v[FLAG] as int == 2 * m.v[x] as int
      && OthersKept(m.v, r.v, x)
      && r.(v := m.v) == m
  {
    ShlRegsDoubles(m.v, x);
  }

  lemma ShlRegsDoubles(v: seq<bv8>, x: nat)
    requires |v| == REGISTER_COUNT && x < 16 && x != FLAG
    ensures var r := ShlRegs(v, x);
      && r[FLAG] <= 1
      && r[x] as int + 256 * r[FLAG] as int == 2 * v[x] as int
      && OthersKept(v, r, x)
  {
  }

  /**
   * `8FyE`: the bit shifted out is written to `VF` and then doubled, so `VF`
   * ends 2 when bit 7 of the old `VF` was set and 0 otherwise.
   */
  lemma ShlIntoFlag(m: Machine, y: nat)
    requires Wf(m) && y < 16
    ensures ExecuteArith(m, Shl(FLAG, y)) == m.(v := m.v[FLAG := if m.v[FLAG] & 0x80 != 0 then 2 else 0])
  {
    assert ExecuteArith(m, Shl(FLAG, y)) == m.(v := ShlRegs(m.v, FLAG));
  }

  // ---- Fx33, Fx55, Fx65: memory at I ----

  /**
   * `Fx33`: a refused range only records the error; otherwise the three
   * bytes at `I` are the decimal digits of `Vx`, hundreds first, and no
   * other byte of memory changes.
   */
  lemma BcdDigits(m: Machine, x: nat)
    requires Wf(m) && x < 16
    ensures var r := ExecuteMemory(m, LdBcd(x));
      if MemoryFault(m.i, 3) then r == m.(error := MemoryOutOfBounds)
      else
        && r.memory[m.i] < 10 && r.memory[m.i + 1] < 10 && r.memory[m.i + 2] < 10
        && 100 * r.memory[m.i] as int + 10 * r.memory[m.i + 1] as int + r.memory[m.i + 2] as int == m.v[x] as int
        && (forall a :: 0 <= a < MEMORY_SIZE && !(m.i <= a < m.i + 3) ==> r.memory[a] == m.memory[a])
        && r.(memory := m.memory) == m
  {
    if !MemoryFault(m.i, 3) {
      BcdValue(m, x);
      BcdFrame(m, x);
    }
  }

  lemma BcdValue(m: Machine, x: nat)
    requires Wf(m) && x < 16 && !MemoryFault(m.i, 3)
    ensures var r := ExecuteMemory(m, LdBcd(x));
      && r.memory[m.i] < 10 && r.memory[m.i + 1] < 10 && r.memory[m.i + 2] < 10
      && 100 * r.memory[m.i] as int + 10 * r.memory[m.i + 1] as int + r.memory[m.i + 2] as int == m.v[x] as int
  {
    var b := m.v[x];
    var r := ExecuteMemory(m, LdBcd(x));
    assert r.memory[m.i] == b / 100 && r.memory[m.i + 1] == (b % 100) / 10 && r.memory[m.i + 2] == b % 10;
    DecimalDigits(b);
  }

  lemma BcdFrame(m: Machine, x: nat)
    requires Wf(m) && x < 16 && !MemoryFault(m.i, 3)
    ensures var r := ExecuteMemory(m, LdBcd(x));
      && (forall a :: 0 <= a < MEMORY_SIZE && !(m.i <= a < m.i + 3) ==> r.memory[a] == m.memory[a])
      && r.(memory := m.memory) == m
  {
  }

  /** The hundreds, tens and units of a byte are decimal digits that give the byte back. */
  lemma DecimalDigits(b: bv8)
    ensures b / 100 < 10 && (b % 100) / 10 < 10 && b % 10 < 10
    ensures 100 * (b / 100) as int + 10 * ((b % 100) / 10) as int + (b % 10) as int == b as int
  {
  }

  /**
   * `Fx55`: a refused range only records the error; otherwise `V0` to `Vx`
   * are copied to `I` onwards and no other byte of memory changes.
   */
  lemma StoreFootprint(m: Machine, x: nat)
    requires Wf(m) && x < 16
    ensures var r := ExecuteMemory(m, Store(x));
      if MemoryFault(m.i, x + 1) then r == m.(error := MemoryOutOfBounds)
      else
        && (forall k :: 0 <= k <= x ==> r.memory[m.i + k] == m.v[k])
        && (forall a :: 0 <= a < MEMORY_SIZE && !(m.i <= a <= m.i + x) ==> r.memory[a] == m.memory[a])
        && r.(memory := m.memory) == m
  {
  }

  /**
   * `Fx65`: a refused range only records the error; otherwise `V0` to `Vx`
   * are read from `I` onwards and the other registers keep their values.
   */
  lemma LoadFootprint(m: Machine, x: nat)
    requires Wf(m) && x < 16
    ensures var r := ExecuteMemory(m, Load(x));
      if MemoryFault(m.i, x + 1) then r == m.(error := MemoryOutOfBounds)
      else
        && (forall k :: 0 <= k <= x ==> r.v[k] == m.memory[m.i + k])
        && (forall k :: x < k < REGISTER_COUNT ==> r.v[k] == m.v[k])
        && r.(v := m.v) == m
  {
  }

  /** Reading back what `Fx55` stored with the same `x` and `I` (`Fx65`) changes nothing. */
  lemma StoreThenLoad(m: Machine, x: nat)
    requires Wf(m) && x < 16
    ensures var stored := ExecuteMemory(m, Store(x));
      stored.error == None ==> ExecuteMemory(stored, Load(x)) == stored
  {
    var stored := ExecuteMemory(m, Store(x));
    if stored.error == None {
      StoreFootprint(m, x);
      var back := ExecuteMemory(stored, Load(x));
      assert back.v == stored.v by {
        LoadFootprint(stored, x);
        forall k | 0 <= k < REGISTER_COUNT ensures back.v[k] == stored.v[k] {
          if k <= x {
            assert back.v[k] == stored.memory[m.i + k];
          }
        }
      }
    }
  }

  // ---- Fx0A: the key wait ----

  predicate Released(keyboard: seq<bv8>, lastKeyboard: seq<bv8>, k: nat)
    requires |keyboard| == KEY_COUNT && |lastKeyboard| == KEY_COUNT && k < KEY_COUNT
  {
    keyboard[k] == 0 && lastKeyboard[k] != 0
  }

  /**
   * The search of `Fx0A` finds the lowest released key at or after `from`,
   * and reports 16 exactly when there is none.
   */
  lemma {:induction false} FirstReleaseLowest(keyboard: seq<bv8>, lastKeyboard: seq<bv8>, from: nat)
    requires |keyboard| == KEY_COUNT && |lastKeyboard| == KEY_COUNT && from <= KEY_COUNT
    ensures var k := FirstRelease(keyboard, lastKeyboard, from);
      && (k < KEY_COUNT ==> Released(keyboard, lastKeyboard, k))
      && (forall j :: from <= j < k ==> !Released(keyboard, lastKeyboard, j))
      && (k == KEY_COUNT <==> forall j :: from <= j < KEY_COUNT ==> !Released(keyboard, lastKeyboard, j))
    decreases KEY_COUNT - from
  {
    if from < KEY_COUNT && !Released(keyboard, lastKeyboard, from) {
      FirstReleaseLowest(keyboard, lastKeyboard, from + 1);
    }
  }

  /**
   * `Fx0A`: with a key released since the last instruction, `Vx` takes the
   * lowest such key; with none, `PC` is set back onto the instruction so
   * that it runs again.  Nothing else changes.
   */
  lemma KeyWait(m: Machine, x: nat)
    requires Wf(m) && m.error == None && x < 16 && m.pc >= 2
    ensures var r := ExecuteTest(m, LdKey(x));
      (exists k :: 0 <= k < KEY_COUNT && Released(m.keyboard, m.lastKeyboard, k)) ==>
        && r.v[x] as int < KEY_COUNT
        && Released(m.keyboard, m.lastKeyboard, r.v[x] as int)
        && (forall j :: 0 <= j < r.v[x] as int ==> !Released(m.keyboard, m.lastKeyboard, j))
        && r == m.(v := m.v[x := r.v[x]])
    ensures var r := ExecuteTest(m, LdKey(x));
      (forall k :: 0 <= k < KEY_COUNT ==> !Released(m.keyboard, m.lastKeyboard, k)) ==> r == m.(pc := m.pc - 2)
  {
    FirstReleaseLowest(m.keyboard, m.lastKeyboard, 0);
    KeyWaitResult(m, x);
  }

  lemma KeyWaitResult(m: Machine, x: nat)
    requires Wf(m) && m.error == None && x < 16 && m.pc >= 2
    ensures var k := FirstRelease(m.keyboard, m.lastKeyboard, 0);
      var r := ExecuteTest(m, LdKey(x));
      && (k < KEY_COUNT ==> r.v[x] as int == k && r == m.(v := m.v[x := r.v[x]]))
      && (k == KEY_COUNT ==> r == m.(pc := m.pc - 2))
  {
    var key := FirstRelease(m.keyboard, m.lastKeyboard, 0);
    if key < KEY_COUNT {
      KeyWaitFound(m, x, key);
    }
  }

  lemma KeyWaitFound(m: Machine, x: nat, key: nat)
    requires Wf(m) && m.error == None && x < 16 && m.pc >= 2
    requires key == FirstRelease(m.keyboard, m.lastKeyboard, 0) < KEY_COUNT
    ensures var r := ExecuteTest(m, LdKey(x));
      r.v[x] as int == key && r == m.(v := m.v[x := r.v[x]])
  {
    assert ExecuteTest(m, LdKey(x)) == m.(v := m.v[x := key as bv8]);
    KeyIndexByte(key);
  }

  /**
   * A key index survives the truncating store into a register; the sixteen
   * cases are split so that each is a constant.
   */
  lemma KeyIndexByte(k: nat)
    requires k < KEY_COUNT
    ensures (k as bv8) as int == k
  {
    if k < 8 {
      if k < 4 {
        if k < 2 { if k == 0 { } else { } } else if k == 2 { } else { }
      } else if k < 6 { if k == 4 { } else { } } else if k == 6 { } else { }
    } else if k < 12 {
      if k < 10 { if k == 8 { } else { } } else if k == 10 { } else { }
    } else if k < 14 { if k == 12 { } else { } } else if k == 14 { } else { }
  }


  // ---- 2nnn and 00EE: the call stack ----

  /**
   * `2nnn` pushes only into an entry of the 16-entry stack and refuses a
   * full stack (with `SP_INCORRECT`, or `MEMORY_OUT_OF_BOUNDS` when the
   * target is refused too, since that check runs second).
   */
  lemma CallStaysInStack(m: Machine, a: nat)
    requires Wf(m) && m.error == None && a < 0x1000
    ensures var r := ExecuteFlow(m, Call(a));
      && (m.sp == STACK_SIZE ==> r.error != None)
      && (r.error == None ==> m.sp < STACK_SIZE && r.sp == m.sp + 1 && r.stack[m.sp] == m.pc && r.pc == a)
  {
  }

  /**
   * `00EE` after a successful `2nnn` returns to the instruction after the
   * call with the stack pointer restored; the only trace left is the stack
   * entry above the top.
   */
  lemma CallThenReturn(m: Machine, a: nat)
    requires Wf(m) && m.error == None && a < 0x1000
    ensures var called := ExecuteFlow(m, Call(a));
      called.error == None ==> ExecuteFlow(called, Ret) == m.(stack := m.stack[m.sp := m.pc])
  {
  }

  /** `00EE` on an empty stack is refused and changes nothing else. */
  lemma ReturnOnEmptyStack(m: Machine)
    requires Wf(m) && m.error == None && m.sp == 0
    ensures ExecuteFlow(m, Ret) == m.(error := SpIncorrect)
  {
  }

  // ---- checks that cannot fire ----

  /** The `(index, count)` ranges `Chip8_validate_registers` is asked to check for an instruction. */
  function RegisterChecks(ins: Instr): (checks: seq<(nat, nat)>)
  {
    match ins
    case SeByte(x, _) => [(x, 1)]
    case SneByte(x, _) => [(x, 1)]
    case LdByte(x, _) => [(x, 1)]
    case AddByte(x, _) => [(x, 1)]
    case Rnd(x, _) => [(x, 1)]
    case Shr(x, _) => [(x, 1)]
    case Shl(x, _) => [(x, 1)]
    case SeReg(x, y) => [(x, 1), (y, 1)]
    case SneReg(x, y) => [(x, 1), (y, 1)]
    case LdReg(x, y) => [(x, 1), (y, 1)]
    case Or(x, y) => [(x, 1), (y, 1)]
    case And(x, y) => [(x, 1), (y, 1)]
    case Xor(x, y) => [(x, 1), (y, 1)]
    case AddReg(x, y) => [(x, 1), (y, 1)]
    case Sub(x, y) => [(x, 1), (y, 1)]
    case Subn(x, y) => [(x, 1), (y, 1)]
    case Drw(x, y, _) => [(x, 1), (y, 1)]
    case Skp(x) => [(x, 1)]
    case Sknp(x) => [(x, 1)]
    case LdVxDt(x) => [(x, 1)]
    case LdKey(x) => [(x, 1)]
    case LdDtVx(x) => [(x, 1)]
    case LdStVx(x) => [(x, 1)]
    case AddI(x) => [(x, 1)]
    case LdFont(x) => [(x, 1)]
    case LdBcd(x) => [(x, 1)]
    case Store(x) => [(0, x + 1)]
    case Load(x) => [(0, x + 1)]
    case _ => []
  }

  /**
   * Every register range the interpreter validates for a decoded word lies
   * within the 16 registers, so `REGISTER_OUT_OF_BOUNDS` is never raised
   * and `Execute` leaves those checks out.
   */
  lemma RegisterChecksPass(hi: nat, lo: nat)
    requires hi < 256 && lo < 256
    ensures forall c :: c in RegisterChecks(Decode(hi, lo)) ==> !RegisterFault(c.0, c.1)
  {
    DecodeWf(hi, lo);
  }

  /**
   * `Fx29` points `I` at the five-byte sprite of the low nibble of `Vx`
   * inside the font, so its `addr >= 80` check never fires and `Execute`
   * leaves it out.
   */
  lemma FontAddressInFont(m: Machine, x: nat)
    requires Wf(m) && x < 16 && m.memory[..SPRITES_SIZE] == FONT
    ensures var r := ExecuteIndex(m, LdFont(x));
      var digit := (m.v[x] % 16) as int;
      && r.i % 5 == 0 && r.i + 5 <= SPRITES_SIZE
      && r.memory[r.i..r.i + 5] == FONT[5 * digit..5 * digit + 5]
  {
    var digit := (m.v[x] % 16) as int;
    assert (m.v[x] & 0x0F) == m.v[x] % 16;
    assert m.memory[5 * digit..5 * digit + 5] == m.memory[..SPRITES_SIZE][5 * digit..5 * digit + 5];
  }

  /** `Dxyn` never refuses its height: a nibble is always below the 32 rows of the screen. */
  lemma DrawHeightAlwaysFits(hi: nat, lo: nat)
    requires hi < 256 && lo < 256 && Decode(hi, lo).Drw?
    ensures Decode(hi, lo).n < SCREEN_HEIGHT
  {
  }

  /** `00E0` turns off every pixel. */
  lemma ClsBlanks(m: Machine)
    requires Wf(m) && m.error == None
    ensures var r := ExecuteFlow(m, Cls);
      forall x, y :: 0 <= x < SCREEN_WIDTH && 0 <= y < SCREEN_HEIGHT ==> !PixelOn(r.screen, x, y)
  {
  }

  // ---- the guards of 2nnn and Ex9E as written ----

  datatype Option<T> = Some(value: T) | Nothing

  /**
   * The `2nnn` of the source: it refuses the call only when
   * `SP == sizeof(STACK) - 1`, and `sizeof` counts bytes, so only `SP == 31`
   * is refused.  The result is the stack index the push writes to.
   */
  function CallPushAsWritten(m: Machine, a: nat): (slot: Option<nat>)
    ensures slot.Some? ==> slot.value == m.sp
  {
    if m.sp == 2 * STACK_SIZE - 1 || MemoryFault(a, 2) then Nothing else Some(m.sp)
  }

  /** With a full stack the guard as written lets the push write entry 16, past the end of the 16-entry stack. */
  lemma CallGuardAsWrittenOverflows()
    ensures var m := Initial([]).(sp := STACK_SIZE);
      && CallPushAsWritten(m, USER_START) == Some(STACK_SIZE)
      && ExecuteFlow(m, Call(USER_START)).error == SpIncorrect
  {
  }

  /**
   * The `Ex9E` of the source: it refuses only keys above 16, because it
   * compares against `sizeof(KEYBOARD)` with `>`.  Key 16 then reads the
   * byte after `KEYBOARD`, which is `LAST_KEYBOARD[0]` in the layout of the
   * machine.
   */
  function SkipKeyAsWritten(m: Machine, x: nat): (r: Machine)
    requires Wf(m) && m.error == None && x < 16
    ensures r.error == None || r.error == KeyUnknown
  {
    var key := m.v[x] as int;
    if key > KEY_COUNT then m.(error := KeyUnknown)
    else SkipIf(m, (m.keyboard + m.lastKeyboard)[key] != 0)
  }

  /**
   * With no key down, `V0 == 16` and key 0 held at the previous instruction,
   * the `Ex9E` as written skips the next instruction; the corrected one
   * refuses key 16.
   */
  lemma SkipKeyAsWrittenReadsPastKeyboard()
    ensures var m := Initial([]).(v := Zeros(REGISTER_COUNT)[0 := 16], lastKeyboard := Zeros(KEY_COUNT)[0 := 1]);
      && SkipKeyAsWritten(m, 0).pc == m.pc + 2
      && ExecuteTest(m.(pc := m.pc + 2), Skp(0)).error == KeyUnknown
  {
    var m := Initial([]).(v := Zeros(REGISTER_COUNT)[0 := 16], lastKeyboard := Zeros(KEY_COUNT)[0 := 1]);
    assert (m.keyboard + m.lastKeyboard)[16] == m.lastKeyboard[0];
  }

  /** The corrected `Ex9E` and `ExA1` read only keys 0 to 15, and refuse the rest; below 16 it agrees with the source. */
  lemma SkipKeyCorrected(m: Machine, x: nat)
    requires Wf(m) && m.error == None && x < 16 && m.pc >= 2
    ensures var r := ExecuteTest(m, Skp(x));
      && (m.v[x] as int >= KEY_COUNT <==> r.error == KeyUnknown)
      && (m.v[x] as int < KEY_COUNT ==> r == SkipKeyAsWritten(m, x))
      && (m.v[x] as int < KEY_COUNT ==> (r.pc == m.pc + 2 <==> m.keyboard[m.v[x]] != 0))
  {
    if m.v[x] as int < KEY_COUNT {
      assert (m.keyboard + m.lastKeyboard)[m.v[x] as int] == m.keyboard[m.v[x] as int];
    }
  }
}

/**
 * The `Chip8` struct of main.cpp as an object.  The memory and the screen
 * are the two buffers the interpreter rewrites byte by byte, so they are
 * arrays; the registers, the stack and the two keyboards are small arrays
 * embedded in the struct, which nothing else can alias, and are `seq` fields
 * the methods reassign.  Every operation runs on this state in the order
 * `Chip8_create`, `Chip8_step` and `Chip8_to_screen` do and is proved to
 * agree with the value model of `Chip8Spec` through `Snapshot()`.
 */
module Chip8Machine {
  import opened Random
  import opened Chip8Spec
  import PixelCanvas

  class Chip8 {
    const memory: array<bv8>
    const screen: array<bv8>
    /** `registers.by_index`. */
    var v: seq<bv8>
    var stack: seq<nat>
    var keyboard: seq<bv8>
    var lastKeyboard: seq<bv8>
    var i: nat
    var dt: bv8
    var st: bv8
    var pc: nat
    var sp: nat
    var error: Error

    /** The array sizes of the struct, the two buffers apart, `SP` within the stack and a 16-bit `I`. */
    ghost predicate Valid()
      reads this
    {
      && memory.Length == MEMORY_SIZE && screen.Length == SCREEN_BYTES && memory != screen
      && |v| == REGISTER_COUNT && |stack| == STACK_SIZE && |keyboard| == KEY_COUNT && |lastKeyboard| == KEY_COUNT
      && sp <= STACK_SIZE && i < 0x1_0000
    }

    /** The whole state as a `Chip8Spec.Machine` value. */
    ghost function Snapshot(): (m: Machine)
      reads this, memory, screen
      requires Valid()
      ensures Wf(m)
    {
      Machine(memory[..], v, i, dt, st, pc, sp, stack, screen[..], keyboard, lastKeyboard, error)
    }

    /**
     * `Chip8_create`: everything zeroed, the font copied to address 0, the
     * ROM copied to 0x200 and `PC` set there.
     */
    constructor Create(rom: seq<bv8>)
      requires |rom| <= USER_SIZE
      ensures Valid() && Snapshot() == Initial(rom)
      ensures fresh(memory) && fresh(screen)
    {
      memory := new bv8[MEMORY_SIZE](_ => 0);
      screen := new bv8[SCREEN_BYTES](_ => 0);
      v := Zeros(REGISTER_COUNT);
      stack := seq(STACK_SIZE, _ => 0);
      keyboard, lastKeyboard := Zeros(KEY_COUNT), Zeros(KEY_COUNT);
      i, dt, st, pc, sp, error := 0, 0, 0, 0, 0, None;
      new;
      forall a | 0 <= a < SPRITES_SIZE {
        memory[a] := FONT[a];
      }
      pc := USER_START;
      forall a | 0 <= a < |rom| {
        memory[USER_START + a] := rom[a];
      }
      ghost var m := Initial(rom);
      forall a | 0 <= a < MEMORY_SIZE
        ensures memory[a] == m.memory[a]
      {
        if a < SPRITES_SIZE {
          assert m.memory[..SPRITES_SIZE][a] == FONT[a];
        } else if USER_START <= a < USER_START + |rom| {
          assert m.memory[USER_START..USER_START + |rom|][a - USER_START] == rom[a - USER_START];
        }
      }
      assert memory[..] == m.memory;
      assert screen[..] == m.screen;
    }

    /** `Chip8_validate_memory`: records `MEMORY_OUT_OF_BOUNDS` for a refused range and changes nothing else. */
    method ValidateMemory(address: nat, size: nat)
      requires Valid()
      modifies this
      ensures Valid() && Snapshot() == Chip8Spec.ValidateMemory(old(Snapshot()), address, size)
    {
      if (address > SPRITES_SIZE && address < USER_START) || address + size > 0xFFF {
        error := MemoryOutOfBounds;
      }
    }

    /** `Chip8_validate_registers`: records `REGISTER_OUT_OF_BOUNDS` for a range past `VF`. */
    method ValidateRegisters(index: nat, count: nat)
      requires Valid()
      modifies this
      ensures Valid()
      ensures Snapshot() == if RegisterFault(index, count) then old(Snapshot()).(error := RegisterOutOfBounds) else old(Snapshot())
    {
      if index + count > REGISTER_COUNT {
        error := RegisterOutOfBounds;
      }
    }

    /** `00E0`, `00EE`, `1nnn`, `2nnn` and `Bnnn`, with the call guard of `Chip8Spec.ExecuteFlow`. */
    method ExecuteFlow(ins: Instr)
      requires Valid() && error == None && WfInstr(ins)
      modifies this, screen
      ensures Valid() && Snapshot() == Chip8Spec.ExecuteFlow(old(Snapshot()), ins)
    {
      if ins.Cls? {
        forall k | 0 <= k < SCREEN_BYTES {
          screen[k] := 0;
        }
        assert screen[..] == Zeros(SCREEN_BYTES);
      } else if ins.Ret? {
        if sp == 0 {
          error := SpIncorrect;
          return;
        }
        sp := sp - 1;
        pc := stack[sp];
      } else if ins.Jp? {
        ValidateMemory(ins.addr, 1);
        if error != None {
          return;
        }
        pc := ins.addr;
      } else if ins.Call? {
        if sp >= STACK_SIZE {
          error := SpIncorrect;
        }
        ValidateMemory(ins.addr, 2);
        if error != None {
          return;
        }
        stack := stack[sp := pc];
        sp := sp + 1;
        pc := ins.addr;
      } else if ins.JpV0? {
        var target := ins.addr + v[0] as int;
        ValidateMemory(target, 2);
        if error != None {
          return;
        }
        pc := target;
      }
    }

    /** The skips and the key wait, with the key guard of `Chip8Spec.ExecuteTest`. */
    method ExecuteTest(ins: Instr)
      requires Valid() && error == None && WfInstr(ins) && pc >= 2
      modifies this
      ensures Valid() && Snapshot() == Chip8Spec.ExecuteTest(old(Snapshot()), ins)
    {
      if ins.SeByte? || ins.SneByte? || ins.SeReg? || ins.SneReg? {
        CompareRegister(ins);
      } else {
        TestKey(ins);
      }
    }

    /** `3xkk`, `4xkk`, `5xy0` and `9xy0`: skip the next instruction on (in)equality. */
    method CompareRegister(ins: Instr)
      requires Valid() && error == None && WfInstr(ins) && pc >= 2
      requires ins.SeByte? || ins.SneByte? || ins.SeReg? || ins.SneReg?
      modifies this
      ensures Valid() && Snapshot() == Chip8Spec.ExecuteTest(old(Snapshot()), ins)
    {
      if ins.SeByte? {
        if v[ins.x] == ins.kk as bv8 {
          pc := pc + 2;
        }
      } else if ins.SneByte? {
        if v[ins.x] != ins.kk as bv8 {
          pc := pc + 2;
        }
      } else if ins.SeReg? {
        if v[ins.x] == v[ins.y] {
          pc := pc + 2;
        }
      } else {
        if v[ins.x] != v[ins.y] {
          pc := pc + 2;
        }
      }
    }

    /** `Ex9E`, `ExA1` and `Fx0A`: the instructions that look at the keyboard. */
    method TestKey(ins: Instr)
      requires Valid() && error == None && WfInstr(ins) && pc >= 2
      requires !(ins.SeByte? || ins.SneByte? || ins.SeReg? || ins.SneReg?)
      modifies this
      ensures Valid() && Snapshot() == Chip8Spec.ExecuteTest(old(Snapshot()), ins)
    {
      if ins.Skp? || ins.Sknp? {
        SkipKey(ins);
      } else if ins.LdKey? {
        LoadKey(ins);
      }
    }

    /** `Ex9E` and `ExA1`: skip on the state of key `Vx`; a value of `Vx` naming no key is an error. */
    method SkipKey(ins: Instr)
      requires Valid() && error == None && WfInstr(ins) && pc >= 2 && (ins.Skp? || ins.Sknp?)
      modifies this
      ensures Valid() && Snapshot() == Chip8Spec.ExecuteTest(old(Snapshot()), ins)
    {
      var key := v[ins.x] as int;
      if key >= KEY_COUNT {
        error := KeyUnknown;
      } else if ins.Skp? {
        if keyboard[key] != 0 {
          pc := pc + 2;
        }
      } else {
        if keyboard[key] == 0 {
          pc := pc + 2;
        }
      }
    }

    /** `Fx0A`: `Vx` takes the first key released, or the instruction runs again. */
    method LoadKey(ins: Instr)
      requires Valid() && error == None && WfInstr(ins) && pc >= 2 && ins.LdKey?
      modifies this
      ensures Valid() && Snapshot() == Chip8Spec.ExecuteTest(old(Snapshot()), ins)
    {
      var keypress := WaitKey();
      if keypress != -1 {
        v := v[ins.x := keypress as bv8];
      } else {
        pc := pc - 2;
      }
    }

    /** The search loop of `Fx0A`: the lowest key released since the last instruction, or -1. */
    method WaitKey() returns (keypress: int)
      requires Valid()
      ensures var k := FirstRelease(keyboard, lastKeyboard, 0);
        if k < KEY_COUNT then keypress == k else keypress == -1
    {
      keypress := -1;
      var ikey := 0;
      while ikey != KEY_COUNT
        invariant 0 <= ikey <= KEY_COUNT
        invariant FirstRelease(keyboard, lastKeyboard, 0) == FirstRelease(keyboard, lastKeyboard, ikey)
      {
        if keyboard[ikey] == 0 && lastKeyboard[ikey] != 0 {
          keypress := ikey;
          return;
        }
        ikey := ikey + 1;
      }
    }

    /** `6xkk`, `7xkk`, `8xy0` to `8xy3` and `Cxkk`, which alone draws from the generator. */
    method ExecuteLoad(ins: Instr, rng: RandomData)
      requires Valid() && WfInstr(ins)
      modifies this, rng
      ensures Valid() && Snapshot() == Chip8Spec.ExecuteLoad(old(Snapshot()), ins, CharOf(old(rng.seed)))
      ensures rng.seed == if ins.Rnd? then Successor(old(rng.seed)) else old(rng.seed)
    {
      var randomByte := CharOf(rng.seed);
      if ins.Rnd? {
        randomByte := rng.RandomChar();
      }
      v := LoadRegs(v, ins, randomByte);
    }

    /** `8xy4` to `8xyE`: `VF` first, then `Vx` from the registers as they are after that write. */
    method ExecuteArith(ins: Instr)
      requires Valid() && WfInstr(ins)
      modifies this
      ensures Valid() && Snapshot() == Chip8Spec.ExecuteArith(old(Snapshot()), ins)
    {
      if ins.AddReg? {
        v := AddRegs(v, ins.x, ins.y);
      } else if ins.Sub? {
        v := SubRegs(v, ins.x, ins.y);
      } else if ins.Shr? {
        v := ShrRegs(v, ins.x);
      } else if ins.Subn? {
        v := SubnRegs(v, ins.x, ins.y);
      } else if ins.Shl? {
        v := ShlRegs(v, ins.x);
      }
    }

    /**
     * `Dxyn`: the coordinates and the sprite range are validated, then the
     * sprite is drawn and `VF` records whether a set pixel was cleared.
     */
    method ExecuteDraw(x: nat, y: nat, n: nat)
      requires Valid() && error == None && x < 16 && y < 16 && n < 16
      modifies this, screen
      ensures Valid() && Snapshot() == Chip8Spec.ExecuteDraw(old(Snapshot()), x, y, n)
    {
      var px := v[x] as int;
      var py := v[y] as int;
      if px >= SCREEN_WIDTH || py >= SCREEN_HEIGHT || n >= SCREEN_HEIGHT {
        error := ScreenCoordIncorrect;
      }
      ValidateMemory(i, n);
      if error != None {
        return;
      }
      DrawChecked(px, py, n);
    }

    /** `Dxyn` after its checks passed: the sprite at `I` is drawn and `VF` records the erasure. */
    method DrawChecked(px: nat, py: nat, n: nat)
      requires Valid() && px < SCREEN_WIDTH && py < SCREEN_HEIGHT && n < SCREEN_HEIGHT && !MemoryFault(i, n)
      modifies this, screen
      ensures Valid()
      ensures Snapshot() == Chip8Spec.DrawChecked(old(Snapshot()), px, py, n)
    {
      assert memory[i..i + n] == memory[..][i..i + n];
      var erasure := DrawRows(px, py, memory[i..i + n]);
      v := v[FLAG := if erasure then 1 else 0];
    }

    /**
     * `Dxyn` once the sprite has been placed: the sprite rows, shifted into
     * the byte-column of `Vx` and the spill into the next one, and the four
     * row loops, the last two only when `Vx` is not byte-aligned.
     */
    method DrawRows(px: nat, py: nat, sprite: seq<bv8>) returns (erasure: bool)
      requires Valid() && px < SCREEN_WIDTH && py < SCREEN_HEIGHT && |sprite| < SCREEN_HEIGHT
      modifies screen
      ensures Valid()
      ensures (screen[..], erasure) == DrawSprite(old(screen[..]), px, py, sprite)
    {
      var bitStart := (px % 8) as bv8;
      var left := ShiftedRight(sprite, bitStart);
      var right := ShiftedLeft(sprite, 8 - bitStart);
      erasure := XorColumns(DrawLeft(px) * SCREEN_HEIGHT, DrawRight(px) * SCREEN_HEIGHT, py,
                            DirectRows(py, |sprite|), left, right, bitStart != 0);
    }

    /** The four row loops themselves. */
    method XorColumns(baseL: nat, baseR: nat, y: nat, a: nat, left: seq<bv8>, right: seq<bv8>, spill: bool)
      returns (erasure: bool)
      requires Valid() && a <= |left| == |right|
      requires baseL + y + a <= SCREEN_BYTES && baseL + (|left| - a) <= SCREEN_BYTES
      requires baseR + y + a <= SCREEN_BYTES && baseR + (|right| - a) <= SCREEN_BYTES
      modifies screen
      ensures Valid()
      ensures (screen[..], erasure) == DrawPasses(old(screen[..]), baseL, baseR, y, a, left, right, spill)
    {
      var e1 := XorRows(baseL + y, left[..a]);
      var e2 := XorRows(baseL, left[a..]);
      erasure := e1 || e2;
      if spill {
        var e3 := XorRows(baseR + y, right[..a]);
        var e4 := XorRows(baseR, right[a..]);
        erasure := erasure || e3 || e4;
      }
    }

    method XorRows(base: nat, vals: seq<bv8>) returns (erased: bool)
      requires Valid() && base + |vals| <= SCREEN_BYTES
      modifies screen
      ensures Valid()
      ensures screen[..] == XorPass(old(screen[..]), base, vals)
      ensures erased == PassErases(old(screen[..]), base, vals)
    {
      ghost var before := screen[..];
      erased := false;
      var iy := 0;
      while iy != |vals|
        invariant 0 <= iy <= |vals|
        invariant forall j :: 0 <= j < SCREEN_BYTES ==>
                    screen[j] == if base <= j < base + iy then Flip(before[j], vals[j - base]) else before[j]
        invariant erased == ErasesWithin(before, base, vals, iy)
      {
        var index := base + iy;
        var screenByte := screen[index];
        var newScreenByte := Flip(screenByte, vals[iy]);
        erased := erased || Clears(screenByte, vals[iy]);
        screen[index] := newScreenByte;
        iy := iy + 1;
      }
      ErasesWithinExists(before, base, vals, |vals|);
      assert forall j :: 0 <= j < SCREEN_BYTES ==> screen[j] == XorPass(before, base, vals)[j];
    }

    /** `Annn`, `Fx07`, `Fx15`, `Fx18`, `Fx1E` and `Fx29`. */
    method ExecuteIndex(ins: Instr)
      requires Valid() && WfInstr(ins)
      modifies this
      ensures Valid() && Snapshot() == Chip8Spec.ExecuteIndex(old(Snapshot()), ins)
    {
      if ins.LdI? {
        i := ins.addr;
      } else if ins.LdVxDt? {
        v := v[ins.x := dt];
      } else if ins.LdDtVx? {
        dt := v[ins.x];
      } else if ins.LdStVx? {
        st := v[ins.x];
      } else if ins.AddI? {
        i := (i + v[ins.x] as int) % 0x1_0000;
      } else if ins.LdFont? {
        var charIndex := v[ins.x] & 0x0F;
        i := charIndex as int * 5;
      }
    }

    /** `Fx33`, `Fx55` and `Fx65`. */
    method ExecuteMemory(ins: Instr)
      requires Valid() && error == None && WfInstr(ins)
      modifies this, memory
      ensures Valid() && Snapshot() == Chip8Spec.ExecuteMemory(old(Snapshot()), ins)
    {
      if ins.LdBcd? {
        ValidateMemory(i, 3);
        if error != None {
          return;
        }
        var b := v[ins.x];
        memory[i] := b / 100;
        memory[i + 1] := (b % 100) / 10;
        memory[i + 2] := b % 10;
      } else if ins.Store? {
        ValidateMemory(i, ins.x + 1);
        if error != None {
          return;
        }
        StoreRegisters(ins.x + 1);
      } else if ins.Load? {
        ValidateMemory(i, ins.x + 1);
        if error != None {
          return;
        }
        LoadRegisters(ins.x + 1);
      }
    }

    /** The copy loop of `Fx55`: `V0 .. V(count-1)` to the bytes at `I`. */
    method StoreRegisters(count: nat)
      requires Valid() && count <= REGISTER_COUNT && i + count <= MEMORY_SIZE
      modifies memory
      ensures Valid()
      ensures memory[..] == old(memory[..i]) + v[..count] + old(memory[i + count..])
    {
      ghost var before := memory[..];
      var ireg := 0;
      while ireg != count
        invariant 0 <= ireg <= count
        invariant forall k :: 0 <= k < MEMORY_SIZE ==> memory[k] == if i <= k < i + ireg then v[k - i] else before[k]
      {
        memory[i + ireg] := v[ireg];
        ireg := ireg + 1;
      }
      assert forall k :: 0 <= k < MEMORY_SIZE ==> memory[k] == (before[..i] + v[..count] + before[i + count..])[k];
    }

    /** The copy loop of `Fx65`: the bytes at `I` to `V0 .. V(count-1)`. */
    method LoadRegisters(count: nat)
      requires Valid() && count <= REGISTER_COUNT && i + count <= MEMORY_SIZE
      modifies this
      ensures Valid() && unchanged(this`i, this`dt, this`st, this`pc, this`sp, this`error)
      ensures stack == old(stack) && keyboard == old(keyboard) && lastKeyboard == old(lastKeyboard)
      ensures v == memory[i..i + count] + old(v[count..])
    {
      var regs := v;
      var ireg := 0;
      while ireg != count
        invariant 0 <= ireg <= count && |regs| == REGISTER_COUNT
        invariant regs == memory[i..i + ireg] + v[ireg..]
      {
        regs := regs[ireg := memory[i + ireg]];
        ireg := ireg + 1;
        assert memory[i..i + ireg] == memory[i..i + ireg - 1] + [memory[i + ireg - 1]];
      }
      v := regs;
    }

    /** One instruction of an error-free machine whose `PC` is already past it, dispatched to its group. */
    method Execute(ins: Instr, rng: RandomData)
      requires Valid() && error == None && WfInstr(ins) && pc >= 2
      modifies this, memory, screen, rng
      ensures Valid() && Snapshot() == Chip8Spec.Execute(old(Snapshot()), ins, CharOf(old(rng.seed)))
      ensures rng.seed == if ins.Rnd? then Successor(old(rng.seed)) else old(rng.seed)
    {
      match GroupOf(ins)
      case FlowGroup => ExecuteFlow(ins);
      case TestGroup => ExecuteTest(ins);
      case LoadGroup => ExecuteLoad(ins, rng);
      case ArithGroup => ExecuteArith(ins);
      case DrawGroup => ExecuteDraw(ins.x, ins.y, ins.n);
      case IndexGroup => ExecuteIndex(ins);
      case MemoryGroup => ExecuteMemory(ins);
      case UnknownGroup => error := InstructionUnknown;
    }

    /**
     * One iteration of the loop of `Chip8_step` with the integer timer
     * decrement of that iteration: the timers count down, the fetch address
     * is validated, the instruction at `PC` runs with `PC` advanced, and a
     * completed instruction copies `KEYBOARD` into `LAST_KEYBOARD`.
     */
    method Cycle(decrement: nat, rng: RandomData)
      requires Valid()
      modifies this, memory, screen, rng
      ensures Valid() && (Snapshot(), rng.seed) == Chip8Spec.Cycle(old(Snapshot()), decrement, old(rng.seed))
    {
      TickTimers(Truncate(decrement));
      ValidateMemory(pc, 2);
      if error != None {
        return;
      }
      Issue(rng);
    }

    method TickTimers(d: bv8)
      requires Valid()
      modifies this
      ensures Valid() && Snapshot() == Tick(old(Snapshot()), d)
    {
      dt := CountDown(dt, d);
      st := CountDown(st, d);
    }

    method FetchInstr() returns (ins: Instr)
      requires Valid() && pc + 1 < MEMORY_SIZE
      ensures ins == Fetch(Snapshot()) && WfInstr(ins)
    {
      ins := Decode(memory[pc] as int, memory[pc + 1] as int);
      DecodeWf(memory[pc] as int, memory[pc + 1] as int);
    }

    method AdvancePc()
      requires Valid()
      modifies this
      ensures Valid() && Snapshot() == old(Snapshot()).(pc := old(pc) + 2)
    {
      pc := pc + 2;
    }
    method CompleteInstr()
      requires Valid()
      modifies this
      ensures Valid() && Snapshot() == Complete(old(Snapshot()))
    {
      if error == None {
        lastKeyboard := keyboard;
      }
    }
    /** The fetch and execution of the instruction at a valid `PC`. */
    method Issue(rng: RandomData)
      requires Valid() && error == None && !MemoryFault(pc, 2)
      modifies this, memory, screen, rng
      ensures Valid() && (Snapshot(), rng.seed) == Chip8Spec.Issue(old(Snapshot()), old(rng.seed))
    {
      // The steps are matched against `Chip8Spec.Issue` through the
      // contracts of `FetchInstr` and `Execute`, not the bodies of the
      // decoder and the interpreter.
      hide Decode;
      hide Chip8Spec.Execute;
      var ins := FetchInstr();
      AdvancePc();
      Execute(ins, rng);
      CompleteInstr();
    }

    /**
     * `Chip8_step` once its floating-point bookkeeping has produced the
     * instruction count and each iteration's timer decrement: the loop stops
     * early at the first error.
     */
    method Step(count: nat, decrements: seq<nat>, rng: RandomData)
      requires Valid() && |decrements| >= count
      modifies this, memory, screen, rng
      ensures Valid()
      ensures Snapshot() == Run(old(Snapshot()), count, decrements, old(rng.seed)).0
      ensures rng.seed == Run(old(Snapshot()), count, decrements, old(rng.seed)).1
    {
      // Each iteration is matched against `Run` through the contract of
      // `Cycle`; the body of `Chip8Spec.Cycle` is not needed here.
      hide Chip8Spec.Cycle;
      var remaining: nat := count;
      while remaining != 0
        invariant Valid() && remaining <= count
        invariant Run(Snapshot(), remaining, decrements[count - remaining..], rng.seed).0
                  == Run(old(Snapshot()), count, decrements, old(rng.seed)).0
        invariant Run(Snapshot(), remaining, decrements[count - remaining..], rng.seed).1
                  == Run(old(Snapshot()), count, decrements, old(rng.seed)).1
      {
        ghost var rest := decrements[count - remaining..];
        Cycle(decrements[count - remaining], rng);
        if error != None {
          break;
        }
        assert decrements[count - remaining + 1..] == rest[1..];
        remaining := remaining - 1;
      }
    }
  }

  /** White and black with the alpha bytes `Chip8_to_screen` leaves uninitialised. */
  function ColorOn(alpha: bv8): PixelCanvas.RGBA { PixelCanvas.RGBA(255, 255, 255, alpha) }
  function ColorOff(alpha: bv8): PixelCanvas.RGBA { PixelCanvas.RGBA(0, 0, 0, alpha) }

  /**
   * `Chip8_to_screen`: every one of the 64 x 32 pixels is written, CHIP-8
   * row `y` going to canvas row `height - 1 - y` (the canvas has a
   * bottom-left origin), white when its bit is set and black otherwise.
   */
  method ToScreen(chip8: Chip8, canvas: PixelCanvas.Canvas, onAlpha: bv8, offAlpha: bv8)
    requires chip8.Valid() && canvas.Valid()
    requires canvas.width >= SCREEN_WIDTH && canvas.height >= SCREEN_HEIGHT
    modifies canvas.canvas
    ensures canvas.Valid()
    ensures forall x, y :: 0 <= x < SCREEN_WIDTH && 0 <= y < SCREEN_HEIGHT ==>
              canvas.Pixel(x, canvas.height - 1 - y) == PixelColor(chip8.screen[..], x, y, onAlpha, offAlpha)
    ensures forall x, y :: 0 <= x < canvas.width && 0 <= y < canvas.height && (x >= SCREEN_WIDTH || y < canvas.height - SCREEN_HEIGHT) ==>
              canvas.Pixel(x, y) == old(canvas.Pixel(x, y))
  {
    // The pixels are tracked through the contract of `ColumnToScreen`;
    // the buffer layout behind `Pixel` is not needed here.
    hide PixelCanvas.Canvas.Pixel;
    var ix := 0;
    while ix != SCREEN_WIDTH
      invariant 0 <= ix <= SCREEN_WIDTH && canvas.Valid()
      invariant forall x, y :: 0 <= x < ix && 0 <= y < SCREEN_HEIGHT ==>
                  canvas.Pixel(x, canvas.height - 1 - y) == PixelColor(chip8.screen[..], x, y, onAlpha, offAlpha)
      invariant forall x, y :: 0 <= x < canvas.width && 0 <= y < canvas.height && (x >= ix || y < canvas.height - SCREEN_HEIGHT) ==>
                  canvas.Pixel(x, y) == old(canvas.Pixel(x, y))
    {
      ColumnToScreen(chip8, canvas, ix, onAlpha, offAlpha);
      ix := ix + 1;
    }
  }

  /** The colour `Chip8_to_screen` writes for CHIP-8 pixel (x, y). */
  function PixelColor(screen: seq<bv8>, x: nat, y: nat, onAlpha: bv8, offAlpha: bv8): PixelCanvas.RGBA
    requires |screen| == SCREEN_BYTES && x < SCREEN_WIDTH && y < SCREEN_HEIGHT
  {
    if PixelOn(screen, x, y) then ColorOn(onAlpha) else ColorOff(offAlpha)
  }

  /** The inner loop of `Chip8_to_screen`: the 32 pixels of column `ix`, and no other pixel. */
  method ColumnToScreen(chip8: Chip8, canvas: PixelCanvas.Canvas, ix: nat, onAlpha: bv8, offAlpha: bv8)
    requires chip8.Valid() && canvas.Valid() && ix < SCREEN_WIDTH
    requires canvas.width >= SCREEN_WIDTH && canvas.height >= SCREEN_HEIGHT
    modifies canvas.canvas
    ensures canvas.Valid()
    ensures forall y :: 0 <= y < SCREEN_HEIGHT ==>
              canvas.Pixel(ix, canvas.height - 1 - y) == PixelColor(chip8.screen[..], ix, y, onAlpha, offAlpha)
    ensures forall x, y :: 0 <= x < canvas.width && 0 <= y < canvas.height && (x != ix || y < canvas.height - SCREEN_HEIGHT) ==>
              canvas.Pixel(x, y) == old(canvas.Pixel(x, y))
  {
    // The column is tracked through the contract of `SetPixel`; the
    // buffer layout behind `Pixel` and `Valid` is not needed here.
    hide PixelCanvas.Canvas.Pixel, PixelCanvas.Canvas.Valid;
    var byteX := ix / 8 * SCREEN_HEIGHT;
    var bitX := ix % 8;
    ghost var screen := chip8.screen[..];
    var iy := 0;
    while iy != SCREEN_HEIGHT
      invariant 0 <= iy <= SCREEN_HEIGHT && canvas.Valid() && chip8.screen[..] == screen
      invariant forall y :: 0 <= y < iy ==>
                  canvas.Pixel(ix, canvas.height - 1 - y) == PixelColor(screen, ix, y, onAlpha, offAlpha)
      invariant forall x, y :: 0 <= x < canvas.width && 0 <= y < canvas.height && (x != ix || y < canvas.height - SCREEN_HEIGHT) ==>
                  canvas.Pixel(x, y) == old(canvas.Pixel(x, y))
    {
      var on := PixelBit(chip8.screen[byteX + iy], bitX);
      assert on == PixelOn(screen, ix, iy);
      canvas.SetPixel(ix, canvas.height - 1 - iy, if on then ColorOn(onAlpha) else ColorOff(offAlpha));
      iy := iy + 1;
    }
  }
}

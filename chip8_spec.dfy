/**
 * The CHIP-8 interpreter of main.cpp as values: the machine state, the
 * decoding of an instruction word, the effect of each instruction, one
 * iteration of the fetch-execute loop of `Chip8_step` and the whole loop.
 * The interpreter follows Cowgod's Chip-8 Technical Reference v1.0.
 *
 * Bytes (memory, registers, timers, screen, keys) are `bv8`, so byte
 * arithmetic wraps exactly as `u8` does; the 16-bit `I`, `PC`, `SP` and
 * stack entries are naturals, with the one 16-bit wrap-around that can
 * happen (`Fx1E`) written out.
 */
module Chip8Spec {
  import opened Random

  /** `Chip8::ERROR_TYPE`, in declaration order. */
  datatype Error =
    | None
    | MemoryOutOfBounds
    | RegisterOutOfBounds
    | PcIncorrect
    | SpIncorrect
    | InstructionUnknown
    | KeyUnknown
    | ScreenCoordIncorrect

  const MEMORY_SIZE: nat := 4096
  /** `sizeof(Chip8::Memory::Interpreter::sprites)`: the font occupies addresses 0 to 79. */
  const SPRITES_SIZE: nat := 80
  /** Where the program is loaded and where execution starts. */
  const USER_START: nat := 0x200
  /** `sizeof(Chip8::Memory::user_range)`: the largest ROM. */
  const USER_SIZE: nat := 3584
  const REGISTER_COUNT: nat := 16
  const STACK_SIZE: nat := 16
  const SCREEN_WIDTH: nat := 64
  const SCREEN_HEIGHT: nat := 32
  /** 64 x 32 pixels, eight to a byte, stored column-major: 32 bytes per byte-column. */
  const SCREEN_BYTES: nat := 256
  const KEY_COUNT: nat := 16
  const FLAG: nat := 15

  /** The sixteen 4x5 hexadecimal digit sprites `Chip8_create` copies to address 0. */
  const FONT: seq<bv8> :=
    [0xF0, 0x90, 0x90, 0x90, 0xF0] + // 0
    [0x20, 0x60, 0x20, 0x20, 0x70] + // 1
    [0xF0, 0x10, 0xF0, 0x80, 0xF0] + // 2
    [0xF0, 0x10, 0xF0, 0x10, 0xF0] + // 3
    [0x90, 0x90, 0xF0, 0x10, 0x10] + // 4
    [0xF0, 0x80, 0xF0, 0x10, 0xF0] + // 5
    [0xF0, 0x80, 0xF0, 0x90, 0xF0] + // 6
    [0xF0, 0x10, 0x20, 0x40, 0x40] + // 7
    [0xF0, 0x90, 0xF0, 0x90, 0xF0] + // 8
    [0xF0, 0x90, 0xF0, 0x10, 0xF0] + // 9
    [0xF0, 0x90, 0xF0, 0x90, 0x90] + // A
    [0xE0, 0x90, 0xE0, 0x90, 0xE0] + // B
    [0xF0, 0x80, 0x80, 0x80, 0xF0] + // C
    [0xE0, 0x90, 0x90, 0x90, 0xE0] + // D
    [0xF0, 0x80, 0xF0, 0x80, 0xF0] + // E
    [0xF0, 0x80, 0xF0, 0x80, 0x80]   // F

  /** The observable state of a `Chip8` (the floating-point speed and accumulators are left out). */
  datatype Machine = Machine(
    memory: seq<bv8>,
    v: seq<bv8>,
    i: nat,
    dt: bv8,
    st: bv8,
    pc: nat,
    sp: nat,
    stack: seq<nat>,
    screen: seq<bv8>,
    keyboard: seq<bv8>,
    lastKeyboard: seq<bv8>,
    error: Error)

  /** The fixed array sizes, a stack pointer within the stack and a 16-bit `I`. */
  predicate Wf(m: Machine)
  {
    && |m.memory| == MEMORY_SIZE && |m.v| == REGISTER_COUNT && |m.stack| == STACK_SIZE
    && |m.screen| == SCREEN_BYTES && |m.keyboard| == KEY_COUNT && |m.lastKeyboard| == KEY_COUNT
    && m.sp <= STACK_SIZE && m.i < 0x1_0000
  }

  function Zeros(n: nat): (s: seq<bv8>)
    ensures |s| == n && forall k :: 0 <= k < n ==> s[k] == 0
  {
    seq(n, _ => 0)
  }

  /**
   * The state `Chip8_create` builds from a ROM image: the font at address 0,
   * the ROM at 0x200, execution starting there, and everything else zero.
   */
  function Initial(rom: seq<bv8>): (m: Machine)
    requires |rom| <= USER_SIZE
    ensures Wf(m) && m.error == None && m.pc == USER_START
    ensures m.memory[..SPRITES_SIZE] == FONT
    ensures m.memory[USER_START..USER_START + |rom|] == rom
    ensures forall a :: SPRITES_SIZE <= a < USER_START || USER_START + |rom| <= a < MEMORY_SIZE ==> m.memory[a] == 0
    ensures m.i == 0 && m.dt == 0 && m.st == 0 && m.sp == 0
    ensures forall k :: 0 <= k < REGISTER_COUNT ==> m.v[k] == 0
    ensures forall k :: 0 <= k < STACK_SIZE ==> m.stack[k] == 0
    ensures forall k :: 0 <= k < SCREEN_BYTES ==> m.screen[k] == 0
    ensures forall k :: 0 <= k < KEY_COUNT ==> m.keyboard[k] == 0 && m.lastKeyboard[k] == 0
  {
    var memory := FONT + Zeros(USER_START - SPRITES_SIZE) + rom + Zeros(USER_SIZE - |rom|);
    assert memory[USER_START..USER_START + |rom|] == rom;
    Machine(memory, Zeros(REGISTER_COUNT), 0, 0, 0, USER_START, 0, seq(STACK_SIZE, _ => 0),
            Zeros(SCREEN_BYTES), Zeros(KEY_COUNT), Zeros(KEY_COUNT), None)
  }

  /**
   * The test of `Chip8_validate_memory`: a range starting inside the
   * reserved area between the font and the program, or reaching past
   * address 0xFFE, is refused.
   */
  predicate MemoryFault(address: nat, size: nat)
  {
    (address > SPRITES_SIZE && address < USER_START) || address + size > 0xFFF
  }

  /** `Chip8_validate_memory`: sets `MEMORY_OUT_OF_BOUNDS` on a refused range and leaves the state alone otherwise. */
  function ValidateMemory(m: Machine, address: nat, size: nat): (r: Machine)
  {
    if MemoryFault(address, size) then m.(error := MemoryOutOfBounds) else m
  }

  /** The test of `Chip8_validate_registers`. */
  predicate RegisterFault(index: nat, count: nat)
  {
    index + count > REGISTER_COUNT
  }

  /** The decoded form of an instruction word (section 3.1 of the reference), operands as naturals. */
  datatype Instr =
    | Cls | Ret
    | Jp(addr: nat) | Call(addr: nat)
    | SeByte(x: nat, kk: nat) | SneByte(x: nat, kk: nat) | SeReg(x: nat, y: nat)
    | LdByte(x: nat, kk: nat) | AddByte(x: nat, kk: nat)
    | LdReg(x: nat, y: nat) | Or(x: nat, y: nat) | And(x: nat, y: nat) | Xor(x: nat, y: nat)
    | AddReg(x: nat, y: nat) | Sub(x: nat, y: nat) | Shr(x: nat, y: nat) | Subn(x: nat, y: nat) | Shl(x: nat, y: nat)
    | SneReg(x: nat, y: nat)
    | LdI(addr: nat) | JpV0(addr: nat) | Rnd(x: nat, kk: nat) | Drw(x: nat, y: nat, n: nat)
    | Skp(x: nat) | Sknp(x: nat)
    | LdVxDt(x: nat) | LdKey(x: nat) | LdDtVx(x: nat) | LdStVx(x: nat) | AddI(x: nat)
    | LdFont(x: nat) | LdBcd(x: nat) | Store(x: nat) | Load(x: nat)
    | Unknown(hi: nat, lo: nat)

  /**
   * The dispatch of `Chip8_step` on the word `hi * 256 + lo`: the two exact
   * matches first, then the high nibble, with the low nibble or low byte
   * where the source masks them too.  Everything else is unknown.
   */
  function Decode(hi: nat, lo: nat): Instr
    requires hi < 256 && lo < 256
  {
    var op := hi / 16;
    var x := hi % 16;
    var y := lo / 16;
    var n := lo % 16;
    var nnn := x * 256 + lo;
    if hi == 0x00 && lo == 0xE0 then Cls
    else if hi == 0x00 && lo == 0xEE then Ret
    else if op == 0x1 then Jp(nnn)
    else if op == 0x2 then Call(nnn)
    else if op == 0x3 then SeByte(x, lo)
    else if op == 0x4 then SneByte(x, lo)
    else if op == 0x5 && n == 0x0 then SeReg(x, y)
    else if op == 0x6 then LdByte(x, lo)
    else if op == 0x7 then AddByte(x, lo)
    else if op == 0x8 && n == 0x0 then LdReg(x, y)
    else if op == 0x8 && n == 0x1 then Or(x, y)
    else if op == 0x8 && n == 0x2 then And(x, y)
    else if op == 0x8 && n == 0x3 then Xor(x, y)
    else if op == 0x8 && n == 0x4 then AddReg(x, y)
    else if op == 0x8 && n == 0x5 then Sub(x, y)
    else if op == 0x8 && n == 0x6 then Shr(x, y)
    else if op == 0x8 && n == 0x7 then Subn(x, y)
    else if op == 0x8 && n == 0xE then Shl(x, y)
    else if op == 0x9 && n == 0x0 then SneReg(x, y)
    else if op == 0xA then LdI(nnn)
    else if op == 0xB then JpV0(nnn)
    else if op == 0xC then Rnd(x, lo)
    else if op == 0xD then Drw(x, y, n)
    else if op == 0xE && lo == 0x9E then Skp(x)
    else if op == 0xE && lo == 0xA1 then Sknp(x)
    else if op == 0xF && lo == 0x07 then LdVxDt(x)
    else if op == 0xF && lo == 0x0A then LdKey(x)
    else if op == 0xF && lo == 0x15 then LdDtVx(x)
    else if op == 0xF && lo == 0x18 then LdStVx(x)
    else if op == 0xF && lo == 0x1E then AddI(x)
    else if op == 0xF && lo == 0x29 then LdFont(x)
    else if op == 0xF && lo == 0x33 then LdBcd(x)
    else if op == 0xF && lo == 0x55 then Store(x)
    else if op == 0xF && lo == 0x65 then Load(x)
    else Unknown(hi, lo)
  }

  /** The byte pair of the canonical encoding of an instruction. */
  function Encode(ins: Instr): (w: (nat, nat))
  {
    match ins
    case Cls => (0x00, 0xE0)
    case Ret => (0x00, 0xEE)
    case Jp(a) => (0x10 + a / 256, a % 256)
    case Call(a) => (0x20 + a / 256, a % 256)
    case SeByte(x, kk) => (0x30 + x, kk)
    case SneByte(x, kk) => (0x40 + x, kk)
    case SeReg(x, y) => (0x50 + x, y * 16)
    case LdByte(x, kk) => (0x60 + x, kk)
    case AddByte(x, kk) => (0x70 + x, kk)
    case LdReg(x, y) => (0x80 + x, y * 16)
    case Or(x, y) => (0x80 + x, y * 16 + 0x1)
    case And(x, y) => (0x80 + x, y * 16 + 0x2)
    case Xor(x, y) => (0x80 + x, y * 16 + 0x3)
    case AddReg(x, y) => (0x80 + x, y * 16 + 0x4)
    case Sub(x, y) => (0x80 + x, y * 16 + 0x5)
    case Shr(x, y) => (0x80 + x, y * 16 + 0x6)
    case Subn(x, y) => (0x80 + x, y * 16 + 0x7)
    case Shl(x, y) => (0x80 + x, y * 16 + 0xE)
    case SneReg(x, y) => (0x90 + x, y * 16)
    case LdI(a) => (0xA0 + a / 256, a % 256)
    case JpV0(a) => (0xB0 + a / 256, a % 256)
    case Rnd(x, kk) => (0xC0 + x, kk)
    case Drw(x, y, n) => (0xD0 + x, y * 16 + n)
    case Skp(x) => (0xE0 + x, 0x9E)
    case Sknp(x) => (0xE0 + x, 0xA1)
    case LdVxDt(x) => (0xF0 + x, 0x07)
    case LdKey(x) => (0xF0 + x, 0x0A)
    case LdDtVx(x) => (0xF0 + x, 0x15)
    case LdStVx(x) => (0xF0 + x, 0x18)
    case AddI(x) => (0xF0 + x, 0x1E)
    case LdFont(x) => (0xF0 + x, 0x29)
    case LdBcd(x) => (0xF0 + x, 0x33)
    case Store(x) => (0xF0 + x, 0x55)
    case Load(x) => (0xF0 + x, 0x65)
    case Unknown(hi, lo) => (hi, lo)
  }

  /** Operands that fit their fields: nibbles below 16, bytes below 256, addresses below 4096. */
  predicate WfInstr(ins: Instr)
  {
    match ins
    case Cls => true
    case Ret => true
    case Jp(a) => a < 0x1000
    case Call(a) => a < 0x1000
    case LdI(a) => a < 0x1000
    case JpV0(a) => a < 0x1000
    case SeByte(x, kk) => x < 16 && kk < 256
    case SneByte(x, kk) => x < 16 && kk < 256
    case LdByte(x, kk) => x < 16 && kk < 256
    case AddByte(x, kk) => x < 16 && kk < 256
    case Rnd(x, kk) => x < 16 && kk < 256
    case SeReg(x, y) => x < 16 && y < 16
    case LdReg(x, y) => x < 16 && y < 16
    case Or(x, y) => x < 16 && y < 16
    case And(x, y) => x < 16 && y < 16
    case Xor(x, y) => x < 16 && y < 16
    case AddReg(x, y) => x < 16 && y < 16
    case Sub(x, y) => x < 16 && y < 16
    case Shr(x, y) => x < 16 && y < 16
    case Subn(x, y) => x < 16 && y < 16
    case Shl(x, y) => x < 16 && y < 16
    case SneReg(x, y) => x < 16 && y < 16
    case Drw(x, y, n) => x < 16 && y < 16 && n < 16
    case Skp(x) => x < 16
    case Sknp(x) => x < 16
    case LdVxDt(x) => x < 16
    case LdKey(x) => x < 16
    case LdDtVx(x) => x < 16
    case LdStVx(x) => x < 16
    case AddI(x) => x < 16
    case LdFont(x) => x < 16
    case LdBcd(x) => x < 16
    case Store(x) => x < 16
    case Load(x) => x < 16
    case Unknown(hi, lo) => hi < 256 && lo < 256
  }

  // ---- the sprite draw ----

  function ShiftRight(b: bv8, bits: bv8): bv8 requires bits < 8 { b >> bits }
  function ShiftLeft(b: bv8, bits: bv8): bv8 requires bits <= 8 { b << bits }

  /** One sprite row moved right by `bits` within its byte (`src >> AB_bitstart`). */
  function ShiftedRight(sprite: seq<bv8>, bits: bv8): (r: seq<bv8>)
    requires bits < 8
    ensures |r| == |sprite|
  {
    seq(|sprite|, k requires 0 <= k < |sprite| => ShiftRight(sprite[k], bits))
  }

  /** The bits that spill into the next byte-column (`src << ABdash_bitcount`). */
  function ShiftedLeft(sprite: seq<bv8>, bits: bv8): (r: seq<bv8>)
    requires 0 < bits <= 8
    ensures |r| == |sprite|
  {
    seq(|sprite|, k requires 0 <= k < |sprite| => ShiftLeft(sprite[k], bits))
  }

  /** One of the four row loops of the draw: `screen[base + k] ^= vals[k]` for every k. */
  function XorPass(screen: seq<bv8>, base: nat, vals: seq<bv8>): (r: seq<bv8>)
    requires base + |vals| <= |screen|
    ensures |r| == |screen|
  {
    seq(|screen|, j requires 0 <= j < |screen| =>
      if base <= j < base + |vals| then Flip(screen[j], vals[j - base]) else screen[j])
  }

  /** `SCREENbyte ^ src`. */
  function Flip(b: bv8, val: bv8): bv8 { b ^ val }

  /** `SCREENbyte & ~new_SCREENbyte`: whether XOR-ing `val` into `b` clears a set bit. */
  predicate Clears(b: bv8, val: bv8) { b & !Flip(b, val) != 0 }

  /** Whether that loop clears a set bit: `SCREENbyte & ~new_SCREENbyte` is non-zero for some row. */
  predicate PassErases(screen: seq<bv8>, base: nat, vals: seq<bv8>)
    requires base + |vals| <= |screen|
  {
    exists k :: 0 <= k < |vals| && Clears(screen[base + k], vals[k])
  }

  /** Whether one of the first `n` rows of a pass clears a set bit: the flag as the row loop accumulates it. */
  predicate ErasesWithin(screen: seq<bv8>, base: nat, vals: seq<bv8>, n: nat)
    requires base + |vals| <= |screen| && n <= |vals|
    decreases n
  {
    n > 0 && (ErasesWithin(screen, base, vals, n - 1) || Clears(screen[base + n - 1], vals[n - 1]))
  }

  /** The accumulated flag is the existential one. */
  lemma {:induction false} ErasesWithinExists(screen: seq<bv8>, base: nat, vals: seq<bv8>, n: nat)
    requires base + |vals| <= |screen| && n <= |vals|
    ensures ErasesWithin(screen, base, vals, n) <==> exists k :: 0 <= k < n && Clears(screen[base + k], vals[k])
    decreases n
  {
    if n > 0 {
      ErasesWithinExists(screen, base, vals, n - 1);
    }
  }

  /** Where the left byte-column's rows start (`AB_byte_x * 32 + A_start_y`). */
  function DrawLeft(x: nat): nat requires x < SCREEN_WIDTH { x / 8 }
  /** The byte-column that receives the spilled bits: the next one, wrapping from 7 to 0. */
  function DrawRight(x: nat): nat requires x < SCREEN_WIDTH { (x / 8 + 1) % 8 }
  /** The rows that fit below the bottom edge (`A_height`); the rest wrap to row 0. */
  function DirectRows(y: nat, n: nat): nat requires y <= SCREEN_HEIGHT { if n < SCREEN_HEIGHT - y then n else SCREEN_HEIGHT - y }

  /**
   * `Dxyn` on the screen: the sprite rows shifted right by `x % 8` are
   * XOR-ed into byte-column `x / 8`, first on rows `y ..` down to the last
   * row and then, for the rows that did not fit, from row 0; when `x` is not
   * byte-aligned the bits shifted out are XOR-ed the same way into the next
   * byte-column.  The flag says whether any pass cleared a set bit.
   */
  function DrawSprite(screen: seq<bv8>, x: nat, y: nat, sprite: seq<bv8>): (r: (seq<bv8>, bool))
    requires |screen| == SCREEN_BYTES && x < SCREEN_WIDTH && y < SCREEN_HEIGHT && |sprite| < SCREEN_HEIGHT
    ensures |r.0| == SCREEN_BYTES
  {
    var bit := (x % 8) as bv8;
    DrawPasses(screen, DrawLeft(x) * SCREEN_HEIGHT, DrawRight(x) * SCREEN_HEIGHT, y, DirectRows(y, |sprite|),
               ShiftedRight(sprite, bit), ShiftedLeft(sprite, 8 - bit), bit != 0)
  }

  /**
   * The four row loops of `Dxyn` in order: `left[..a]` from row `y` and
   * `left[a..]` from row 0 of the column starting at `baseL`, then, when
   * `spill` holds, `right` the same way in the column at `baseR`.
   */
  function DrawPasses(screen: seq<bv8>, baseL: nat, baseR: nat, y: nat, a: nat,
                      left: seq<bv8>, right: seq<bv8>, spill: bool): (r: (seq<bv8>, bool))
    requires |screen| == SCREEN_BYTES && a <= |left| == |right|
    requires baseL + y + a <= SCREEN_BYTES && baseL + (|left| - a) <= SCREEN_BYTES
    requires baseR + y + a <= SCREEN_BYTES && baseR + (|right| - a) <= SCREEN_BYTES
    ensures |r.0| == SCREEN_BYTES
  {
    var s1 := XorPass(screen, baseL + y, left[..a]);
    var s2 := XorPass(s1, baseL, left[a..]);
    var e12 := PassErases(screen, baseL + y, left[..a]) || PassErases(s1, baseL, left[a..]);
    if spill then
      var s3 := XorPass(s2, baseR + y, right[..a]);
      var s4 := XorPass(s3, baseR, right[a..]);
      (s4, e12 || PassErases(s2, baseR + y, right[..a]) || PassErases(s3, baseR, right[a..]))
    else
      (s2, e12)
  }

  /** The lowest key released since the last instruction (`!KEYBOARD[k] && LAST_KEYBOARD[k]`), or 16 if none. */
  function FirstRelease(keyboard: seq<bv8>, lastKeyboard: seq<bv8>, from: nat): (k: nat)
    requires |keyboard| == KEY_COUNT && |lastKeyboard| == KEY_COUNT && from <= KEY_COUNT
    ensures from <= k <= KEY_COUNT
    decreases KEY_COUNT - from
  {
    if from == KEY_COUNT then KEY_COUNT
    else if keyboard[from] == 0 && lastKeyboard[from] != 0 then from
    else FirstRelease(keyboard, lastKeyboard, from + 1)
  }

  /** Skips the next instruction when `cond` holds. */
  function SkipIf(m: Machine, cond: bool): Machine
  {
    if cond then m.(pc := m.pc + 2) else m
  }

  /**
   * One instruction on an error-free machine whose `PC` already points past
   * it.  The byte `rnd` is the `random_char` draw `Cxkk` uses.  On an error
   * the error is recorded and the rest of the instruction is skipped.
   */
  function Execute(m: Machine, ins: Instr, rnd: bv8): (r: Machine)
    requires Wf(m) && m.error == None && WfInstr(ins) && m.pc >= 2
    ensures Wf(r) && r.keyboard == m.keyboard
  {
    match GroupOf(ins)
    case FlowGroup => ExecuteFlow(m, ins)
    case TestGroup => ExecuteTest(m, ins)
    case LoadGroup => ExecuteLoad(m, ins, rnd)
    case ArithGroup => ExecuteArith(m, ins)
    case DrawGroup => ExecuteDraw(m, ins.x, ins.y, ins.n)
    case IndexGroup => ExecuteIndex(m, ins)
    case MemoryGroup => ExecuteMemory(m, ins)
    case UnknownGroup => m.(error := InstructionUnknown)
  }

  datatype Group = FlowGroup | TestGroup | LoadGroup | ArithGroup | DrawGroup | IndexGroup | MemoryGroup | UnknownGroup

  function GroupOf(ins: Instr): (g: Group)
    ensures g == DrawGroup <==> ins.Drw?
    ensures g == UnknownGroup <==> ins.Unknown?
  {
    match ins
    case Cls | Ret | Jp(_) | Call(_) | JpV0(_) => FlowGroup
    case SeByte(_, _) | SneByte(_, _) | SeReg(_, _) | SneReg(_, _) | Skp(_) | Sknp(_) | LdKey(_) => TestGroup
    case LdByte(_, _) | AddByte(_, _) | LdReg(_, _) | Or(_, _) | And(_, _) | Xor(_, _) | Rnd(_, _) => LoadGroup
    case AddReg(_, _) | Sub(_, _) | Shr(_, _) | Subn(_, _) | Shl(_, _) => ArithGroup
    case Drw(_, _, _) => DrawGroup
    case LdI(_) | LdVxDt(_) | LdDtVx(_) | LdStVx(_) | AddI(_) | LdFont(_) => IndexGroup
    case LdBcd(_) | Store(_) | Load(_) => MemoryGroup
    case Unknown(_, _) => UnknownGroup
  }

  /**
   * `00E0`, `00EE`, `1nnn`, `2nnn` and `Bnnn`.  The call guard is stated as
   * the evident intent: a full stack (`SP >= 16`) is refused, with the
   * code's own `SP_INCORRECT` (see `CallPushAsWritten`).
   */
  function ExecuteFlow(m: Machine, ins: Instr): (r: Machine)
    requires Wf(m) && m.error == None && WfInstr(ins)
    ensures Wf(r) && r.keyboard == m.keyboard
  {
    if ins.Cls? then m.(screen := Zeros(SCREEN_BYTES))
    else if ins.Ret? then
      if m.sp == 0 then m.(error := SpIncorrect)
      else m.(sp := m.sp - 1, pc := m.stack[m.sp - 1])
    else if ins.Jp? then
      if MemoryFault(ins.addr, 1) then m.(error := MemoryOutOfBounds) else m.(pc := ins.addr)
    else if ins.Call? then
      var m1 := if m.sp >= STACK_SIZE then m.(error := SpIncorrect) else m;
      var m2 := ValidateMemory(m1, ins.addr, 2);
      if m2.error != None then m2
      else m.(stack := m.stack[m.sp := m.pc], sp := m.sp + 1, pc := ins.addr)
    else if ins.JpV0? then
      var target := ins.addr + m.v[0] as int;
      if MemoryFault(target, 2) then m.(error := MemoryOutOfBounds) else m.(pc := target)
    else m
  }

  /**
   * The skips `3xkk`, `4xkk`, `5xy0`, `9xy0`, `Ex9E`, `ExA1` and the key
   * wait `Fx0A`.  The `Ex9E` guard is stated as the evident intent: a key of
   * 16 or more is refused with `KEY_UNKNOWN` (see `SkipKeyAsWritten`).
   */
  function ExecuteTest(m: Machine, ins: Instr): (r: Machine)
    requires Wf(m) && m.error == None && WfInstr(ins) && m.pc >= 2
    ensures Wf(r) && r.keyboard == m.keyboard
  {
    if ins.SeByte? then SkipIf(m, m.v[ins.x] == ins.kk as bv8)
    else if ins.SneByte? then SkipIf(m, m.v[ins.x] != ins.kk as bv8)
    else if ins.SeReg? then SkipIf(m, m.v[ins.x] == m.v[ins.y])
    else if ins.SneReg? then SkipIf(m, m.v[ins.x] != m.v[ins.y])
    else if ins.Skp? then
      var key := m.v[ins.x] as int;
      if key >= KEY_COUNT then m.(error := KeyUnknown) else SkipIf(m, m.keyboard[key] != 0)
    else if ins.Sknp? then
      var key := m.v[ins.x] as int;
      if key >= KEY_COUNT then m.(error := KeyUnknown) else SkipIf(m, m.keyboard[key] == 0)
    else if ins.LdKey? then
      var key := FirstRelease(m.keyboard, m.lastKeyboard, 0);
      if key < KEY_COUNT then m.(v := m.v[ins.x := key as bv8]) else m.(pc := m.pc - 2)
    else m
  }

  /** `6xkk`, `7xkk`, `8xy0` to `8xy3` and `Cxkk`: one register takes a new value, no flag. */
  function ExecuteLoad(m: Machine, ins: Instr, rnd: bv8): (r: Machine)
    requires Wf(m) && WfInstr(ins)
    ensures Wf(r) && r.keyboard == m.keyboard
  {
    m.(v := LoadRegs(m.v, ins, rnd))
  }

  /** The registers after a load: `Vx` alone takes its new value. */
  function LoadRegs(v: seq<bv8>, ins: Instr, rnd: bv8): (r: seq<bv8>)
    requires |v| == REGISTER_COUNT && WfInstr(ins)
    ensures |r| == REGISTER_COUNT
  {
    if IsLoad(ins) then v[ins.x := Loaded(v, ins, rnd)] else v
  }

  predicate IsLoad(ins: Instr)
  {
    ins.LdByte? || ins.AddByte? || ins.LdReg? || ins.Or? || ins.And? || ins.Xor? || ins.Rnd?
  }

  /** The value a load gives `Vx`: `7xkk` wraps around at 256, `Cxkk` masks the random byte. */
  function Loaded(v: seq<bv8>, ins: Instr, rnd: bv8): bv8
    requires |v| == REGISTER_COUNT && WfInstr(ins) && IsLoad(ins)
  {
    if ins.LdByte? then ins.kk as bv8
    else if ins.AddByte? then v[ins.x] + ins.kk as bv8
    else if ins.LdReg? then v[ins.y]
    else if ins.Or? then v[ins.x] | v[ins.y]
    else if ins.And? then v[ins.x] & v[ins.y]
    else if ins.Xor? then v[ins.x] ^ v[ins.y]
    else rnd & ins.kk as bv8
  }

  /**
   * `8xy4` to `8xyE`: `VF` is written first and the result is computed from
   * the registers as they are after that write, as the source does; the sum
   * of `8xy4` is formed in 16 bits (`short add`) and then truncated.
   */
  function ExecuteArith(m: Machine, ins: Instr): (r: Machine)
    requires Wf(m) && WfInstr(ins)
    ensures Wf(r) && r.keyboard == m.keyboard
  {
    if ins.AddReg? then m.(v := AddRegs(m.v, ins.x, ins.y))
    else if ins.Sub? then m.(v := SubRegs(m.v, ins.x, ins.y))
    else if ins.Shr? then m.(v := ShrRegs(m.v, ins.x))
    else if ins.Subn? then m.(v := SubnRegs(m.v, ins.x, ins.y))
    else if ins.Shl? then m.(v := ShlRegs(m.v, ins.x))
    else m
  }

  /** The register file after `8xy4`. */
  function AddRegs(v: seq<bv8>, x: nat, y: nat): (r: seq<bv8>)
    requires |v| == REGISTER_COUNT && x < 16 && y < 16
    ensures |r| == REGISTER_COUNT
  {
    var sum := v[x] as bv16 + v[y] as bv16;
    var v1 := v[FLAG := if sum > 255 then 1 else 0];
    v1[x := LowByte(sum)]
  }

  /** The register file after `8xy5`. */
  function SubRegs(v: seq<bv8>, x: nat, y: nat): (r: seq<bv8>)
    requires |v| == REGISTER_COUNT && x < 16 && y < 16
    ensures |r| == REGISTER_COUNT
  {
    var v1 := v[FLAG := if v[x] > v[y] then 1 else 0];
    v1[x := v1[x] - v1[y]]
  }

  /** The register file after `8xy6`. */
  function ShrRegs(v: seq<bv8>, x: nat): (r: seq<bv8>)
    requires |v| == REGISTER_COUNT && x < 16
    ensures |r| == REGISTER_COUNT
  {
    var v1 := v[FLAG := v[x] & 0x01];
    v1[x := v1[x] >> 1]
  }

  /** The register file after `8xy7`. */
  function SubnRegs(v: seq<bv8>, x: nat, y: nat): (r: seq<bv8>)
    requires |v| == REGISTER_COUNT && x < 16 && y < 16
    ensures |r| == REGISTER_COUNT
  {
    var v1 := v[FLAG := if v[y] > v[x] then 1 else 0];
    v1[x := v1[y] - v1[x]]
  }

  /** The register file after `8xyE`. */
  function ShlRegs(v: seq<bv8>, x: nat): (r: seq<bv8>)
    requires |v| == REGISTER_COUNT && x < 16
    ensures |r| == REGISTER_COUNT
  {
    var v1 := v[FLAG := (v[x] & 0x80) >> 7];
    v1[x := v1[x] << 1]
  }

  /** `Dxyn`: the coordinates are validated, then the `n` sprite bytes at `I`, then the sprite is drawn and `VF` set to the erasure flag. */
  function ExecuteDraw(m: Machine, x: nat, y: nat, n: nat): (r: Machine)
    requires Wf(m) && m.error == None && x < 16 && y < 16 && n < 16
    ensures Wf(r) && r.keyboard == m.keyboard
  {
    var px := m.v[x] as int;
    var py := m.v[y] as int;
    var m1 := if px >= SCREEN_WIDTH || py >= SCREEN_HEIGHT || n >= SCREEN_HEIGHT then m.(error := ScreenCoordIncorrect) else m;
    var m2 := ValidateMemory(m1, m.i, n);
    if m2.error != None then m2 else DrawChecked(m, px, py, n)
  }

  /** `Dxyn` once its checks passed: the `n` sprite rows at `I` are drawn and `VF` records the erasure. */
  function DrawChecked(m: Machine, px: nat, py: nat, n: nat): (r: Machine)
    requires Wf(m) && px < SCREEN_WIDTH && py < SCREEN_HEIGHT && n < SCREEN_HEIGHT && !MemoryFault(m.i, n)
    ensures Wf(r) && r.keyboard == m.keyboard
  {
    var drawn := DrawSprite(m.screen, px, py, m.memory[m.i..m.i + n]);
    m.(screen := drawn.0, v := m.v[FLAG := if drawn.1 then 1 else 0])
  }

  /** `Annn`, `Fx07`, `Fx15`, `Fx18`, `Fx1E` (16-bit wrap-around) and `Fx29`. */
  function ExecuteIndex(m: Machine, ins: Instr): (r: Machine)
    requires Wf(m) && WfInstr(ins)
    ensures Wf(r) && r.keyboard == m.keyboard
  {
    if ins.LdI? then m.(i := ins.addr)
    else if ins.LdVxDt? then m.(v := m.v[ins.x := m.dt])
    else if ins.LdDtVx? then m.(dt := m.v[ins.x])
    else if ins.LdStVx? then m.(st := m.v[ins.x])
    else if ins.AddI? then m.(i := (m.i + m.v[ins.x] as int) % 0x1_0000)
    else if ins.LdFont? then m.(i := (m.v[ins.x] & 0x0F) as int * 5)
    else m
  }

  /** `Fx33`, `Fx55` and `Fx65`: the range at `I` is validated, then written or read. */
  function ExecuteMemory(m: Machine, ins: Instr): (r: Machine)
    requires Wf(m) && WfInstr(ins)
    ensures Wf(r) && r.keyboard == m.keyboard
  {
    if ins.LdBcd? then
      if MemoryFault(m.i, 3) then m.(error := MemoryOutOfBounds)
      else
        var b := m.v[ins.x];
        m.(memory := m.memory[m.i := b / 100][m.i + 1 := (b % 100) / 10][m.i + 2 := b % 10])
    else if ins.Store? then
      if MemoryFault(m.i, ins.x + 1) then m.(error := MemoryOutOfBounds)
      else m.(memory := m.memory[..m.i] + m.v[..ins.x + 1] + m.memory[m.i + ins.x + 1..])
    else if ins.Load? then
      if MemoryFault(m.i, ins.x + 1) then m.(error := MemoryOutOfBounds)
      else m.(v := m.memory[m.i..m.i + ins.x + 1] + m.v[ins.x + 1..])
    else m
  }

  /** The truncation `(u8)w` of a 16-bit word. */
  function LowByte(w: bv16): bv8
  {
    (w & 0xFF) as bv8
  }

  /** The truncating cast `(u8)d` of a non-negative count. */
  function Truncate(d: nat): bv8
  {
    (d % 256) as bv8
  }

  /** `DT -= min(DT, d)`: the timer counts down by `d` and stops at zero. */
  function CountDown(t: bv8, d: bv8): bv8
  {
    t - (if t < d then t else d)
  }

  /** The instruction word at `PC`, high byte first. */
  function Fetch(m: Machine): (ins: Instr)
    requires Wf(m) && m.pc + 1 < MEMORY_SIZE
    ensures WfInstr(ins)
  {
    DecodeWf(m.memory[m.pc] as int, m.memory[m.pc + 1] as int);
    Decode(m.memory[m.pc] as int, m.memory[m.pc + 1] as int)
  }

  /**
   * One iteration of the loop of `Chip8_step`: the timers count down, the
   * fetch address is validated (which also stops a machine whose error is
   * already set), the fetched instruction runs with `PC` advanced, and a
   * completed instruction copies the keyboard into `LAST_KEYBOARD`.  The
   * generator is drawn from only by `Cxkk`.
   */
  function Cycle(m: Machine, decrement: nat, seed: Seed): (r: (Machine, Seed))
    requires Wf(m)
    ensures Wf(r.0)
  {
    var m1 := Tick(m, Truncate(decrement));
    var m2 := ValidateMemory(m1, m1.pc, 2);
    if m2.error != None then (m2, seed) else Issue(m2, seed)
  }

  /** Both timers count down by the same decrement. */
  function Tick(m: Machine, d: bv8): (r: Machine)
    requires Wf(m)
    ensures Wf(r)
  {
    m.(dt := CountDown(m.dt, d), st := CountDown(m.st, d))
  }

  /**
   * The fetch and execution of the instruction at a valid `PC`, and the copy
   * of the keyboard into `LAST_KEYBOARD` when it completes.
   */
  function Issue(m: Machine, seed: Seed): (r: (Machine, Seed))
    requires Wf(m) && m.error == None && !MemoryFault(m.pc, 2)
    ensures Wf(r.0)
  {
    var ins := Fetch(m);
    var seed' := if ins.Rnd? then Successor(seed) else seed;
    (Complete(Execute(m.(pc := m.pc + 2), ins, CharOf(seed))), seed')
  }

  function Complete(m: Machine): (r: Machine)
    requires Wf(m)
    ensures Wf(r)
  {
    if m.error != None then m else m.(lastKeyboard := m.keyboard)
  }

  /**
   * `Chip8_step` with `count` instructions to run and one timer decrement
   * per instruction: the new machine, the generator state and the number of
   * loop iterations whose instruction completed.
   */
  function Run(m: Machine, count: nat, decrements: seq<nat>, seed: Seed): (r: (Machine, Seed, nat))
    requires Wf(m) && |decrements| >= count
    ensures Wf(r.0) && r.2 <= count
    decreases count
  {
    if count == 0 then (m, seed, 0)
    else
      var c := Cycle(m, decrements[0], seed);
      if c.0.error != None then (c.0, c.1, 0)
      else
        var rest := Run(c.0, count - 1, decrements[1..], c.1);
        (rest.0, rest.1, rest.2 + 1)
  }

  /** Every word decodes to an instruction whose operands fit their fields. */
  lemma DecodeWf(hi: nat, lo: nat)
    requires hi < 256 && lo < 256
    ensures WfInstr(Decode(hi, lo))
  {
  }


  /** `Chip8_to_screen`'s test for pixel (x, y), with (0, 0) at the top left: bit `7 - x % 8` of its byte. */
  predicate PixelOn(screen: seq<bv8>, x: nat, y: nat)
    requires |screen| == SCREEN_BYTES && x < SCREEN_WIDTH && y < SCREEN_HEIGHT
  {
    PixelBit(screen[x / 8 * SCREEN_HEIGHT + y], x % 8)
  }

  /** Bit `k` of a byte, counting from the most significant one: `(b >> (7 - k)) & 0x01`. */
  predicate PixelBit(b: bv8, k: nat)
    requires k < 8
  {
    (b >> (7 - k) as bv8) & 0x01 != 0
  }
}

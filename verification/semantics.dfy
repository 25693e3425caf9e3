/** The CHIP-8 machine state as a value, and what reset, clear-display,
    the ROM copy and one fetch/decode/execute step do to it.

    Only the instructions the interpreter executes have an effect: 00E0
    (clear display), 1NNN (jump), 6XNN (load), 7XNN (add, no flag), ANNN
    (set index) and DXYN (draw). Every other opcode, 00EE included, only
    raises the error flag. */
module Semantics {
  import opened Decode
  import Sprite

  const MEMORY_SIZE := 0x1000
  /** Where programs are loaded and where execution starts. */
  const PROGRAM_START := 0x200
  /** Number of general registers, of stack slots and of keys. */
  const SLOTS := 16
  /** Register VF, the collision flag of DXYN. */
  const FLAG := 0xF

  /** Every field of the interpreter object, with its declared width. */
  datatype State = State(
    memory: seq<byte>,    // 4 KiB of RAM
    display: seq<u32>,   // 64 x 32 cells, row-major
    V: seq<byte>,         // registers V0 .. VF
    S: seq<word>,         // return-address stack
    keys: seq<bool>,      // key states 0 .. F
    PC: word,             // program counter
    IP: word,             // index register
    SP: byte,             // index of the top of the stack
    sound: byte,          // sound timer
    delay: byte,          // delay timer
    drawReady: bool,      // the display changed since it was last shown
    error: bool,          // an unimplemented opcode was executed
    opcode: word)         // the instruction word fetched last

  /** The fixed sizes of the memory, the display and the register files. */
  predicate WellFormed(s: State)
  {
    |s.memory| == MEMORY_SIZE && |s.display| == Sprite.DISPLAY_SIZE
    && |s.V| == SLOTS && |s.S| == SLOTS && |s.keys| == SLOTS
  }

  /** The state `reset()` leaves behind, whatever came before. */
  function Reset(): (s: State)
    ensures WellFormed(s)
  {
    State(seq(MEMORY_SIZE, _ => 0), seq(Sprite.DISPLAY_SIZE, _ => 0), seq(SLOTS, _ => 0),
          seq(SLOTS, _ => 0), seq(SLOTS, _ => false),
          PROGRAM_START, 0, 0, 0, 0, true, false, 0)
  }

  /** `clear_display()`. */
  function ClearDisplay(s: State): (r: State)
    requires WellFormed(s)
    ensures WellFormed(r)
  {
    s.(display := seq(Sprite.DISPLAY_SIZE, _ => 0), drawReady := true)
  }

  /** `UNI()`: record that the opcode is not implemented. */
  function Unimplemented(s: State): (r: State)
    ensures r.error && r.(error := s.error) == s
  {
    s.(error := true)
  }

  /** `SYSCALL()`, the 0NNN family: only 00E0 is carried out. */
  function Syscall(s: State): (r: State)
    requires WellFormed(s)
    ensures WellFormed(r)
  {
    match Nnn(s.opcode)
    case 0x0E0 => ClearDisplay(s)
    case 0x0EE => Unimplemented(s)
    case _ => Unimplemented(s)
  }

  /** The column and line of a DXYN sprite: `V[X] % 64` and `V[Y] % 32`. */
  function SpriteX(s: State): (x: nat)
    requires WellFormed(s)
    ensures x < Sprite.DISPLAY_WIDTH
  {
    s.V[X(s.opcode)] % 64
  }

  function SpriteY(s: State): (y: nat)
    requires WellFormed(s)
    ensures y < Sprite.DISPLAY_HEIGHT
  {
    s.V[Y(s.opcode)] % 32
  }

  /** A DXYN sprite reads memory and addresses display cells only inside
      the arrays. The interpreter checks neither; outside them its behaviour
      is undefined. */
  predicate DrawFits(s: State)
  {
    var n := N(s.opcode);
    WellFormed(s) && (n == 0 || (s.IP + n <= MEMORY_SIZE && Sprite.Fits(SpriteX(s), SpriteY(s), n)))
  }

  /** The N sprite row bytes of a DXYN, `memory[IP .. IP + N]`. */
  function SpriteRows(s: State): (rows: seq<byte>)
    requires DrawFits(s)
    ensures |rows| == N(s.opcode)
    ensures forall r :: 0 <= r < |rows| ==> rows[r] == s.memory[s.IP + r]
  {
    var n := N(s.opcode);
    if n == 0 then [] else s.memory[s.IP..s.IP + n]
  }

  /** `DRAW()`: XOR the sprite onto the display, VF := collision, and flag
      the display for redrawing. */
  function DrawSprite(s: State): (r: State)
    requires DrawFits(s)
    ensures WellFormed(r)
  {
    var c := Sprite.Draw(s.display, SpriteX(s), SpriteY(s), SpriteRows(s));
    s.(display := c.cells, V := s.V[FLAG := if c.collided then 1 else 0], drawReady := true)
  }

  /** The state can execute its current opcode without leaving the arrays. */
  predicate CanEmulate(s: State)
  {
    WellFormed(s) && (Index(s.opcode) == 0xD ==> DrawFits(s))
  }

  /** `emulate()`: dispatch on the instruction family. */
  function Emulate(s: State): (r: State)
    requires CanEmulate(s)
    ensures WellFormed(r)
  {
    var op := s.opcode;
    match Index(op)
    case 0x0 => Syscall(s)
    case 0x1 => s.(PC := Nnn(op))
    case 0x6 => s.(V := s.V[X(op) := Nn(op)])
    case 0x7 => s.(V := s.V[X(op) := (s.V[X(op)] as int + Nn(op) as int) % 0x100])
    case 0xA => s.(IP := Nnn(op))
    case 0xD => DrawSprite(s)
    case _ => Unimplemented(s)
  }

  /** The instruction word at the program counter, high byte first. The
      interpreter does not check that both bytes are inside memory. */
  function Fetch(s: State): (opcode: word)
    requires WellFormed(s) && s.PC + 1 < MEMORY_SIZE
    ensures opcode / 0x100 == s.memory[s.PC] && opcode % 0x100 == s.memory[s.PC + 1]
  {
    Word(s.memory[s.PC], s.memory[s.PC + 1])
  }

  /** The state after the fetch half of `step()`: the fetched opcode is
      stored and the 16-bit program counter advanced by two. */
  function Fetched(s: State): (r: State)
    requires WellFormed(s) && s.PC + 1 < MEMORY_SIZE
    ensures WellFormed(r) && r.opcode == Fetch(s) && r.PC == s.PC + 2
    ensures r.(opcode := s.opcode, PC := s.PC) == s
  {
    s.(opcode := Fetch(s), PC := (s.PC + 2) % 0x1_0000)
  }

  predicate CanStep(s: State)
  {
    WellFormed(s) && s.PC + 1 < MEMORY_SIZE && CanEmulate(Fetched(s))
  }

  /** `step()`: fetch, advance the program counter, execute. */
  function Step(s: State): (r: State)
    requires CanStep(s)
    ensures WellFormed(r)
  {
    Emulate(Fetched(s))
  }

  /** The byte-copy loop of `load_rom`: byte `i` of the ROM image goes to
      address `0x200 + i`, in order. */
  function CopyRom(memory: seq<byte>, rom: seq<byte>): (m: seq<byte>)
    requires |memory| == MEMORY_SIZE && |rom| <= MEMORY_SIZE - PROGRAM_START
    ensures |m| == MEMORY_SIZE
    ensures forall i :: 0 <= i < |rom| ==> m[PROGRAM_START + i] == rom[i]
    ensures forall a :: 0 <= a < MEMORY_SIZE && !(PROGRAM_START <= a < PROGRAM_START + |rom|) ==> m[a] == memory[a]
    decreases |rom|
  {
    if rom == [] then memory
    else
      var n := |rom| - 1;
      CopyRom(memory, rom[..n])[PROGRAM_START + n := rom[n]]
  }

  /** `load_rom` once the image is read: only memory changes. */
  function LoadRom(s: State, rom: seq<byte>): (r: State)
    requires WellFormed(s) && |rom| <= MEMORY_SIZE - PROGRAM_START
    ensures WellFormed(r)
  {
    s.(memory := CopyRom(s.memory, rom))
  }

  // ---------------------------------------------------------------------
  // Properties

  /** After reset every array is cleared, execution starts at 0x200, the
      index register, the stack index and the timers are zero, no error is
      pending and the display is due for redrawing. */
  lemma ResetClears()
    ensures var s := Reset();
      && (forall a :: 0 <= a < MEMORY_SIZE ==> s.memory[a] == 0)
      && (forall i :: 0 <= i < Sprite.DISPLAY_SIZE ==> s.display[i] == 0)
      && (forall k :: 0 <= k < SLOTS ==> s.V[k] == 0 && s.S[k] == 0 && !s.keys[k])
      && s.PC == PROGRAM_START && s.IP == 0 && s.SP == 0 && s.sound == 0 && s.delay == 0
      && s.opcode == 0 && !s.error && s.drawReady
  {
  }

  /** 00E0 blanks the whole display and touches nothing else but the redraw
      flag. */
  lemma ClearDisplayBlanks(s: State)
    requires WellFormed(s)
    ensures var r := ClearDisplay(s);
      && (forall i :: 0 <= i < Sprite.DISPLAY_SIZE ==> r.display[i] == 0)
      && r.drawReady && r.(display := s.display, drawReady := s.drawReady) == s
  {
  }

  /** The instructions the interpreter carries out; all others set the
      error flag. */
  predicate Implemented(opcode: word)
  {
    opcode == 0x00E0 || Index(opcode) in {0x1, 0x6, 0x7, 0xA, 0xD}
  }

  /** Step fetches the big-endian word at PC, and unless it jumps leaves PC
      two bytes further on. */
  lemma StepFetches(s: State)
    requires CanStep(s)
    ensures Step(s).opcode == s.memory[s.PC] as int * 0x100 + s.memory[s.PC + 1] as int
    ensures Index(Step(s).opcode) != 0x1 ==> Step(s).PC == (s.PC + 2) % 0x1_0000
  {
  }

  /** No implemented instruction writes memory, the stack, the keys or the
      timers, and a raised error flag stays raised. */
  lemma StepFrame(s: State)
    requires CanStep(s)
    ensures Step(s).memory == s.memory && Step(s).S == s.S && Step(s).SP == s.SP
    ensures Step(s).keys == s.keys && Step(s).sound == s.sound && Step(s).delay == s.delay
    ensures s.error ==> Step(s).error
  {
    var f := Fetched(s);
    assert Step(s) == Emulate(f);
    match Index(f.opcode)
    case 0x0 =>
    case 0xD =>
    case _ =>
  }

  /** The error flag is raised exactly by the opcodes that are not
      implemented. */
  lemma StepErrorIff(s: State)
    requires CanStep(s)
    ensures Step(s).error <==> s.error || !Implemented(Fetch(s))
  {
  }

  /** An unimplemented opcode (00EE included) changes nothing but the fetch
      and the error flag. */
  lemma StepUnimplemented(s: State)
    requires CanStep(s) && !Implemented(Fetch(s))
    ensures Step(s) == Fetched(s).(error := true)
  {
  }

  /** 1NNN: jump to NNN. */
  lemma StepJump(s: State)
    requires CanStep(s) && Index(Fetch(s)) == 0x1
    ensures Step(s) == Fetched(s).(PC := Nnn(Fetch(s)))
    ensures Step(s).PC < MEMORY_SIZE
  {
  }

  /** 6XNN: VX := NN. */
  lemma StepLoad(s: State)
    requires CanStep(s) && Index(Fetch(s)) == 0x6
    ensures var op := Fetch(s);
      Step(s) == Fetched(s).(V := s.V[X(op) := Nn(op)])
  {
  }

  /** 7XNN: VX := VX + NN, wrapping at 256, with no effect on VF unless VF is
      the target. */
  lemma StepAdd(s: State)
    requires CanStep(s) && Index(Fetch(s)) == 0x7
    ensures var op := Fetch(s);
      && Step(s) == Fetched(s).(V := s.V[X(op) := (s.V[X(op)] as int + Nn(op) as int) % 0x100])
      && (X(op) != FLAG ==> Step(s).V[FLAG] == s.V[FLAG])
  {
  }

  /** 0xFF + 0x02 wraps round to 0x01 (7XNN with VX = 0xFF and NN = 0x02). */
  lemma AddWrapsExample(s: State)
    requires CanStep(s) && Fetch(s) == 0x7302 && s.V[3] == 0xFF
    ensures Step(s).V[3] == 0x01 && Step(s).V[FLAG] == s.V[FLAG]
  {
  }

  /** ANNN: IP := NNN, always an address inside memory. */
  lemma StepSetIndex(s: State)
    requires CanStep(s) && Index(Fetch(s)) == 0xA
    ensures Step(s) == Fetched(s).(IP := Nnn(Fetch(s)))
    ensures Step(s).IP < MEMORY_SIZE
  {
  }

  /** 00E0: the display is blank and due for redrawing. */
  lemma StepClear(s: State)
    requires CanStep(s) && Fetch(s) == 0x00E0
    ensures Step(s) == ClearDisplay(Fetched(s))
    ensures forall i :: 0 <= i < Sprite.DISPLAY_SIZE ==> Step(s).display[i] == 0
  {
  }

  /** `DRAW()` toggles the cells under set sprite bits and no others, sets
      VF to 1 iff a lit cell was toggled and to 0 otherwise, flags the
      display for redrawing and changes nothing else. */
  lemma DrawSpriteEffect(s: State)
    requires DrawFits(s)
    ensures var r := DrawSprite(s);
      var x, y, rows := SpriteX(s), SpriteY(s), SpriteRows(s);
      && (forall i :: 0 <= i < Sprite.DISPLAY_SIZE ==>
            r.display[i] == if Sprite.Hit(x, y, rows, i) then Sprite.Toggle(s.display[i]) else s.display[i])
      && (r.V[FLAG] == 1 <==> exists i :: 0 <= i < Sprite.DISPLAY_SIZE && Sprite.Hit(x, y, rows, i) && s.display[i] == Sprite.PIXEL_COLOR)
      && (r.V[FLAG] == 0 || r.V[FLAG] == 1)
      && r.drawReady
      && r.(display := s.display, V := s.V, drawReady := s.drawReady) == s
      && (forall k :: 0 <= k < SLOTS && k != FLAG ==> r.V[k] == s.V[k])
  {
    var c := Sprite.Draw(s.display, SpriteX(s), SpriteY(s), SpriteRows(s));
    Sprite.DrawMeetsSpec(s.display, SpriteX(s), SpriteY(s), SpriteRows(s));
    assert DrawSprite(s).display == c.cells;
    assert DrawSprite(s).V[FLAG] == if c.collided then 1 else 0;
  }

  /** DXYN as a step: the fetch, then `DRAW()` with the sprite read from
      memory at IP. */
  lemma StepDraw(s: State)
    requires CanStep(s) && Index(Fetch(s)) == 0xD
    ensures Step(s) == DrawSprite(Fetched(s))
    ensures SpriteRows(Fetched(s)) == if N(Fetch(s)) == 0 then [] else s.memory[s.IP..s.IP + N(Fetch(s))]
  {
  }

  /** Every step keeps a display of dark and lit cells only. */
  lemma StepKeepsMonochrome(s: State)
    requires CanStep(s) && Sprite.Monochrome(s.display)
    ensures Sprite.Monochrome(Step(s).display)
  {
    var f := Fetched(s);
    assert Step(s) == Emulate(f);
    match Index(f.opcode)
    case 0x0 =>
    case 0xD =>
      Sprite.DrawKeepsMonochrome(f.display, SpriteX(f), SpriteY(f), SpriteRows(f));
    case _ =>
  }

  /** Loading copies the image to 0x200 onward and changes nothing else. */
  lemma LoadRomCopies(s: State, rom: seq<byte>)
    requires WellFormed(s) && |rom| <= MEMORY_SIZE - PROGRAM_START
    ensures var r := LoadRom(s, rom);
      && r.memory[PROGRAM_START..PROGRAM_START + |rom|] == rom
      && r.memory[..PROGRAM_START] == s.memory[..PROGRAM_START]
      && r.memory[PROGRAM_START + |rom|..] == s.memory[PROGRAM_START + |rom|..]
      && r.(memory := s.memory) == s
  {
    var m := LoadRom(s, rom).memory;
    assert m[PROGRAM_START..PROGRAM_START + |rom|] == rom by {
      forall i | 0 <= i < |rom| ensures m[PROGRAM_START..PROGRAM_START + |rom|][i] == rom[i] {
        assert m[PROGRAM_START + i] == rom[i];
      }
    }
  }

  // ---------------------------------------------------------------------
  // Running with no program loaded

  /** Memory holds only zero words and the program counter is inside it. */
  predicate Blank(s: State)
  {
    WellFormed(s) && s.PC <= MEMORY_SIZE
    && forall a :: 0 <= a < MEMORY_SIZE ==> s.memory[a] == 0
  }

  /** A step over zero memory fetches 0x0000, a `SYSCALL` that is not
      00E0, so it only raises the error flag and moves on by two bytes. */
  lemma BlankStep(s: State)
    requires Blank(s) && s.PC + 1 < MEMORY_SIZE
    ensures CanStep(s) && Fetch(s) == 0
    ensures Step(s) == Fetched(s).(error := true)
    ensures var t := Step(s); Blank(t) && t.PC == s.PC + 2 && t.error
  {
    assert s.memory[s.PC] == 0 && s.memory[s.PC + 1] == 0;
    assert Fetch(s) == 0;
    StepUnimplemented(s);
  }

  /** `k` steps from a blank state, each one allowed. */
  function RunBlank(s: State, k: nat): (r: State)
    requires Blank(s) && s.PC + 2 * k <= MEMORY_SIZE
    ensures Blank(r) && r.PC == s.PC + 2 * k
    ensures r.error == (s.error || k > 0)
    decreases k
  {
    if k == 0 then s
    else
      BlankStep(s);
      var t := Step(s);
      assert t.error;
      RunBlank(t, k - 1)
  }

  /** A debugger that resets, loads no ROM and steps without bound gets
      exactly 1792 steps, all over zero words that raise the error flag;
      then the program counter sits at 0x1000 and the next fetch would read
      past the end of memory. */
  lemma BlankRunsOff(k: nat)
    requires k <= (MEMORY_SIZE - PROGRAM_START) / 2
    ensures Blank(Reset()) && RunBlank(Reset(), k).PC == PROGRAM_START + 2 * k
    ensures RunBlank(Reset(), k).error <==> k > 0
    ensures k < 1792 ==> CanStep(RunBlank(Reset(), k))
    ensures k == 1792 ==> RunBlank(Reset(), k).PC == MEMORY_SIZE && !CanStep(RunBlank(Reset(), k))
  {
    var s0 := Reset();
    assert Blank(s0) && s0.PC == PROGRAM_START && !s0.error;
    var r := RunBlank(s0, k);
    assert r.error == (s0.error || k > 0);
    if k < 1792 {
      assert CanStep(r) by { BlankStep(r); }
    }
  }
}

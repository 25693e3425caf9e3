/** The interpreter object: its memory, display, registers, stack and keys
    are arrays updated in place, its program counter, index register, stack
    index, timers and flags are fields.
    Each method is proved to do to the object what the matching function of
    `Semantics` does to a state value, so the properties proved there hold
    of the object. */
module Machine {
  import opened Decode
  import Sprite
  import Semantics

  class Chip8 {
    const memory: array<byte>
    const display: array<u32>
    const V: array<byte>
    const S: array<word>
    const keys: array<bool>
    var PC: word
    var IP: word
    var SP: byte
    var sound: byte
    var delay: byte
    var drawReady: bool
    var error: bool
    var opcode: word

    /** The arrays have their fixed sizes, and the two byte arrays are
        distinct. */
    ghost predicate Valid()
      reads this
    {
      memory.Length == Semantics.MEMORY_SIZE && display.Length == Sprite.DISPLAY_SIZE
      && V.Length == Semantics.SLOTS && S.Length == Semantics.SLOTS && keys.Length == Semantics.SLOTS
      && memory != V
    }

    /** The whole object as a state value. */
    ghost function Snapshot(): Semantics.State
      reads this, memory, display, V, S, keys
    {
      Semantics.State(memory[..], display[..], V[..], S[..], keys[..],
                      PC, IP, SP, sound, delay, drawReady, error, opcode)
    }

    /** Allocate the arrays and reset. */
    constructor ()
      ensures Valid() && Snapshot() == Semantics.Reset()
      ensures fresh(memory) && fresh(display) && fresh(V) && fresh(S) && fresh(keys)
    {
      memory := new byte[Semantics.MEMORY_SIZE];
      display := new u32[Sprite.DISPLAY_SIZE];
      V := new byte[Semantics.SLOTS];
      S := new word[Semantics.SLOTS];
      keys := new bool[Semantics.SLOTS];
      new;
      Reset();
    }

    /** `clear_display()`: every cell dark, display due for redrawing. */
    method ClearDisplay()
      requires Valid()
      modifies this`drawReady, display
      ensures Snapshot() == Semantics.ClearDisplay(old(Snapshot()))
    {
      for i := 0 to Sprite.DISPLAY_SIZE
        invariant forall j :: 0 <= j < i ==> display[j] == 0
        modifies display
      {
        display[i] := 0;
      }
      assert display[..] == seq(Sprite.DISPLAY_SIZE, _ => 0);
      drawReady := true;
    }

    /** `reset()`: clear memory, display, stack, keys and registers; start
        at 0x200. The result does not depend on the state before, so
        resetting twice is the same as resetting once. */
    method Reset()
      requires Valid()
      modifies this, memory, display, S, keys, V
      ensures Valid() && Snapshot() == Semantics.Reset()
    {
      ClearMemory();
      ClearDisplay();
      ClearSlots();
      PC := Semantics.PROGRAM_START;
      IP := 0;
      SP := 0;
      sound := 0;
      delay := 0;
      error := false;
      opcode := 0;
    }

    /** The first loop of `reset()`: every memory byte zero. */
    method ClearMemory()
      requires Valid()
      modifies memory
      ensures memory[..] == Semantics.Reset().memory
    {
      for i := 0 to Semantics.MEMORY_SIZE
        invariant forall j :: 0 <= j < i ==> memory[j] == 0
      {
        memory[i] := 0;
      }
      assert memory[..] == Semantics.Reset().memory;
    }

    /** The last three loops of `reset()`: stack, keys and registers
        cleared. */
    method ClearSlots()
      requires Valid()
      modifies S, keys, V
      ensures S[..] == Semantics.Reset().S && keys[..] == Semantics.Reset().keys && V[..] == Semantics.Reset().V
    {
      for i := 0 to Semantics.SLOTS
        invariant forall j :: 0 <= j < i ==> S[j] == 0
        modifies S
      {
        S[i] := 0;
      }
      for i := 0 to Semantics.SLOTS
        invariant forall j :: 0 <= j < i ==> !keys[j]
        modifies keys
      {
        keys[i] := false;
      }
      for i := 0 to Semantics.SLOTS
        invariant forall j :: 0 <= j < i ==> V[j] == 0
        modifies V
      {
        V[i] := 0;
      }
      assert S[..] == Semantics.Reset().S && keys[..] == Semantics.Reset().keys && V[..] == Semantics.Reset().V;
    }

    /** `UNI()`: the opcode is not implemented. */
    method Unimplemented()
      modifies this`error
      ensures Snapshot() == Semantics.Unimplemented(old(Snapshot()))
    {
      error := true;
    }

    /** `SYSCALL()`: 00E0 clears the display; 00EE and every other 0NNN is
        unimplemented. */
    method Syscall()
      requires Valid()
      modifies this`error, this`drawReady, display
      ensures Snapshot() == Semantics.Syscall(old(Snapshot()))
    {
      match Nnn(opcode)
      case 0x0E0 => ClearDisplay();
      case 0x0EE => Unimplemented();
      case _ => Unimplemented();
    }

    /** `DRAW()`: the sprite origin wrapped onto the screen, VF cleared, the
        rows drawn, VF set when a lit cell was switched off, the display
        flagged for redrawing. */
    method Draw()
      requires Valid() && Semantics.DrawFits(Snapshot())
      modifies V, display, this`drawReady
      ensures Snapshot() == Semantics.DrawSprite(old(Snapshot()))
    {
      ghost var s := Snapshot();
      var xPos := V[X(opcode)] % 64;
      var yPos := V[Y(opcode)] % 32;
      assert xPos == Semantics.SpriteX(s) && yPos == Semantics.SpriteY(s);
      Sprite.DrawFromStart(s.display, xPos, yPos, Semantics.SpriteRows(s));
      V[Semantics.FLAG] := 0;
      var hit := DrawSprite(IP, xPos, yPos, N(opcode), Semantics.SpriteRows(s),
                            Sprite.Draw(s.display, xPos, yPos, Semantics.SpriteRows(s)));
      if hit {
        V[Semantics.FLAG] := 1;
      }
      assert V[..] == s.V[Semantics.FLAG := V[Semantics.FLAG]];
      drawReady := true;
    }

    /** The outer loop of `DRAW()`: the `n` rows read from memory at IP
        (`sprite`), row `r` drawn from cell `(yPos + r) * 64 + xPos`. `hit`
        reports whether any of them collided. */
    method DrawSprite(at: nat, xPos: nat, yPos: nat, n: nat, ghost sprite: seq<byte>, ghost goal: Sprite.Canvas)
        returns (hit: bool)
      requires memory.Length == Semantics.MEMORY_SIZE && display.Length == Sprite.DISPLAY_SIZE
      requires |sprite| == n && Sprite.Fits(xPos, yPos, n)
      requires forall r :: 0 <= r < n ==> at + r < Semantics.MEMORY_SIZE && memory[at + r] == sprite[r]
      requires goal == Sprite.DrawFrom(Sprite.Canvas(display[..], false), xPos, yPos, sprite, 0)
      modifies display
      ensures display[..] == goal.cells && hit == goal.collided
    {
      ghost var done := Sprite.Canvas(display[..], false);
      hit := false;
      for row := 0 to n
        invariant |done.cells| == Sprite.DISPLAY_SIZE && Sprite.DrawFrom(done, xPos, yPos, sprite, row) == goal
        invariant display[..] == done.cells && hit == done.collided
      {
        var spriteByte := memory[at + row];
        assert spriteByte == old(memory[at + row]) == sprite[row];
        var rowHit := DrawRow(spriteByte, Sprite.RowStart(xPos, yPos, row), done);
        hit := hit || rowHit;
        Sprite.DrawFromNext(done, xPos, yPos, sprite, row);
        done := Sprite.DrawCols(done, spriteByte, Sprite.RowStart(xPos, yPos, row), 8);
      }
    }

    /** The inner loop of `DRAW()`: the eight columns of one sprite row,
        starting at display cell `start`, drawn onto `done`, the display
        the earlier rows left. `hit` reports whether any of them collided. */
    method DrawRow(spriteByte: byte, start: nat, ghost done: Sprite.Canvas) returns (hit: bool)
      requires start + 8 <= display.Length && |done.cells| == display.Length
      requires display[..] == done.cells
      modifies display
      ensures display[..] == Sprite.DrawCols(done, spriteByte, start, 8).cells
      ensures hit <==> Sprite.LitUnder(done.cells, spriteByte, start, 8)
      ensures Sprite.DrawCols(done, spriteByte, start, 8).collided <==> done.collided || hit
    {
      hit := false;
      for col := 0 to 8
        invariant display[..] == Sprite.DrawCols(done, spriteByte, start, col).cells
        invariant hit <==> Sprite.LitUnder(done.cells, spriteByte, start, col)
        invariant Sprite.DrawCols(done, spriteByte, start, col).collided <==> done.collided || hit
      {
        Sprite.DrawColsAhead(done, spriteByte, start, col);
        Sprite.LitUnderNext(done.cells, spriteByte, start, col);
        var lit := DrawPixel(spriteByte, start, col, done);
        hit := hit || lit;
      }
    }

    /** The display half of one pass of the inner loop of `DRAW()`: if
        column `col` of the sprite row is set, the cell under it is toggled.
        `lit` reports that the cell was lit before, i.e. that this pass
        collides. */
    method DrawPixel(spriteByte: byte, start: nat, col: nat, ghost done: Sprite.Canvas) returns (lit: bool)
      requires col < 8 && start + 8 <= display.Length && |done.cells| == display.Length
      requires display[..] == Sprite.DrawCols(done, spriteByte, start, col).cells
      modifies display
      ensures display[..] == Sprite.DrawCols(done, spriteByte, start, col + 1).cells
      ensures lit <==> Sprite.PixelOn(spriteByte, col) && old(display[start + col]) == Sprite.PIXEL_COLOR
      ensures Sprite.DrawCols(done, spriteByte, start, col + 1).collided
              <==> Sprite.DrawCols(done, spriteByte, start, col).collided || lit
    {
      ghost var before := Sprite.DrawCols(done, spriteByte, start, col);
      var cell := start + col;
      lit := false;
      if Sprite.PixelOn(spriteByte, col) {
        ghost var after := Sprite.Canvas(before.cells[cell := Sprite.Toggle(before.cells[cell])],
                                         before.collided || before.cells[cell] == Sprite.PIXEL_COLOR);
        assert after == Sprite.DrawCols(done, spriteByte, start, col + 1);
        lit := display[cell] == Sprite.PIXEL_COLOR;
        display[cell] := Sprite.Toggle(display[cell]);
        assert display[..] == after.cells;
      } else {
        assert before == Sprite.DrawCols(done, spriteByte, start, col + 1);
      }
    }

    /** `emulate()`: dispatch on the top nibble of the opcode. */
    method Emulate()
      requires Valid() && Semantics.CanEmulate(Snapshot())
      modifies this`PC, this`IP, this`error, this`drawReady, V, display
      ensures Snapshot() == Semantics.Emulate(old(Snapshot()))
    {
      match Index(opcode)
      case 0x0 => Syscall();
      case 0x1 => PC := Nnn(opcode);
      case 0x6 => V[X(opcode)] := Nn(opcode);
      case 0x7 => V[X(opcode)] := (V[X(opcode)] as int + Nn(opcode) as int) % 0x100;
      case 0xA => IP := Nnn(opcode);
      case 0xD => Draw();
      case _ => Unimplemented();
    }

    /** `step()`: fetch the big-endian word at PC, advance PC by two with
        16-bit wrap-around, execute. */
    method Step()
      requires Valid() && Semantics.CanStep(Snapshot())
      modifies this, V, display
      ensures Snapshot() == Semantics.Step(old(Snapshot()))
    {
      ghost var s := Snapshot();
      opcode := Word(memory[PC], memory[PC + 1]);
      PC := (PC + 2) % 0x1_0000;
      assert Snapshot() == Semantics.Fetched(s);
      Emulate();
    }

    /** The copy loop of `load_rom`: the image goes to 0x200 onward. */
    method LoadRom(rom: seq<byte>)
      requires Valid() && |rom| <= Semantics.MEMORY_SIZE - Semantics.PROGRAM_START
      modifies memory
      ensures Snapshot() == Semantics.LoadRom(old(Snapshot()), rom)
    {
      for i := 0 to |rom|
        invariant memory[..] == Semantics.CopyRom(old(memory[..]), rom[..i])
      {
        memory[Semantics.PROGRAM_START + i] := rom[i];
        assert rom[..i + 1][..i] == rom[..i];
      }
      assert rom[..|rom|] == rom;
    }
  }
}

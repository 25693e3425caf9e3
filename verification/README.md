# CHIP-8 instruction engine in Dafny

This project models the `CHIP8` class of a CHIP-8 interpreter and debugger
(`CHIP8.cpp`, `CHIP8.h`): its machine state, `reset()` and
`clear_display()`, the opcode field decoders, the fetch/decode/execute cycle
(`step()`, `emulate()`, `SYSCALL()`, `UNI()`, `DRAW()`) and the byte-copy loop
of `load_rom()`. The interpreter carries out six instructions: 00E0 (clear
the display), 1NNN (jump), 6XNN (load VX), 7XNN (add to VX, no flag), ANNN
(set the index register) and DXYN (draw a sprite). Every other opcode,
00EE (return) included, only raises the `error` flag.

The project has four modules:

- `Decode` (`decode.dfy`) defines the 8-, 16- and 32-bit machine widths,
  the `get_*` field extractors and the big-endian instruction word.
- `Sprite` (`sprite.dfy`) covers the DXYN draw on the 64 x 32 framebuffer:
  - `DrawCols` and `DrawRows` follow the two nested loops of `DRAW()` step by
    step.
  - `DrawSpec` states cell by cell what a draw does.
  - The lemmas prove that the loops meet `DrawSpec`, and prove what follows
    from it: XOR drawing is self-inverse, a monochrome display stays
    monochrome, and the collision flag means what it should.
- `Semantics` (`semantics.dfy`) is the whole machine as a value:
  - the `State` datatype holds one field per member of `CHIP8.h`, plus
    `SP`, which `reset()` assigns but the header does not declare;
  - each method of the class has a function on `State`;
  - one lemma per instruction states what a step does.
- `Machine` (`machine.dfy`) is the class itself. Memory, display,
  registers, stack and keys are arrays updated in place, and the rest are
  fields.
  - The constructor and the methods that model a member function of the
    class (`ClearDisplay`, `Reset`, `Unimplemented`, `Syscall`, `Draw`,
    `Emulate`, `Step`, `LoadRom`) are proved to change the object exactly as
    the matching `Semantics` function changes its snapshot (`Snapshot()`).
    So everything proved in `Semantics` and `Sprite` holds of the object.
  - The helpers that hold their loops (`ClearMemory`, `ClearSlots`,
    `DrawSprite`, `DrawRow`, `DrawPixel`) state their effect on the arrays
    they change, in terms of `Semantics` and `Sprite` functions.

Notes on how the C++ is modelled:

- **Bit masks.** `uint8_t` and `uint16_t` are integer subset types. Each
  mask `v & (2^k - 1)` is written as `v % 2^k`, and each shift `v >> k` as
  `v / 2^k`; these are equal on non-negative numbers.
- **Wrap-around.** 8-bit addition (`V[X] += NN`) and 16-bit addition
  (`PC += 2`) wrap explicitly.
- **Display cells.** They are `uint32_t` values, modelled as the integers
  0 to 2^32 - 1. `PIXEL_COLOR` has all 32 bits set, so
  `display[i] ^= PIXEL_COLOR` flips every bit of the cell. On a 32-bit value
  that is `PIXEL_COLOR - display[i]`, which is how `Sprite.Toggle` writes
  it. `Sprite.ToggleIsXor` proves the two equal, with bitwise XOR defined
  bit by bit on naturals (`Sprite.Xor`).
- **No per-pixel wrap.** The draw wraps only the sprite origin, `V[X] % 64`
  and `V[Y] % 32`. A column past the right edge spills into the next line,
  exactly as the cell formula `(yPos + row) * 64 + (xPos + col)` does.
- **Undefined behaviour.** The interpreter never checks memory or display
  bounds; reading or writing outside them is undefined behaviour.
  Preconditions therefore exclude those inputs:
  - `CanStep`: the fetch reads `PC` and `PC + 1` inside memory;
  - `DrawFits`: the sprite rows lie in memory and its cells in the display;
  - `LoadRom`: the image fits after 0x200.

  Every case that is defined is modelled; none of these preconditions
  excludes one.
- **Fixed sizes.**
  - The display has 64 * 32 = 2048 cells: the number that `clear_display()`
    and `DRAW()` index, and the size every array access needs.
  - `SP` has `uint8_t` width, like the other counters.
  - `PIXEL_COLOR` is `0xFFFFFFFF`, every bit of a cell set. Its
    definition is not part of this model.
- **Running with no program.** The debugger's `setup()` resets the machine
  and loads no ROM, and its main loop then calls `step()` until it is told
  to stop (`Debugger.cpp`, lines 47-54 and 94-101). Memory is then all
  zero, so every fetch is 0x0000, which `SYSCALL()` hands to `UNI()`. Each
  step raises the error flag and moves PC on by two. After 1792 such steps
  PC is 0x1000, and the next fetch would read past the end of memory.
  `Semantics.BlankRunsOff` proves this count.
- **When VF is raised.** The source raises VF inside the column loop, at
  the pixel that collides, just before that pixel's XOR. The model follows
  the collision up through the loops instead:
  - `Machine.Chip8.DrawPixel` toggles the cell and reports whether it was
    lit;
  - `DrawRow` reports whether any column of the row collided;
  - `DrawSprite` reports whether any row collided;
  - `Draw` then sets VF to 1 if so.

  VF is cleared first in both, nothing in the loops reads it, and `V` is a
  different array from `memory` and `display`. So VF ends with the same
  value, and the final state is the same.

## Model

| member | source | states |
|---|---|---|
| Decode.Nnn | CHIP8.cpp:61 | NNN is below 0x1000, so every jump target and index value is an address inside the 4 KiB memory |
| Decode.N | CHIP8.cpp:65 | N is a nibble: a sprite has at most 15 rows |
| Decode.X | CHIP8.cpp:67 | X is below 16, a valid register index |
| Decode.Y | CHIP8.cpp:69 | Y is below 16, a valid register index |
| Decode.Nn | CHIP8.cpp:63 | NN is the low byte of the opcode: the opcode is its high byte times 0x100 plus NN |
| Decode.Index | CHIP8.cpp:71 | the instruction family is one of sixteen |
| Decode.Word | CHIP8.cpp:87 | the instruction word has the first byte as its high byte and the second as its low byte |
| Decode.Recompose | CHIP8.cpp:61-71 | decoding loses nothing: INDEX, X, Y and N put back together give the opcode, NN is Y:N and NNN is X:NN |
| Decode.WordFields | CHIP8.cpp:61-71 | for a word fetched from two bytes: INDEX and X are the nibbles of the first byte, NN is the second byte, and Y and N are its nibbles |
| Sprite.PixelOnMask | CHIP8.cpp:109 | the mask `0x80 >> col` is `2^(7 - col)`, and a column is drawn iff that binary digit of the row byte is 1 |
| Sprite.Toggle | CHIP8.cpp:120 | toggling always changes a cell, turns a dark cell (0) into PIXEL_COLOR and a lit cell (PIXEL_COLOR) into 0 |
| Sprite.XorAllOnes | CHIP8.cpp:120 | XOR with the all-ones k-bit number complements any k-bit number |
| Sprite.ToggleIsXor | CHIP8.cpp:120 | toggling a cell, `PIXEL_COLOR - v`, is `v ^ PIXEL_COLOR` |
| Sprite.DrawCols | CHIP8.cpp:108-122 | the inner loop keeps the framebuffer's length; `DrawColsCells` and `DrawColsCollides` state what it does to the cells and the flag |
| Sprite.DrawRows | CHIP8.cpp:105-123 | the outer loop leaves a framebuffer of 2048 cells; `DrawRowsCells`, `DrawRowsUntouched` and `DrawRowsCollides` state what it does |
| Sprite.Draw | CHIP8.cpp:103-123 | a whole draw leaves a framebuffer of 2048 cells; `DrawMeetsSpec` states that it meets `DrawSpec` |
| Sprite.DrawColsCells | CHIP8.cpp:108-122 | after the first k columns of a row, a cell has been XORed with PIXEL_COLOR iff it lies under one of their set bits; every other cell is unchanged |
| Sprite.DrawColsCollides | CHIP8.cpp:113-117 | the inner loop reports a collision iff one of its set bits lands on a cell equal to PIXEL_COLOR |
| Sprite.DrawFromRows | CHIP8.cpp:105-123 | drawing rows `k ..` on top of the first `k` rows is the whole draw: what the outer loop has left to do after `k` passes |
| Sprite.DrawFromStart | CHIP8.cpp:103-123 | starting the row loop from row 0 with the collision flag cleared gives the whole draw |
| Sprite.HitSplit | CHIP8.cpp:110 | the cells of different sprite rows never overlap, so a cell is hit by exactly one row or none |
| Sprite.DrawRowsCells | CHIP8.cpp:105-123 | the nested loops XOR exactly the cells under set sprite bits (closed form `Hit`) |
| Sprite.DrawRowsUntouched | CHIP8.cpp:105-123 | the loops leave every cell not under a set bit alone |
| Sprite.DrawRowsCollides | CHIP8.cpp:103-123 | the loops report a collision iff some cell under a set bit was lit before the draw |
| Sprite.DrawRowsSpec | CHIP8.cpp:100-126 | the nested loops meet `DrawSpec` cell by cell, collision included |
| Sprite.DrawMeetsSpec | CHIP8.cpp:100-126 | a whole draw, starting with VF cleared, meets `DrawSpec` |
| Sprite.ChangesExactlyHits | CHIP8.cpp:108-122 | a draw changes a cell iff that cell lies under a set sprite bit |
| Sprite.DrawKeepsMonochrome | CHIP8.cpp:113-121 | a display of dark (0) and lit (PIXEL_COLOR) cells stays that way after a draw |
| Sprite.DrawTwiceRestores | CHIP8.cpp:120 | drawing the same sprite twice at the same place restores the display |
| Sprite.SecondDrawCollides | CHIP8.cpp:113-117 | on a monochrome display, the second of two identical draws collides iff the first lit a dark cell |
| Semantics.Reset | CHIP8.cpp:22-59 | the reset state has the fixed array sizes |
| Semantics.ResetClears | CHIP8.cpp:22-59 | after reset, memory, display, stack, keys and registers are zero, PC is 0x200, IP, SP and the timers are zero, the opcode is 0, no error is pending and a redraw is due |
| Semantics.ClearDisplay | CHIP8.cpp:15-20 | clearing keeps the array sizes |
| Semantics.ClearDisplayBlanks | CHIP8.cpp:15-20 | every display cell is 0, the redraw flag is set and nothing else changes |
| Semantics.Unimplemented | CHIP8.cpp:95-98 | `UNI()` raises the error flag and changes nothing else |
| Semantics.Syscall | CHIP8.cpp:128-134 | the 0NNN family keeps the array sizes |
| Semantics.Emulate | CHIP8.cpp:73-83 | executing any opcode keeps the array sizes |
| Semantics.SpriteX | CHIP8.cpp:101 | the sprite column `V[X] % 64` is on screen |
| Semantics.SpriteY | CHIP8.cpp:102 | the sprite line `V[Y] % 32` is on screen |
| Semantics.SpriteRows | CHIP8.cpp:105-106 | the sprite has N rows, and row r is the byte at IP + r |
| Semantics.DrawSprite | CHIP8.cpp:100-126 | a draw keeps the array sizes |
| Semantics.DrawSpriteEffect | CHIP8.cpp:100-126 | DXYN XORs exactly the cells under set sprite bits, sets VF to 1 iff one of them was lit and to 0 otherwise, sets the redraw flag, and changes no other register or field |
| Semantics.Fetch | CHIP8.cpp:87 | the fetched opcode's high byte is memory[PC] and its low byte memory[PC + 1] |
| Semantics.Fetched | CHIP8.cpp:87-88 | the fetch stores the word at PC as the opcode and moves PC on by two, changing nothing else |
| Semantics.Step | CHIP8.cpp:85-93 | a step keeps the array sizes |
| Semantics.StepFetches | CHIP8.cpp:85-93 | a step executes the big-endian word at PC; except after a jump, PC ends two bytes further on, modulo 2^16 |
| Semantics.StepFrame | CHIP8.cpp:73-134 | no step writes memory, the stack, SP, the keys or the timers, and a raised error flag stays raised |
| Semantics.StepErrorIff | CHIP8.cpp:73-98 | a step raises the error flag iff the fetched opcode is not one of the six implemented instructions |
| Semantics.StepUnimplemented | CHIP8.cpp:95-98 | any other opcode, 00EE included, changes nothing but the fetch and the error flag |
| Semantics.StepJump | CHIP8.cpp:76 | 1NNN sets PC to NNN, an address inside memory |
| Semantics.StepLoad | CHIP8.cpp:77 | 6XNN sets VX to NN and changes nothing else |
| Semantics.StepAdd | CHIP8.cpp:78 | 7XNN adds NN to VX modulo 256 and leaves VF alone unless VF is the target |
| Semantics.AddWrapsExample | CHIP8.cpp:78 | 0xFF + 0x02 in V3 wraps to 0x01 |
| Semantics.StepSetIndex | CHIP8.cpp:79 | ANNN sets IP to NNN, an address inside memory |
| Semantics.StepClear | CHIP8.cpp:128-130 | 00E0 runs `clear_display()`: every display cell ends 0 |
| Semantics.StepDraw | CHIP8.cpp:80 | DXYN runs `DRAW()` on the sprite `memory[IP .. IP + N]` |
| Semantics.StepKeepsMonochrome | CHIP8.cpp:73-134 | every step keeps a monochrome display monochrome |
| Semantics.CopyRom | CHIP8.cpp:151-153 | byte i of the image is at address 0x200 + i; every other address is unchanged |
| Semantics.LoadRom | CHIP8.cpp:151-153 | loading keeps the array sizes |
| Semantics.LoadRomCopies | CHIP8.cpp:151-153 | memory[0x200 ..] holds the image, the memory around it is unchanged, and no other field changes |
| Semantics.BlankStep | CHIP8.cpp:85-98 | with memory all zero, a step fetches 0x0000, only raises the error flag and moves PC on by two |
| Semantics.RunBlank | Debugger.cpp:97-101 | `k` steps over zero memory leave PC `2k` further on, memory still zero, and the error flag raised iff any step was taken or it was already raised |
| Semantics.BlankRunsOff | Debugger.cpp:47-101 | from reset with no ROM, each of the first 1792 steps is allowed and raises the error flag; after them PC is 0x1000 and no further step can fetch inside memory |
| Machine.Chip8.constructor | CHIP8.cpp:3-9 | a new object owns fresh arrays and is in the reset state |
| Machine.Chip8.ClearDisplay | CHIP8.cpp:15-20 | the loop leaves the object in `Semantics.ClearDisplay` of its old state |
| Machine.Chip8.Reset | CHIP8.cpp:22-59 | the five clearing loops and the assignments leave the object in `Semantics.Reset()`, whatever it was before |
| Machine.Chip8.ClearMemory | CHIP8.cpp:26-29 | the memory loop leaves every byte of memory zero |
| Machine.Chip8.ClearSlots | CHIP8.cpp:34-47 | the stack, key and register loops leave all sixteen of each zero |
| Machine.Chip8.Unimplemented | CHIP8.cpp:95-98 | only the error flag changes, to true |
| Machine.Chip8.Syscall | CHIP8.cpp:128-134 | the object ends in `Semantics.Syscall` of its old state |
| Machine.Chip8.Draw | CHIP8.cpp:100-126 | the object ends in `Semantics.DrawSprite` of its old state |
| Machine.Chip8.DrawSprite | CHIP8.cpp:105-123 | the row loop leaves the display as the whole draw of the N rows read from memory at IP, and reports whether any row collided |
| Machine.Chip8.DrawRow | CHIP8.cpp:108-122 | the column loop leaves the display as `Sprite.DrawCols` of the rows before, and reports a hit iff one of the row's set bits lands on a cell that was PIXEL_COLOR |
| Machine.Chip8.DrawPixel | CHIP8.cpp:109-121 | one column: the display becomes the next step of `Sprite.DrawCols`, and the result is true iff the column's bit is set and its cell was PIXEL_COLOR |
| Machine.Chip8.Emulate | CHIP8.cpp:73-83 | the object ends in `Semantics.Emulate` of its old state |
| Machine.Chip8.Step | CHIP8.cpp:85-93 | the object ends in `Semantics.Step` of its old state |
| Machine.Chip8.LoadRom | CHIP8.cpp:151-153 | the copy loop leaves the object in `Semantics.LoadRom` of its old state |

## Left out

- File handling in `load_rom()` is not modelled: opening the file, measuring
  its length, reading it into a buffer, and the constant `true` result. The
  image's bytes are a parameter.
- `Logger` calls are left out. They are output only and do not change the
  state.
- `DBG()` is left out. It only logs a disassembly, and its call in `step()`
  is commented out.
- The debugger front end and SDL rendering are not modelled.
- No instruction other than the six above is modelled. The source does not
  execute them either, and the model treats them as unimplemented, as
  `emulate()` does.
- Out-of-range accesses are not modelled. The fetch at `PC` and `PC + 1`,
  the sprite read at `IP + row` and the display index past cell 2047 are not
  checked by the source and are undefined behaviour there. The source
  forms the cell address for all eight columns of a row, set bit or not.
  `CanStep`, `DrawFits` and the `LoadRom` bound exclude them.
- An unsized display is not modelled. The constructor sizes `memory` but
  never `display`, yet `clear_display()` writes 2048 cells. The model gives
  the display its 2048 cells from the start.
- `SP` is assigned in `reset()` but not declared in `CHIP8.h`. It is
  modelled as an 8-bit field.
- `PIXEL_COLOR` is not defined in `CHIP8.cpp` or `CHIP8.h`. It is fixed at
  `0xFFFFFFFF`.
- The timers, the stack and the keys are only cleared. No modelled
  operation reads or decrements them.

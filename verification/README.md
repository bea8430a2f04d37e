# drone-cortexm: register read-modify-write and ITM stimulus ports

A Dafny model of two small pieces of the drone-cortexm register-access layer
for Cortex-M microcontrollers, with proofs of what their documentation and
code promise.

**Register read-modify-write** (`src/reg/atomic.rs`, module `RegAtomic`, bit
functions in module `Bitfield`).
- Register memory is the class `RegisterMemory`. It holds a map from register
  address to value and a trace of every volatile load and store.
- A register token is its address and value width (8, 16 or 32 bits). A field
  token adds the field's offset and width.
- `modify`, `modify_reg` and the field `modify` are methods that load the
  register once, apply the closure once and store the result once. Their
  contracts give the new memory and the exact two-access trace.
- `set_bit`, `clear_bit`, `toggle_bit` and `write_bits` hand a fixed bit
  transform to the field `modify`. The transforms (from `drone_core`, not
  shown in the repository) are integer functions whose contracts say, bit by
  bit, which bits change. Register values are naturals below 2^width, and
  bit `i` is the remainder modulo 2 after `i` halvings.
- The documentation says these operations repeat themselves when interrupted.
  The code has no retry. The model follows the code, and `ModifyInterrupted`
  shows the consequence: an interrupt handler's store in between is lost.

**ITM stimulus ports** (`src/swo/port.rs`, module `SwoPort`).
- A port handle is the address of one stimulus port register.
- The class `Itm` stands for the hardware:
  - `script` is the sequence of outcomes the coming exclusive load/store
    rounds get: the value the load reads, and whether the store succeeds.
  - `trace` records every exclusive access.
- `port_write` is the loop `PortWrite`. `write_bytes` is `WriteBytes`: it
  writes single bytes up to the first 4-aligned address, then aligned words,
  then single bytes. The split is also the pure function `Plan`, and
  `SplitRuns` computes it with the code's own arithmetic.
- The proofs show:
  - every byte of the string reaches the port exactly once, in order;
  - every store follows a ready load;
  - each value is stored exactly once;
  - the handle comes back unchanged.

## Model

| member | source | states |
|---|---|---|
| Bitfield.SetBit | src/reg/atomic.rs:58-60 | the field's bit is one afterwards; every other bit keeps its value |
| Bitfield.ClearBit | src/reg/atomic.rs:62-64 | the field's bit is zero afterwards; every other bit keeps its value |
| Bitfield.ToggleBit | src/reg/atomic.rs:66-68 | the field's bit is flipped; every other bit keeps its value |
| Bitfield.WriteBits | src/reg/atomic.rs:77-80 | bits inside `[offset, offset + width)` hold the low bits of `bits`, in order; bits outside keep their value |
| Bitfield.ToggleTwice | src/reg/atomic.rs:66-68 | toggling the same bit twice restores the original value |
| Bitfield.LastBitWriteWins | src/reg/atomic.rs:58-64 | set and clear are idempotent; a set then a clear (or a clear then a set) is the second alone |
| Bitfield.LastFieldWriteWins | src/reg/atomic.rs:77-80 | writing a field twice is the second write alone, so repeating a write changes nothing |
| Bitfield.DisjointWritesCommute | src/reg/atomic.rs:77-80 | writes to fields that share no bit commute |
| Bitfield.OneBitWrite | src/reg/atomic.rs:58-80 | writing 1 to a one-bit field is a set, and writing 0 is a clear |
| Bitfield.TransformsFit | src/reg/atomic.rs:134-159 | set, clear, toggle and field write keep a register value below 2^width |
| Bitfield.BelowPow2 | src/reg/atomic.rs:134-159 | a value is below 2^n exactly when none of its bits at or above n is set: the bridge from the bit-by-bit contracts of the transforms to `TransformsFit` |
| RegAtomic.BitTransformsKeepWidth | src/reg/atomic.rs:134-147 | the one-bit closures map register values of the field's register to register values |
| RegAtomic.WriteKeepsWidth | src/reg/atomic.rs:156-159 | the field-write closure maps register values to register values |
| RegAtomic.RegisterMemory.Modify | src/reg/atomic.rs:89-99 | one load of the register's address, one store of the closure's result of the loaded value; no other address changes; the register still holds a value of its width |
| RegAtomic.RegisterMemory.ModifyReg | src/reg/atomic.rs:101-110 | as `Modify`, with the register token passed to the closure together with the loaded value |
| RegAtomic.RegisterMemory.ModifyField | src/reg/atomic.rs:119-125 | one load and one store, both at the field's register; every other address unchanged |
| RegAtomic.RegisterMemory.SetBit | src/reg/atomic.rs:134-137 | the register's new value is `Bitfield.SetBit` of the loaded one; one load, one store |
| RegAtomic.RegisterMemory.ClearBit | src/reg/atomic.rs:139-142 | the register's new value is `Bitfield.ClearBit` of the loaded one; one load, one store |
| RegAtomic.RegisterMemory.ToggleBit | src/reg/atomic.rs:144-147 | the register's new value is `Bitfield.ToggleBit` of the loaded one; one load, one store |
| RegAtomic.RegisterMemory.WriteBits | src/reg/atomic.rs:156-159 | the register's new value is `Bitfield.WriteBits` of the loaded one; one load, one store |
| RegAtomic.RegisterMemory.ModifyInterrupted | src/reg/atomic.rs:95-98 | with a complete modify by an interrupt handler between load and store, the register ends as the closure applied to the value loaded before; the handler's store is overwritten, contrary to the "repeats itself" documentation at lines 18-19 |
| SwoPort.NewPort | src/swo/port.rs:28-31 | a handle exists exactly for indices below the port count; its address is 4-aligned, lies in the stimulus port block and gives back the index |
| SwoPort.RoundTrace | src/swo/port.rs:92-98 | the accesses of one round of the exclusive loop: it starts with the exclusive load, and has a second access (the store) exactly when the load read non-zero |
| SwoPort.LoopTrace | src/swo/port.rs:92-98 | the accesses of the rounds one after another; there are none exactly when there are no rounds |
| SwoPort.PortWriteSends | src/swo/port.rs:92-98 | the loop's accesses deliver the value exactly once, every store directly follows a load of the same port that read non-zero, and the last access is the successful store |
| SwoPort.PortWriteLoads | src/swo/port.rs:92-98 | `k` failing rounds before the first writing round mean `k + 1` exclusive loads |
| SwoPort.Rounds | src/swo/port.rs:92-98 | the loop runs up to and including the first round that writes; every earlier round fails |
| SwoPort.Itm.PortWrite | src/swo/port.rs:86-150 | consumes exactly the rounds up to the first successful store, and records their exclusive loads and stores |
| SwoPort.Itm.Write | src/swo/port.rs:71-75 | returns the same handle; its accesses send exactly the one value to that port; they are the loop's rounds up to the first that writes, and the hardware script moves past exactly those rounds |
| SwoPort.Itm.WriteSlice | src/swo/port.rs:40-44 | sends the slice's values in order, one successful round each |
| SwoPort.Itm.WriteBytes | src/swo/port.rs:39-63 | returns the same handle; sends the values of the split in order; the delivered values, read back to back, are exactly the input bytes |
| SwoPort.Itm.WriteStr | src/swo/port.rs:78-83 | always returns `Ok` and the same handle; sends the values of the string's split, which read back to back are the string's bytes; uses up one successful round per value, so calls can follow one another |
| SwoPort.Plan | src/swo/port.rs:45-61 | the elements `write_bytes` writes, as the reference split (leading bytes, words, trailing bytes); a string shorter than 4 bytes gives one element per byte, and no string gives more elements than it has bytes |
| SwoPort.SplitRuns | src/swo/port.rs:50-61 | the code's remainder arithmetic yields the leading bytes, words and trailing bytes of the split |
| SwoPort.NoUnderflow | src/swo/port.rs:58-60 | for at least 4 bytes, the aligned start lies at or below the aligned end, so the word count never underflows |
| SwoPort.GuardNeeded | src/swo/port.rs:45-49 | without the short-string guard, two bytes at address 1 would give a word run ending before it starts |
| SwoPort.PlanCovers | src/swo/port.rs:45-61 | the written elements hold exactly the input bytes, each element starting where the previous one ends |
| SwoPort.PlanUnits | src/swo/port.rs:45-61 | short strings are written byte by byte, one per byte; long ones get `(4 - start % 4) % 4` leading bytes, `(start + len) % 4` trailing bytes, and 4-aligned words in between |
| SwoPort.SixSingleBytes | src/swo/port.rs:50-61 | leading and trailing single bytes together can number six (six bytes from address 1) |
| SwoPort.PlanSent | src/swo/port.rs:39-63 | whatever sends the values of the split delivers the string itself |
| SwoPort.SendsAppend | src/swo/port.rs:40-44 | access sequences written one after another send their values one after another |

## Left out

- Interrupts and concurrency:
  - Preemption, the exclusive monitor and concurrent writers are outside the model.
  - The outcomes of exclusive accesses are an input sequence (`Itm.script`).
  - The only interrupt modelled is the one inside `ModifyInterrupted`.
- Volatile access, raw pointers and `slice::from_raw_parts`:
  - Memory is a map from address to value.
  - A slice is its start address and its bytes.
  - Nothing about caching or reordering is modelled.
- The `std`-feature `unimplemented!()` branches of `port_write` are left out. The model describes the target build.
- Byte order of the `u16` and `u32` values:
  - A value is its bytes in memory order.
  - Which byte the port emits first depends on hardware not described here.
- `PORTS_COUNT` is defined in `src/swo/mod.rs`, which is not part of this model. It is taken as 32, the number of ITM stimulus ports.
- `usize` width: addresses are unbounded naturals, so address wrap-around at the top of memory is not modelled.
- UTF-8 encoding: `WriteStr` receives the string's bytes.
- Capability typing of tokens (ownership, `RegRef`, `Hold`) is a type-system guarantee and is not modelled.
- `src/reg/tokens.rs` and `tests/vtable.rs` hold macro invocations over generated register data and a memory-layout test. They contain no logic of the core.
- SwoPort.Itm.PortWrite:
  - It requires the script to hold a round that writes the value.
  - With endless contention the source spins forever; the model does not capture that non-termination.
  - `Write`, `WriteSlice`, `WriteBytes` and `WriteStr` require enough such rounds for every value they send.
- RegAtomic.RegisterMemory.Modify:
  - It requires the closure to map register values to register values (`KeepsWidth`), which the Rust value type guarantees.
  - It requires the register's address to be mapped.
  - `ModifyReg` and `ModifyField` have the same requirements.
- RegAtomic.RegisterMemory.SetBit:
  - The method's contract gives the new value through `Bitfield.SetBit`, and the bit-by-bit statement is in that function's contract.
  - The same holds for `ClearBit`, `ToggleBit` and `WriteBits`.
- Bitfield.WriteBits drops the bits of `bits` above the field's width. Whether the `drone_core` write rejects or masks such bits is not visible in this repository.
- The documented retry of `modify` and the bit helpers is absent from the code, and the model follows the code.

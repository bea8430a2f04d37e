/** Read-modify-write operations on memory-mapped registers and on their
    fields. A register token names a register by its address and value width;
    the register memory is the map from addresses to the values they hold,
    and every volatile access to it is appended to an access trace, so that a
    contract can say how many loads and stores an operation performs and in
    which order.

    Each operation loads the register once, applies its transform once to the
    loaded value and stores the result once. The operations are documented as
    repeating themselves when interrupted between the load and the store; the
    code has no such retry, and this model follows the code: a write made by an
    interrupt handler in between is overwritten (see `ModifyInterrupted`). */
module RegAtomic {
  import opened Bitfield

  /** A register token: the register's memory address and value width. */
  datatype Reg = Reg(address: nat, width: Width)

  /** A field token: the register the field belongs to and the field's bits. */
  datatype RegField = RegField(reg: Reg, field: Field)

  /** The descriptor invariant of a field token: the field lies inside its register. */
  predicate WellFormed(fd: RegField) {
    FieldWithin(fd.field, fd.reg.width)
  }

  /** One volatile access to register memory. */
  datatype RegAccess = Load(address: nat, value: nat) | Store(address: nat, value: nat)

  /** A transform keeps every value of a register of width `w` such a value:
      what the register's value type guarantees of a closure. */
  ghost predicate KeepsWidth(f: nat -> nat, w: Width) {
    forall v: nat {:trigger f(v)} :: Fits(v, w) ==> Fits(f(v), w)
  }

  class RegisterMemory {
    /** The value held at each mapped register address. */
    var words: map<nat, nat>
    /** Every volatile access made so far, oldest first. */
    var trace: seq<RegAccess>

    /** The register is mapped and holds a value of its width. */
    predicate Holds(reg: Reg)
      reads this
    {
      reg.address in words && Fits(words[reg.address], reg.width)
    }

    constructor (initial: map<nat, nat>)
      ensures words == initial && trace == []
    {
      words := initial;
      trace := [];
    }

    /** A volatile load from `address`. */
    method ReadVolatile(address: nat) returns (value: nat)
      requires address in words
      modifies this
      ensures value == old(words)[address]
      ensures words == old(words)
      ensures trace == old(trace) + [Load(address, value)]
    {
      value := words[address];
      trace := trace + [Load(address, value)];
    }

    /** A volatile store of `value` to `address`. */
    method WriteVolatile(address: nat, value: nat)
      requires address in words
      modifies this
      ensures words == old(words)[address := value]
      ensures trace == old(trace) + [Store(address, value)]
    {
      words := words[address := value];
      trace := trace + [Store(address, value)];
    }

    /** Loads the register, passes the value (held by the register token) to
        `f`, and stores what `f` made of it: one load, one application, one
        store, and no retry. Nothing but the register's own address changes. */
    method Modify(reg: Reg, f: nat -> nat)
      requires Holds(reg) && KeepsWidth(f, reg.width)
      modifies this
      ensures words == old(words)[reg.address := f(old(words)[reg.address])]
      ensures trace == old(trace) + [Load(reg.address, old(words)[reg.address]),
                                     Store(reg.address, f(old(words)[reg.address]))]
      ensures Holds(reg)
    {
      var val := ReadVolatile(reg.address);
      val := f(val);
      WriteVolatile(reg.address, val);
    }

    /** Like `Modify`, but the closure is also handed the register token. */
    method ModifyReg(reg: Reg, f: (Reg, nat) -> nat)
      requires Holds(reg) && KeepsWidth(v => f(reg, v), reg.width)
      modifies this
      ensures words == old(words)[reg.address := f(reg, old(words)[reg.address])]
      ensures trace == old(trace) + [Load(reg.address, old(words)[reg.address]),
                                     Store(reg.address, f(reg, old(words)[reg.address]))]
      ensures Holds(reg)
    {
      var val := ReadVolatile(reg.address);
      val := f(reg, val);
      WriteVolatile(reg.address, val);
      assert (v => f(reg, v))(old(words)[reg.address]) == val;
    }

    /** Read-modify-write of the register a field belongs to: one load of the
        field's register, `f` applied once, one store. */
    method ModifyField(fd: RegField, f: nat -> nat)
      requires Holds(fd.reg) && KeepsWidth(f, fd.reg.width)
      modifies this
      ensures words == old(words)[fd.reg.address := f(old(words)[fd.reg.address])]
      ensures trace == old(trace) + [Load(fd.reg.address, old(words)[fd.reg.address]),
                                     Store(fd.reg.address, f(old(words)[fd.reg.address]))]
      ensures Holds(fd.reg)
    {
      var val := ReadVolatile(fd.reg.address);
      val := f(val);
      WriteVolatile(fd.reg.address, val);
    }

    /** Sets a one-bit field: the stored value has the field's bit set and
        every other bit as loaded. */
    method SetBit(fd: RegField)
      requires WellFormed(fd) && fd.field.width == 1 && Holds(fd.reg)
      modifies this
      ensures words == old(words)[fd.reg.address := Bitfield.SetBit(old(words)[fd.reg.address], fd.field.offset)]
      ensures trace == old(trace) + [Load(fd.reg.address, old(words)[fd.reg.address]),
                                     Store(fd.reg.address, words[fd.reg.address])]
      ensures Holds(fd.reg)
    {
      BitTransformsKeepWidth(fd);
      ModifyField(fd, v => Bitfield.SetBit(v, fd.field.offset));
    }

    /** Clears a one-bit field: the stored value has the field's bit cleared
        and every other bit as loaded. */
    method ClearBit(fd: RegField)
      requires WellFormed(fd) && fd.field.width == 1 && Holds(fd.reg)
      modifies this
      ensures words == old(words)[fd.reg.address := Bitfield.ClearBit(old(words)[fd.reg.address], fd.field.offset)]
      ensures trace == old(trace) + [Load(fd.reg.address, old(words)[fd.reg.address]),
                                     Store(fd.reg.address, words[fd.reg.address])]
      ensures Holds(fd.reg)
    {
      BitTransformsKeepWidth(fd);
      ModifyField(fd, v => Bitfield.ClearBit(v, fd.field.offset));
    }

    /** Toggles a one-bit field: the stored value has the field's bit flipped
        and every other bit as loaded. */
    method ToggleBit(fd: RegField)
      requires WellFormed(fd) && fd.field.width == 1 && Holds(fd.reg)
      modifies this
      ensures words == old(words)[fd.reg.address := Bitfield.ToggleBit(old(words)[fd.reg.address], fd.field.offset)]
      ensures trace == old(trace) + [Load(fd.reg.address, old(words)[fd.reg.address]),
                                     Store(fd.reg.address, words[fd.reg.address])]
      ensures Holds(fd.reg)
    {
      BitTransformsKeepWidth(fd);
      ModifyField(fd, v => Bitfield.ToggleBit(v, fd.field.offset));
    }

    /** Replaces a field's bits by the low bits of `bits`; the register's other
        bits are stored as loaded. */
    method WriteBits(fd: RegField, bits: nat)
      requires WellFormed(fd) && Holds(fd.reg)
      modifies this
      ensures words == old(words)[fd.reg.address := Bitfield.WriteBits(old(words)[fd.reg.address], fd.field, bits)]
      ensures trace == old(trace) + [Load(fd.reg.address, old(words)[fd.reg.address]),
                                     Store(fd.reg.address, words[fd.reg.address])]
      ensures Holds(fd.reg)
    {
      WriteKeepsWidth(fd, bits);
      ModifyField(fd, v => Bitfield.WriteBits(v, fd.field, bits));
    }

    /** The code as written, run with an interrupt between its load and its
        store: the handler performs a complete `Modify` of its own with `g`,
        and the interrupted operation then stores `f` of the value it loaded
        before. The handler's update is lost: the register ends up as if the
        handler had never run, although it did store. */
    method ModifyInterrupted(reg: Reg, f: nat -> nat, g: nat -> nat)
      requires Holds(reg) && KeepsWidth(f, reg.width) && KeepsWidth(g, reg.width)
      modifies this
      ensures words == old(words)[reg.address := f(old(words)[reg.address])]
      ensures |trace| == |old(trace)| + 4
      ensures trace[|old(trace)| + 2] == Store(reg.address, g(old(words)[reg.address]))
    {
      var val := ReadVolatile(reg.address);
      Modify(reg, g);
      val := f(val);
      WriteVolatile(reg.address, val);
    }
  }

  /** The one-bit transforms handed to `ModifyField` keep the register's width. */
  lemma BitTransformsKeepWidth(fd: RegField)
    requires WellFormed(fd)
    ensures KeepsWidth(v => Bitfield.SetBit(v, fd.field.offset), fd.reg.width)
    ensures KeepsWidth(v => Bitfield.ClearBit(v, fd.field.offset), fd.reg.width)
    ensures KeepsWidth(v => Bitfield.ToggleBit(v, fd.field.offset), fd.reg.width)
  {
    forall v: nat | Fits(v, fd.reg.width)
      ensures Fits(Bitfield.SetBit(v, fd.field.offset), fd.reg.width)
      ensures Fits(Bitfield.ClearBit(v, fd.field.offset), fd.reg.width)
      ensures Fits(Bitfield.ToggleBit(v, fd.field.offset), fd.reg.width)
    {
      TransformsFit(v, fd.field, 0, fd.reg.width);
    }
  }

  /** The multi-bit write handed to `ModifyField` keeps the register's width. */
  lemma WriteKeepsWidth(fd: RegField, bits: nat)
    requires WellFormed(fd)
    ensures KeepsWidth(v => Bitfield.WriteBits(v, fd.field, bits), fd.reg.width)
  {
    forall v: nat | Fits(v, fd.reg.width)
      ensures Fits(Bitfield.WriteBits(v, fd.field, bits), fd.reg.width)
    {
      TransformsFit(v, fd.field, bits, fd.reg.width);
    }
  }
}

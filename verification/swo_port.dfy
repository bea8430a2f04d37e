/** ITM stimulus ports of the Serial Wire Output. A port handle is the memory
    address of one stimulus port register. Writing a value to a port is an
    exclusive load of the port register (which reads non-zero once the port's
    FIFO can take a value) followed, when the port is ready, by an exclusive
    store of the value; the pair is repeated until the exclusive store
    succeeds. A byte string is written as single bytes up to the first
    4-aligned address, then as aligned 32-bit words, then as single bytes
    again.

    The hardware is modelled by the class `Itm`: `script` holds the outcomes
    the hardware gives to the coming load/store rounds, in order, and `trace`
    records every exclusive access made to the port registers. */
module SwoPort {

  type Byte = b: int | 0 <= b < 256

  datatype Option<T> = None | Some(value: T)

  /** The result a formatter sink reports. */
  datatype FmtResult = Ok | Err

  /** Number of stimulus ports of the ITM. */
  const PortsCount: nat := 32

  /** Address of the register of stimulus port 0; port `i` is 4 * `i` above it. */
  const AddressBase: nat := 0xE000_0000

  /** An ITM stimulus port handle: the address of the port's register. */
  datatype Port = Port(address: nat)

  /** The handle of stimulus port `index`; `None` where the constructor panics
      because the index names no port. A handle is the 4-aligned address of
      exactly one port register, and different ports get different handles. */
  function NewPort(index: Byte): (r: Option<Port>)
    ensures r.Some? <==> index < PortsCount
    ensures r.Some? ==> r.value.address % 4 == 0
    ensures r.Some? ==> AddressBase <= r.value.address < AddressBase + 4 * PortsCount
    ensures r.Some? ==> (r.value.address - AddressBase) / 4 == index
  {
    if index < PortsCount then Some(Port(AddressBase + index * 4)) else None
  }

  /** A value a port write takes: the bytes of a `u8`, `u16` or `u32` in
      memory order. */
  predicate PortValue(data: seq<Byte>) {
    |data| == 1 || |data| == 2 || |data| == 4
  }

  // ---------------------------------------------------------------------
  // Splitting a byte string into port writes
  // ---------------------------------------------------------------------

  /** One element of a raw slice: its memory address and its bytes in memory
      order (one byte for a `u8` slice, four for a `u32` slice). */
  datatype Chunk = Chunk(address: nat, data: seq<Byte>)

  /** The `u8` slice of the bytes `data` stored from `address` on. */
  function ByteChunks(address: nat, data: seq<Byte>): (r: seq<Chunk>)
    ensures |r| == |data|
    ensures forall i :: 0 <= i < |r| ==> r[i].address == address + i && |r[i].data| == 1
    decreases |data|
  {
    if data == [] then [] else [Chunk(address, [data[0]])] + ByteChunks(address + 1, data[1..])
  }

  /** The `u32` slice of the bytes `data` stored from `address` on. */
  function WordChunks(address: nat, data: seq<Byte>): (r: seq<Chunk>)
    requires |data| % 4 == 0
    ensures 4 * |r| == |data|
    ensures forall i :: 0 <= i < |r| ==> r[i].address == address + 4 * i && |r[i].data| == 4
    decreases |data|
  {
    if data == [] then [] else [Chunk(address, data[..4])] + WordChunks(address + 4, data[4..])
  }

  /** The bytes of a slice, element after element. */
  function Data(cs: seq<Chunk>): seq<Byte> {
    if cs == [] then [] else cs[0].data + Data(cs[1..])
  }

  /** The values of a slice, in order. */
  function Items(cs: seq<Chunk>): seq<seq<Byte>> {
    if cs == [] then [] else [cs[0].data] + Items(cs[1..])
  }

  /** The byte stream a sequence of values makes. */
  function Concat(xs: seq<seq<Byte>>): seq<Byte> {
    if xs == [] then [] else xs[0] + Concat(xs[1..])
  }

  /** Each chunk starts where the previous one ends, the first at `start`. */
  predicate Contiguous(cs: seq<Chunk>, start: nat) {
    cs == [] || (cs[0].address == start && Contiguous(cs[1..], start + |cs[0].data|))
  }

  /** The least 4-aligned address at or above `a`. */
  function AlignUp(a: nat): (r: nat)
    ensures r % 4 == 0 && a <= r < a + 4
  {
    if a % 4 == 0 then a else a + (4 - a % 4)
  }

  /** The greatest 4-aligned address at or below `a`. */
  function AlignDown(a: nat): (r: nat)
    ensures r % 4 == 0 && r <= a < r + 4
  {
    a - a % 4
  }

  /** The slices `write_bytes` writes for the string `bytes` stored from
      address `start`, concatenated: a string shorter than 4 bytes byte by
      byte; otherwise the bytes below the first aligned address, the aligned
      words, and the bytes from the last aligned address on. */
  function Plan(start: nat, bytes: seq<Byte>): (r: seq<Chunk>)
    ensures |bytes| < 4 ==> |r| == |bytes|
    ensures |r| <= |bytes|
  {
    if |bytes| < 4 then ByteChunks(start, bytes)
    else
      NoUnderflow(start, |bytes|);
      Leading(start, bytes) + Words(start, bytes) + Trailing(start, bytes)
  }

  /** The single bytes below the first aligned address of a long string. */
  function Leading(start: nat, bytes: seq<Byte>): seq<Chunk>
    requires |bytes| >= 4
  {
    ByteChunks(start, bytes[..AlignUp(start) - start])
  }

  /** The aligned words of a long string. */
  function Words(start: nat, bytes: seq<Byte>): seq<Chunk>
    requires |bytes| >= 4
  {
    NoUnderflow(start, |bytes|);
    WordChunks(AlignUp(start), bytes[AlignUp(start) - start .. AlignDown(start + |bytes|) - start])
  }

  /** The single bytes from the last aligned address of a long string on. */
  function Trailing(start: nat, bytes: seq<Byte>): seq<Chunk>
    requires |bytes| >= 4
  {
    ByteChunks(AlignDown(start + |bytes|), bytes[AlignDown(start + |bytes|) - start ..])
  }

  /** The word run of a string of at least 4 bytes never starts after it ends:
      the aligned start is at most 3 bytes into the string and the aligned end
      at most 3 bytes before its end. */
  lemma NoUnderflow(start: nat, len: nat)
    requires len >= 4
    ensures start <= AlignUp(start) <= AlignDown(start + len) <= start + len
    ensures (AlignDown(start + len) - AlignUp(start)) % 4 == 0
  {
    var k := AlignUp(start) / 4;
    assert AlignUp(start) == 4 * k;
    assert 4 * k <= start + len;
    var m := AlignDown(start + len) / 4;
    assert AlignDown(start + len) == 4 * m;
    assert 4 * k < 4 * m + 4;
  }

  /** Without the short-string guard the word run could end before it
      starts: two bytes at address 1 would give an aligned start of 4 and an
      aligned end of 0. */
  lemma GuardNeeded()
    ensures AlignDown(1 + 2) < AlignUp(1)
  {
  }

  /** The leading and trailing single bytes together can number up to six:
      six bytes stored from address 1 are all written one by one. */
  lemma SixSingleBytes(bytes: seq<Byte>)
    requires |bytes| == 6
    ensures |Plan(1, bytes)| == 6
    ensures forall i :: 0 <= i < 6 ==> |Plan(1, bytes)[i].data| == 1
  {
    RunLengths(1, bytes);
    assert |Words(1, bytes)| == 0;
    forall i | 0 <= i < 6
      ensures |Plan(1, bytes)[i].data| == 1
    {
      PlanElement(1, bytes, i);
    }
  }

  lemma {:induction false} DataAppend(a: seq<Chunk>, b: seq<Chunk>)
    ensures Data(a + b) == Data(a) + Data(b)
  {
    if a == [] {
      assert a + b == b;
    } else {
      assert (a + b)[0] == a[0] && (a + b)[1..] == a[1..] + b;
      DataAppend(a[1..], b);
    }
  }

  lemma {:induction false} ItemsAppend(a: seq<Chunk>, b: seq<Chunk>)
    ensures Items(a + b) == Items(a) + Items(b)
  {
    if a == [] {
      assert a + b == b;
    } else {
      assert (a + b)[0] == a[0] && (a + b)[1..] == a[1..] + b;
      ItemsAppend(a[1..], b);
    }
  }

  /** Reading a slice's values back to back gives its bytes. */
  lemma {:induction false} ConcatItems(cs: seq<Chunk>)
    ensures Concat(Items(cs)) == Data(cs)
  {
    if cs != [] {
      ConcatItems(cs[1..]);
    }
  }

  lemma {:induction false} ContiguousAppend(a: seq<Chunk>, b: seq<Chunk>, start: nat)
    requires Contiguous(a, start) && Contiguous(b, start + |Data(a)|)
    ensures Contiguous(a + b, start)
  {
    if a == [] {
      assert a + b == b;
    } else {
      assert (a + b)[0] == a[0] && (a + b)[1..] == a[1..] + b;
      ContiguousAppend(a[1..], b, start + |a[0].data|);
    }
  }

  /** A `u8` slice holds the bytes it was made from, one per element, each at
      its own address. */
  lemma {:induction false} ByteChunksSound(address: nat, data: seq<Byte>)
    ensures Data(ByteChunks(address, data)) == data
    ensures Contiguous(ByteChunks(address, data), address)
    decreases |data|
  {
    if data != [] {
      ByteChunksSound(address + 1, data[1..]);
      var r := ByteChunks(address, data);
      assert r[0] == Chunk(address, [data[0]]);
      assert r[1..] == ByteChunks(address + 1, data[1..]);
      assert [data[0]] + data[1..] == data;
    }
  }

  /** A `u32` slice holds the bytes it was made from, four per element, each
      element at its own address. */
  lemma {:induction false} WordChunksSound(address: nat, data: seq<Byte>)
    requires |data| % 4 == 0
    ensures Data(WordChunks(address, data)) == data
    ensures Contiguous(WordChunks(address, data), address)
    decreases |data|
  {
    if data != [] {
      WordChunksSound(address + 4, data[4..]);
      var r := WordChunks(address, data);
      assert r[0] == Chunk(address, data[..4]);
      assert r[1..] == WordChunks(address + 4, data[4..]);
      assert data[..4] + data[4..] == data;
    }
  }

  /** Two contiguous slices, the second starting where the first ends, make
      one contiguous slice holding both byte strings. */
  lemma JoinTwo(start: nat, x: seq<Byte>, y: seq<Byte>, a: seq<Chunk>, b: seq<Chunk>)
    requires Data(a) == x && Contiguous(a, start)
    requires Data(b) == y && Contiguous(b, start + |x|)
    ensures Data(a + b) == x + y && Contiguous(a + b, start)
  {
    DataAppend(a, b);
    ContiguousAppend(a, b, start);
  }

  /** `write_bytes` writes every byte of the string exactly once, in ascending
      address order: the slices it writes, read back to back, are the string,
      and each element sits where the previous one ends. */
  lemma PlanCovers(start: nat, bytes: seq<Byte>)
    ensures Data(Plan(start, bytes)) == bytes
    ensures Contiguous(Plan(start, bytes), start)
  {
    if |bytes| < 4 {
      ByteChunksSound(start, bytes);
    } else {
      LeadingSound(start, bytes);
      WordsSound(start, bytes);
      TrailingSound(start, bytes);
      CoverThree(start, bytes, AlignUp(start) - start, AlignDown(start + |bytes|) - start,
                 Leading(start, bytes), Words(start, bytes), Trailing(start, bytes));
      PlanAsWritten(start, bytes, Leading(start, bytes), Words(start, bytes), Trailing(start, bytes));
    }
  }

  /** Three slices, each starting where the previous one ends, make one
      contiguous slice of their byte strings put together. */
  lemma JoinThree(start: nat, x: seq<Byte>, y: seq<Byte>, z: seq<Byte>, a: seq<Chunk>, b: seq<Chunk>, c: seq<Chunk>)
    requires Data(a) == x && Contiguous(a, start)
    requires Data(b) == y && Contiguous(b, start + |x|)
    requires Data(c) == z && Contiguous(c, start + |x| + |y|)
    ensures Data(a + b + c) == x + y + z && Contiguous(a + b + c, start)
  {
    JoinTwo(start, x, y, a, b);
    JoinTwo(start, x + y, z, a + b, c);
  }

  /** Three slices holding the parts of `bytes` before `i`, between `i` and
      `j` and from `j` on, each starting at its part's address, make one
      contiguous slice holding `bytes`. */
  lemma CoverThree(start: nat, bytes: seq<Byte>, i: nat, j: nat, a: seq<Chunk>, b: seq<Chunk>, c: seq<Chunk>)
    requires i <= j <= |bytes|
    requires Data(a) == bytes[..i] && Contiguous(a, start)
    requires Data(b) == bytes[i..j] && Contiguous(b, start + i)
    requires Data(c) == bytes[j..] && Contiguous(c, start + j)
    ensures Data(a + b + c) == bytes && Contiguous(a + b + c, start)
  {
    SplitJoin(bytes, i, j);
    JoinThree(start, bytes[..i], bytes[i..j], bytes[j..], a, b, c);
  }

  /** A string is its three consecutive parts put together. */
  lemma SplitJoin(bytes: seq<Byte>, i: nat, j: nat)
    requires i <= j <= |bytes|
    ensures |bytes[..i]| == i && |bytes[i..j]| == j - i
    ensures bytes[..i] + bytes[i..j] + bytes[j..] == bytes
  {
  }

  lemma LeadingSound(start: nat, bytes: seq<Byte>)
    requires |bytes| >= 4
    ensures Data(Leading(start, bytes)) == bytes[..AlignUp(start) - start]
    ensures Contiguous(Leading(start, bytes), start)
  {
    ByteChunksSound(start, bytes[..AlignUp(start) - start]);
  }

  lemma WordsSound(start: nat, bytes: seq<Byte>)
    requires |bytes| >= 4
    ensures AlignUp(start) - start <= AlignDown(start + |bytes|) - start <= |bytes|
    ensures Data(Words(start, bytes)) == bytes[AlignUp(start) - start .. AlignDown(start + |bytes|) - start]
    ensures Contiguous(Words(start, bytes), start + (AlignUp(start) - start))
  {
    NoUnderflow(start, |bytes|);
    WordChunksSound(AlignUp(start), bytes[AlignUp(start) - start .. AlignDown(start + |bytes|) - start]);
  }

  lemma TrailingSound(start: nat, bytes: seq<Byte>)
    requires |bytes| >= 4
    ensures AlignDown(start + |bytes|) - start <= |bytes|
    ensures Data(Trailing(start, bytes)) == bytes[AlignDown(start + |bytes|) - start ..]
    ensures Contiguous(Trailing(start, bytes), start + (AlignDown(start + |bytes|) - start))
  {
    ByteChunksSound(AlignDown(start + |bytes|), bytes[AlignDown(start + |bytes|) - start ..]);
  }

  /** Every element `write_bytes` writes is a single byte or a 4-aligned
      word. A string shorter than 4 bytes is written byte by byte. Otherwise
      the first `(4 - start % 4) % 4` elements and the last
      `(start + len) % 4` elements are single bytes and all others are words,
      lying between the first aligned address at or above the string's start
      and the last one at or below its end. */
  lemma PlanUnits(start: nat, bytes: seq<Byte>)
    ensures forall k :: 0 <= k < |Plan(start, bytes)| ==>
              |Plan(start, bytes)[k].data| == 1 || |Plan(start, bytes)[k].data| == 4
    ensures |bytes| < 4 ==> |Plan(start, bytes)| == |bytes|
    ensures |bytes| >= 4 ==>
              (4 - start % 4) % 4 + (start + |bytes|) % 4 <= |Plan(start, bytes)|
              && 4 * |Plan(start, bytes)| == 4 * ((4 - start % 4) % 4 + (start + |bytes|) % 4)
                                            + AlignDown(start + |bytes|) - AlignUp(start)
    ensures |bytes| >= 4 ==>
              forall k :: 0 <= k < |Plan(start, bytes)| ==>
                (|Plan(start, bytes)[k].data| == 4 <==>
                   (4 - start % 4) % 4 <= k < |Plan(start, bytes)| - (start + |bytes|) % 4)
    ensures |bytes| >= 4 ==>
              forall k :: 0 <= k < |Plan(start, bytes)| && |Plan(start, bytes)[k].data| == 4 ==>
                Plan(start, bytes)[k].address % 4 == 0
                && AlignUp(start) <= Plan(start, bytes)[k].address
                && Plan(start, bytes)[k].address + 4 <= AlignDown(start + |bytes|)
  {
    if |bytes| >= 4 {
      RunLengths(start, bytes);
      forall k | 0 <= k < |Plan(start, bytes)|
        ensures |Plan(start, bytes)[k].data| == 1 || |Plan(start, bytes)[k].data| == 4
        ensures |Plan(start, bytes)[k].data| == 4 <==>
                  |Leading(start, bytes)| <= k < |Leading(start, bytes)| + |Words(start, bytes)|
        ensures |Plan(start, bytes)[k].data| == 4 ==>
                  Plan(start, bytes)[k].address % 4 == 0
                  && AlignUp(start) <= Plan(start, bytes)[k].address
                  && Plan(start, bytes)[k].address + 4 <= AlignDown(start + |bytes|)
      {
        PlanElement(start, bytes, k);
      }
    }
  }

  /** The lengths of the three runs of a long string. */
  lemma RunLengths(start: nat, bytes: seq<Byte>)
    requires |bytes| >= 4
    ensures |Leading(start, bytes)| == (4 - start % 4) % 4
    ensures |Trailing(start, bytes)| == (start + |bytes|) % 4
    ensures 4 * |Words(start, bytes)| == AlignDown(start + |bytes|) - AlignUp(start)
    ensures |Plan(start, bytes)| == |Leading(start, bytes)| + |Words(start, bytes)| + |Trailing(start, bytes)|
  {
    NoUnderflow(start, |bytes|);
  }

  /** One element of the plan of a long string: a single byte in the leading
      or trailing run, an aligned word inside the aligned range otherwise. */
  lemma PlanElement(start: nat, bytes: seq<Byte>, k: nat)
    requires |bytes| >= 4 && k < |Plan(start, bytes)|
    ensures |Plan(start, bytes)[k].data| == 1 || |Plan(start, bytes)[k].data| == 4
    ensures |Plan(start, bytes)[k].data| == 4 <==>
              |Leading(start, bytes)| <= k < |Leading(start, bytes)| + |Words(start, bytes)|
    ensures |Plan(start, bytes)[k].data| == 4 ==>
              Plan(start, bytes)[k].address % 4 == 0
              && AlignUp(start) <= Plan(start, bytes)[k].address
              && Plan(start, bytes)[k].address + 4 <= AlignDown(start + |bytes|)
  {
    var head, words, tail := Leading(start, bytes), Words(start, bytes), Trailing(start, bytes);
    var p := Plan(start, bytes);
    assert p == head + words + tail;
    if k < |head| {
      assert p[k] == head[k];
    } else if k < |head| + |words| {
      var w := k - |head|;
      assert p[k] == words[w];
      AlignedStep(AlignUp(start), w);
    } else {
      assert p[k] == tail[k - |head| - |words|];
    }
  }

  /** The leading run of a long string at an unaligned address, as
      `write_bytes` computes it: `4 - start % 4` single bytes. */
  lemma LeadingAsComputed(start: nat, bytes: seq<Byte>, rem: nat)
    requires |bytes| >= 4 && start % 4 != 0 && rem == 4 - start % 4
    ensures rem <= |bytes| && start + rem == AlignUp(start)
    ensures ByteChunks(start, bytes[..rem]) == Leading(start, bytes)
  {
  }

  /** A long string at an aligned address has no leading run. */
  lemma LeadingAligned(start: nat, bytes: seq<Byte>)
    requires |bytes| >= 4 && start % 4 == 0
    ensures start == AlignUp(start) && [] == Leading(start, bytes)
  {
  }

  /** The word and trailing runs of a long string, as `write_bytes` computes
      them: words from the first aligned address `addr` up to `end`, the
      string's end address less its remainder `rem` modulo 4, then `rem`
      single bytes. */
  lemma RestAsComputed(start: nat, bytes: seq<Byte>, addr: nat, end: int, rem: int)
    requires |bytes| >= 4 && addr == AlignUp(start)
    requires rem == (|bytes| + start) % 4 && end == |bytes| + start - rem
    ensures start <= addr <= end && end - start + rem == |bytes|
    ensures |bytes[addr - start .. end - start]| % 4 == 0
    ensures WordChunks(addr, bytes[addr - start .. end - start]) == Words(start, bytes)
    ensures ByteChunks(end, bytes[end - start .. end - start + rem]) == Trailing(start, bytes)
  {
    NoUnderflow(start, |bytes|);
    assert end == AlignDown(start + |bytes|);
    assert bytes[end - start .. end - start + rem] == bytes[end - start ..];
  }

  /** The three slices `write_bytes` writes for a string of at least 4
      bytes, computed the way it computes them: the remainder of the start
      address modulo 4 and, when non-zero, that many bytes short of 4 single
      bytes; the end address less its own remainder modulo 4 as the end of the
      words; that remainder as the number of trailing single bytes. They are
      the leading, word and trailing runs of the string's plan. */
  function SplitRuns(start: nat, bytes: seq<Byte>): (runs: (seq<Chunk>, seq<Chunk>, seq<Chunk>))
    requires |bytes| >= 4
    ensures runs.0 == Leading(start, bytes)
    ensures runs.1 == Words(start, bytes)
    ensures runs.2 == Trailing(start, bytes)
  {
    var rem := start % 4;
    var end := |bytes| + start;
    var (head, addr) :=
      if rem != 0 then
        (LeadingAsComputed(start, bytes, 4 - rem);
         (ByteChunks(start, bytes[..4 - rem]), start + (4 - rem)))
      else
        (LeadingAligned(start, bytes);
         ([], start));
    var tailLen := end % 4;
    var wordsEnd := end - tailLen;
    RestAsComputed(start, bytes, addr, wordsEnd, tailLen);
    (head, WordChunks(addr, bytes[addr - start .. wordsEnd - start]),
     ByteChunks(wordsEnd, bytes[wordsEnd - start .. wordsEnd - start + tailLen]))
  }

  /** The runs of a long string are made of port values and together have
      as many elements as its plan. */
  lemma RunUnits(start: nat, bytes: seq<Byte>)
    requires |bytes| >= 4
    ensures |Plan(start, bytes)| == |Leading(start, bytes)| + |Words(start, bytes)| + |Trailing(start, bytes)|
    ensures forall i :: 0 <= i < |Leading(start, bytes)| ==> PortValue(Leading(start, bytes)[i].data)
    ensures forall i :: 0 <= i < |Words(start, bytes)| ==> PortValue(Words(start, bytes)[i].data)
    ensures forall i :: 0 <= i < |Trailing(start, bytes)| ==> PortValue(Trailing(start, bytes)[i].data)
  {
    RunLengths(start, bytes);
  }

  /** The three slices `write_bytes` writes for a long string make up its plan. */
  lemma PlanAsWritten(start: nat, bytes: seq<Byte>, head: seq<Chunk>, words: seq<Chunk>, tail: seq<Chunk>)
    requires |bytes| >= 4
    requires head == Leading(start, bytes) && words == Words(start, bytes) && tail == Trailing(start, bytes)
    ensures Plan(start, bytes) == head + words + tail
  {
  }

  lemma {:induction false} AlignedStep(a: nat, w: nat)
    requires a % 4 == 0
    ensures (a + 4 * w) % 4 == 0
    decreases w
  {
    if w > 0 {
      AlignedStep(a, w - 1);
    }
  }

  // ---------------------------------------------------------------------
  // The exclusive-access loop of a port write
  // ---------------------------------------------------------------------

  /** What the hardware does with one round of the loop: the value the
      exclusive load reads (non-zero when the port can take a value) and
      whether the exclusive store that follows a non-zero load succeeds. */
  datatype Attempt = Attempt(ready: nat, stored: bool)

  /** The round writes the value: the port was ready and the store succeeded. */
  predicate Accepts(a: Attempt) {
    a.ready != 0 && a.stored
  }

  /** Rounds in `s` that write a value. */
  function AcceptCount(s: seq<Attempt>): nat {
    if s == [] then 0 else (if Accepts(s[0]) then 1 else 0) + AcceptCount(s[1..])
  }

  /** One exclusive access to a port register. */
  datatype ItmAccess =
    | ExclusiveLoad(address: nat, ready: nat)
    | ExclusiveStore(address: nat, data: seq<Byte>, stored: bool)

  /** The accesses of one round writing `data` to the port at `address`: an
      exclusive load, then, if it read non-zero, an exclusive store. */
  function RoundTrace(address: nat, data: seq<Byte>, a: Attempt): (t: seq<ItmAccess>)
    ensures t != [] && t[0] == ExclusiveLoad(address, a.ready)
    ensures |t| == 2 <==> a.ready != 0
  {
    [ExclusiveLoad(address, a.ready)] + (if a.ready != 0 then [ExclusiveStore(address, data, a.stored)] else [])
  }

  /** The accesses of the rounds `s`, one after another. */
  function LoopTrace(address: nat, data: seq<Byte>, s: seq<Attempt>): (t: seq<ItmAccess>)
    ensures t == [] <==> s == []
  {
    if s == [] then [] else RoundTrace(address, data, s[0]) + LoopTrace(address, data, s[1..])
  }

  /** The values that reached a port: the data of the stores that succeeded. */
  function Delivered(t: seq<ItmAccess>): seq<seq<Byte>> {
    if t == [] then []
    else (if t[0].ExclusiveStore? && t[0].stored then [t[0].data] else []) + Delivered(t[1..])
  }

  /** Every exclusive store directly follows an exclusive load of the same
      register that read non-zero. */
  predicate Guarded(t: seq<ItmAccess>) {
    forall i :: 0 <= i < |t| && t[i].ExclusiveStore? ==>
      0 < i && t[i - 1].ExclusiveLoad? && t[i - 1].address == t[i].address && t[i - 1].ready != 0
  }

  /** Every access goes to the register at `address`. */
  predicate OnPort(t: seq<ItmAccess>, address: nat) {
    forall i :: 0 <= i < |t| ==> t[i].address == address
  }

  /** The accesses `t` put exactly `values` on the port at `address`, each
      store guarded by a ready load. */
  predicate Sends(t: seq<ItmAccess>, address: nat, values: seq<seq<Byte>>) {
    Delivered(t) == values && Guarded(t) && OnPort(t, address)
  }

  lemma {:induction false} DeliveredAppend(a: seq<ItmAccess>, b: seq<ItmAccess>)
    ensures Delivered(a + b) == Delivered(a) + Delivered(b)
  {
    if a == [] {
      assert a + b == b;
    } else {
      assert (a + b)[0] == a[0] && (a + b)[1..] == a[1..] + b;
      DeliveredAppend(a[1..], b);
      var head := if a[0].ExclusiveStore? && a[0].stored then [a[0].data] else [];
      assert Delivered(a + b) == head + (Delivered(a[1..]) + Delivered(b));
      AppendAssoc(head, Delivered(a[1..]), Delivered(b));
    }
  }

  /** Guarded access sequences stay guarded when put one after another: a
      guarded sequence cannot start with a store. */
  lemma GuardedAppend(a: seq<ItmAccess>, b: seq<ItmAccess>)
    requires Guarded(a) && Guarded(b)
    ensures Guarded(a + b)
  {
    var t := a + b;
    forall i | 0 <= i < |t| && t[i].ExclusiveStore?
      ensures 0 < i && t[i - 1].ExclusiveLoad? && t[i - 1].address == t[i].address && t[i - 1].ready != 0
    {
      if i >= |a| {
        assert t[i] == b[i - |a|];
        assert t[i - 1] == b[i - 1 - |a|];
      } else {
        assert t[i] == a[i];
        assert t[i - 1] == a[i - 1];
      }
    }
  }

  /** What two access sequences send, one after the other, is what the first
      sends followed by what the second sends. */
  lemma SendsAppend(a: seq<ItmAccess>, b: seq<ItmAccess>, address: nat, x: seq<seq<Byte>>, y: seq<seq<Byte>>)
    requires Sends(a, address, x) && Sends(b, address, y)
    ensures Sends(a + b, address, x + y)
  {
    DeliveredAppend(a, b);
    GuardedAppend(a, b);
    assert OnPort(a + b, address) by {
      forall i | 0 <= i < |a + b|
        ensures (a + b)[i].address == address
      {
        if i < |a| {
          assert (a + b)[i] == a[i];
        } else {
          assert (a + b)[i] == b[i - |a|];
        }
      }
    }
  }

  lemma AppendAssoc<T>(a: seq<T>, b: seq<T>, c: seq<T>)
    ensures a + (b + c) == (a + b) + c
  {
  }

  /** Three slices written one after another send their values in order. */
  lemma SendsThree(address: nat, s1: seq<ItmAccess>, s2: seq<ItmAccess>, s3: seq<ItmAccess>,
                   a: seq<Chunk>, b: seq<Chunk>, c: seq<Chunk>)
    requires Sends(s1, address, Items(a)) && Sends(s2, address, Items(b)) && Sends(s3, address, Items(c))
    ensures Sends(s1 + s2 + s3, address, Items(a + b + c))
  {
    SendsAppend(s1, s2, address, Items(a), Items(b));
    SendsAppend(s1 + s2, s3, address, Items(a) + Items(b), Items(c));
    ItemsAppend(a, b);
    ItemsAppend(a + b, c);
  }

  /** Whatever sends the values of a string's plan puts the string itself on
      the port, byte for byte. */
  lemma PlanSent(start: nat, bytes: seq<Byte>, address: nat, sent: seq<ItmAccess>)
    requires Sends(sent, address, Items(Plan(start, bytes)))
    ensures Concat(Delivered(sent)) == bytes
  {
    PlanCovers(start, bytes);
    ConcatItems(Plan(start, bytes));
  }

  /** One round sends `data` if it writes it and nothing otherwise. */
  lemma RoundSends(address: nat, data: seq<Byte>, a: Attempt)
    ensures Sends(RoundTrace(address, data, a), address, if Accepts(a) then [data] else [])
  {
    var t := RoundTrace(address, data, a);
    assert Delivered(t) == Delivered(t[1..]);
    if a.ready != 0 {
      assert t[1..] == [ExclusiveStore(address, data, a.stored)];
      assert Delivered(t[1..][1..]) == [];
    }
  }

  lemma {:induction false} LoopTraceAppend(address: nat, data: seq<Byte>, a: seq<Attempt>, b: seq<Attempt>)
    ensures LoopTrace(address, data, a + b) == LoopTrace(address, data, a) + LoopTrace(address, data, b)
  {
    if a == [] {
      assert a + b == b;
    } else {
      assert (a + b)[0] == a[0] && (a + b)[1..] == a[1..] + b;
      LoopTraceAppend(address, data, a[1..], b);
    }
  }

  /** Exclusive loads in `t`. */
  function Loads(t: seq<ItmAccess>): nat {
    if t == [] then 0 else (if t[0].ExclusiveLoad? then 1 else 0) + Loads(t[1..])
  }

  lemma {:induction false} LoadsAppend(a: seq<ItmAccess>, b: seq<ItmAccess>)
    ensures Loads(a + b) == Loads(a) + Loads(b)
  {
    if a == [] {
      assert a + b == b;
    } else {
      assert (a + b)[0] == a[0] && (a + b)[1..] == a[1..] + b;
      LoadsAppend(a[1..], b);
    }
  }

  /** Every round of the loop makes exactly one exclusive load. */
  lemma {:induction false} LoopLoads(address: nat, data: seq<Byte>, s: seq<Attempt>)
    ensures Loads(LoopTrace(address, data, s)) == |s|
  {
    if s != [] {
      var r := RoundTrace(address, data, s[0]);
      LoopLoads(address, data, s[1..]);
      LoadsAppend(r, LoopTrace(address, data, s[1..]));
      assert r[0].ExclusiveLoad?;
      assert Loads(r[1..]) == 0 by {
        if s[0].ready != 0 {
          assert r[1..][1..] == [];
        }
      }
    }
  }

  /** A port write that meets `k` failing rounds before the first round that
      writes its value makes `k + 1` exclusive loads. */
  lemma PortWriteLoads(address: nat, data: seq<Byte>, s: seq<Attempt>, k: nat)
    requires k < |s| && Accepts(s[k])
    requires forall i :: 0 <= i < k ==> !Accepts(s[i])
    ensures AcceptCount(s) > 0 && Rounds(s) == k + 1
    ensures Loads(LoopTrace(address, data, s[..Rounds(s)])) == k + 1
  {
    AcceptsCount(s, k);
    LoopLoads(address, data, s[..Rounds(s)]);
  }

  /** A script with an accepting round has a positive accept count. */
  lemma {:induction false} AcceptsCount(s: seq<Attempt>, k: nat)
    requires k < |s| && Accepts(s[k])
    ensures AcceptCount(s) > 0
  {
    if k > 0 && !Accepts(s[0]) {
      AcceptsCount(s[1..], k - 1);
    }
  }

  /** The number of rounds a port write takes: up to and including the first
      round that writes the value. All rounds before it fail, and the rounds
      after it hold one write fewer than `s`. */
  function Rounds(s: seq<Attempt>): (n: nat)
    requires AcceptCount(s) > 0
    ensures 1 <= n <= |s| && Accepts(s[n - 1])
    ensures forall i :: 0 <= i < n - 1 ==> !Accepts(s[i])
    ensures AcceptCount(s[n..]) == AcceptCount(s) - 1
  {
    if Accepts(s[0]) then 1
    else
      var m := Rounds(s[1..]);
      assert s[1..][m..] == s[1 + m..];
      1 + m
  }

  /** A port write puts its value on the port exactly once, every store it
      makes following a ready load, and its last access is the one store that
      succeeds. */
  lemma {:induction false} PortWriteSends(address: nat, data: seq<Byte>, s: seq<Attempt>)
    requires AcceptCount(s) > 0
    ensures Sends(LoopTrace(address, data, s[..Rounds(s)]), address, [data])
    ensures LoopTrace(address, data, s[..Rounds(s)]) != []
    ensures LoopTrace(address, data, s[..Rounds(s)])[|LoopTrace(address, data, s[..Rounds(s)])| - 1]
              == ExclusiveStore(address, data, true)
    decreases |s|
  {
    var n := Rounds(s);
    var first := RoundTrace(address, data, s[0]);
    var rest := LoopTrace(address, data, s[1..][..n - 1]);
    LoopTraceCons(address, data, s, n);
    if n == 1 {
      assert s[1..][..n - 1] == [];
      AcceptingRound(address, data, s[0]);
      assert first + rest == first;
    } else {
      FailingRound(address, data, s[0]);
      assert Rounds(s[1..]) == n - 1;
      PortWriteSends(address, data, s[1..]);
      SendsAppend(first, rest, address, [], [data]);
      LastOfAppend(first, rest);
    }
  }

  /** A round that writes the value is a ready load followed by the
      successful store, and sends the value. */
  lemma AcceptingRound(address: nat, data: seq<Byte>, a: Attempt)
    requires Accepts(a)
    ensures RoundTrace(address, data, a) == [ExclusiveLoad(address, a.ready), ExclusiveStore(address, data, true)]
    ensures Sends(RoundTrace(address, data, a), address, [data])
  {
    RoundSends(address, data, a);
  }

  /** A round that does not write the value sends nothing. */
  lemma FailingRound(address: nat, data: seq<Byte>, a: Attempt)
    requires !Accepts(a)
    ensures Sends(RoundTrace(address, data, a), address, [])
  {
    RoundSends(address, data, a);
  }

  /** The accesses of the first `n` rounds: the first round's, then those of
      the `n - 1` rounds after it. */
  lemma LoopTraceCons(address: nat, data: seq<Byte>, s: seq<Attempt>, n: nat)
    requires 1 <= n <= |s|
    ensures LoopTrace(address, data, s[..n])
              == RoundTrace(address, data, s[0]) + LoopTrace(address, data, s[1..][..n - 1])
  {
    assert s[..n][0] == s[0] && s[..n][1..] == s[1..][..n - 1];
  }

  lemma LastOfAppend<T>(a: seq<T>, b: seq<T>)
    requires b != []
    ensures a + b != [] && (a + b)[|a + b| - 1] == b[|b| - 1]
  {
  }

  class Itm {
    /** Outcomes of the coming load/store rounds, in order. */
    var script: seq<Attempt>
    /** Every exclusive access made to the port registers so far, oldest first. */
    var trace: seq<ItmAccess>

    constructor (outcomes: seq<Attempt>)
      ensures script == outcomes && trace == []
    {
      script := outcomes;
      trace := [];
    }

    /** Writes the value `data` to the port register at `address`: exclusive
        load; if it read zero, start over; otherwise exclusive store, and
        start over if the store failed. */
    method PortWrite(address: nat, data: seq<Byte>)
      requires PortValue(data)
      requires AcceptCount(script) > 0
      modifies this
      ensures script == old(script)[Rounds(old(script))..]
      ensures trace == old(trace) + LoopTrace(address, data, old(script)[..Rounds(old(script))])
    {
      ghost var s0 := script;
      ghost var n := Rounds(s0);
      ghost var k := 0;
      var done := false;
      while !done
        invariant 0 <= k <= n
        invariant script == s0[k..]
        invariant trace == old(trace) + LoopTrace(address, data, s0[..k])
        invariant done <==> k == n
        decreases n - k
      {
        ghost var before := trace;
        var attempt := script[0];
        script := script[1..];
        var tmp := attempt.ready;
        trace := trace + [ExclusiveLoad(address, tmp)];
        if tmp != 0 {
          tmp := if attempt.stored then 0 else 1;
          trace := trace + [ExclusiveStore(address, data, attempt.stored)];
          done := tmp != 1;
        }
        assert attempt == s0[k] && trace == before + RoundTrace(address, data, attempt);
        NextRound(address, data, s0, k);
        AppendAssoc(old(trace), LoopTrace(address, data, s0[..k]), RoundTrace(address, data, attempt));
        k := k + 1;
      }
    }

    /** `Port::write`: writes one value to the port and hands the port back.
        The accesses it makes send exactly that value; the hardware has used
        up one successful round. */
    method Write(port: Port, data: seq<Byte>) returns (r: Port, ghost sent: seq<ItmAccess>)
      requires PortValue(data)
      requires AcceptCount(script) > 0
      modifies this
      ensures r == port
      ensures trace == old(trace) + sent
      ensures Sends(sent, port.address, [data])
      ensures AcceptCount(script) == old(AcceptCount(script)) - 1
      ensures script == old(script)[Rounds(old(script))..]
      ensures sent == LoopTrace(port.address, data, old(script)[..Rounds(old(script))])
    {
      ghost var s := script;
      PortWrite(port.address, data);
      sent := LoopTrace(port.address, data, s[..Rounds(s)]);
      PortWriteSends(port.address, data, s);
      r := port;
    }

    /** Writes the elements of a slice to the port one after another: the
        accesses send the slice's values, in order, and use up one successful
        round per element. */
    method WriteSlice(port: Port, slice: seq<Chunk>) returns (ghost sent: seq<ItmAccess>)
      requires forall i :: 0 <= i < |slice| ==> PortValue(slice[i].data)
      requires AcceptCount(script) >= |slice|
      modifies this
      ensures trace == old(trace) + sent
      ensures Sends(sent, port.address, Items(slice))
      ensures AcceptCount(script) == old(AcceptCount(script)) - |slice|
    {
      sent := [];
      for i := 0 to |slice|
        invariant trace == old(trace) + sent
        invariant Sends(sent, port.address, Items(slice[..i]))
        invariant AcceptCount(script) == old(AcceptCount(script)) - i
      {
        var _, one := Write(port, slice[i].data);
        SendsAppend(sent, one, port.address, Items(slice[..i]), [slice[i].data]);
        ItemsSnoc(slice, i);
        AppendAssoc(old(trace), sent, one);
        sent := sent + one;
      }
      assert slice[..|slice|] == slice;
    }

    /** `Port::write_bytes` for the string `bytes` stored from address `start`:
        writes the slices of `Plan`, so the values that reach the port, read
        back to back, are exactly the string; hands the port back. */
    method WriteBytes(port: Port, start: nat, bytes: seq<Byte>) returns (r: Port, ghost sent: seq<ItmAccess>)
      requires AcceptCount(script) >= |Plan(start, bytes)|
      modifies this
      ensures r == port
      ensures trace == old(trace) + sent
      ensures Sends(sent, port.address, Items(Plan(start, bytes)))
      ensures Concat(Delivered(sent)) == bytes
      ensures AcceptCount(script) == old(AcceptCount(script)) - |Plan(start, bytes)|
    {
      var end := |bytes|;
      if end < 4 {
        sent := WriteSlice(port, ByteChunks(start, bytes));
        PlanSent(start, bytes, port.address, sent);
        return port, sent;
      }
      var runs := SplitRuns(start, bytes);
      var head, words, tail := runs.0, runs.1, runs.2;
      RunUnits(start, bytes);
      ghost var s1 := WriteSlice(port, head);
      sent := s1;
      ghost var s2 := WriteSlice(port, words);
      AppendAssoc(old(trace), sent, s2);
      sent := sent + s2;
      ghost var s3 := WriteSlice(port, tail);
      AppendAssoc(old(trace), sent, s3);
      sent := sent + s3;
      SendsThree(port.address, s1, s2, s3, head, words, tail);
      PlanSent(start, bytes, port.address, sent);
      r := port;
    }

    /** `write_str`: writes the UTF-8 bytes of a string stored from `start`
        and always reports success. */
    method WriteStr(port: Port, start: nat, utf8: seq<Byte>) returns (r: Port, result: FmtResult, ghost sent: seq<ItmAccess>)
      requires AcceptCount(script) >= |Plan(start, utf8)|
      modifies this
      ensures r == port && result == Ok
      ensures trace == old(trace) + sent
      ensures Sends(sent, port.address, Items(Plan(start, utf8)))
      ensures Concat(Delivered(sent)) == utf8
      ensures AcceptCount(script) == old(AcceptCount(script)) - |Plan(start, utf8)|
    {
      var _, s := WriteBytes(port, start, utf8);
      r, result, sent := port, Ok, s;
    }
  }

  /** One more round of the exclusive-access loop. */
  lemma NextRound(address: nat, data: seq<Byte>, s: seq<Attempt>, k: nat)
    requires k < |s|
    ensures LoopTrace(address, data, s[..k + 1]) == LoopTrace(address, data, s[..k]) + RoundTrace(address, data, s[k])
  {
    assert s[..k + 1] == s[..k] + [s[k]];
    LoopTraceAppend(address, data, s[..k], [s[k]]);
    assert [s[k]][1..] == [];
  }

  /** The values of a slice's first `i + 1` elements. */
  lemma ItemsSnoc(slice: seq<Chunk>, i: nat)
    requires i < |slice|
    ensures Items(slice[..i + 1]) == Items(slice[..i]) + [slice[i].data]
  {
    assert slice[..i + 1] == slice[..i] + [slice[i]];
    ItemsAppend(slice[..i], [slice[i]]);
  }
}

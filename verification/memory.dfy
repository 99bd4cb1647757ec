/**
 The 4096-byte address space of `src/memory.rs`: the byte array with the
 built-in hexadecimal font at 0x50, the program counter and the index register.

 Operations that index out of bounds, or (in a debug build) overflow a `u16`, panic in the source;
 here they carry the corresponding precondition. The one explicit `panic!`
 (a program image that does not fit) is an error value instead, so that its
 boundary can be stated.
 */
module AddressSpace {
  import opened Bits

  const MEMORY_SIZE: nat := 4096
  const START_ADDRESS: nat := 0x200
  const FONTSET_START_ADDRESS: nat := 0x50

  /** Sixteen 5-byte glyphs, one per hexadecimal digit 0..F. */
  const FONTSET: seq<Byte> := [
    0xF0, 0x90, 0x90, 0x90, 0xF0, // 0
    0x20, 0x60, 0x20, 0x20, 0x70, // 1
    0xF0, 0x10, 0xF0, 0x80, 0xF0, // 2
    0xF0, 0x10, 0xF0, 0x10, 0xF0, // 3
    0x90, 0x90, 0xF0, 0x10, 0x10, // 4
    0xF0, 0x80, 0xF0, 0x10, 0xF0, // 5
    0xF0, 0x80, 0xF0, 0x90, 0xF0, // 6
    0xF0, 0x10, 0x20, 0x40, 0x40, // 7
    0xF0, 0x90, 0xF0, 0x90, 0xF0, // 8
    0xF0, 0x90, 0xF0, 0x10, 0xF0, // 9
    0xF0, 0x90, 0xF0, 0x90, 0x90, // A
    0xE0, 0x90, 0xE0, 0x90, 0xE0, // B
    0xF0, 0x80, 0x80, 0x80, 0xF0, // C
    0xE0, 0x90, 0x90, 0x90, 0xE0, // D
    0xF0, 0x80, 0xF0, 0x80, 0xF0, // E
    0xF0, 0x80, 0xF0, 0x80, 0x80  // F
  ]

  /** First address past the font table (0xA0). */
  const FONTSET_END: nat := FONTSET_START_ADDRESS + |FONTSET|

  /** The largest program image that fits above `START_ADDRESS` (3584 bytes). */
  const MAX_PROGRAM_SIZE: nat := MEMORY_SIZE - START_ADDRESS

  type Buffer = s: seq<Byte> | |s| == MEMORY_SIZE witness seq(MEMORY_SIZE, _ => 0)

  datatype Memory = Memory(buf: Buffer, pc: U16, indexRegister: U16)

  /** The result of `load_instructions`: the loaded memory, or the size that made it panic. */
  datatype LoadResult = Loaded(memory: Memory) | RomTooLarge(size: nat)

  /** Glyph `d` of the font table. */
  function Glyph(d: Nibble): seq<Byte>
  {
    FONTSET[5 * d .. 5 * d + 5]
  }

  /** The font table is where `new` put it. */
  predicate FontIntact(m: Memory)
  {
    m.buf[FONTSET_START_ADDRESS .. FONTSET_END] == FONTSET
  }

  /** `Memory::new`: zeroed memory holding the font, pc at the program start. */
  function New(): (m: Memory)
    ensures m.pc == START_ADDRESS && m.indexRegister == 0
    ensures FontIntact(m)
    ensures forall i :: 0 <= i < MEMORY_SIZE && !(FONTSET_START_ADDRESS <= i < FONTSET_END) ==> m.buf[i] == 0
  {
    var zeros := seq(MEMORY_SIZE, _ => 0);
    Memory(zeros[..FONTSET_START_ADDRESS] + FONTSET + zeros[FONTSET_END..], START_ADDRESS, 0)
  }

  /** `fetch`: the big-endian word at pc (`buf[pc] << 8 | buf[pc + 1]`), then pc += 2. */
  function Fetch(m: Memory): (r: (U16, Memory))
    requires m.pc + 1 < MEMORY_SIZE
    ensures r.0 / 0x100 == m.buf[m.pc] && r.0 % 0x100 == m.buf[m.pc + 1]
    ensures r.1.pc == m.pc + 2
    ensures r.1.buf == m.buf && r.1.indexRegister == m.indexRegister
  {
    (m.buf[m.pc] as int * 0x100 + m.buf[m.pc + 1], Advance(m, 2))
  }

  /** `load_instructions`: copy a program image to 0x200, or reject it when it does not fit. */
  function LoadInstructions(m: Memory, data: seq<Byte>): (r: LoadResult)
    ensures r.RomTooLarge? <==> |data| > MAX_PROGRAM_SIZE
    ensures r.Loaded? ==> r.memory.buf[START_ADDRESS .. START_ADDRESS + |data|] == data
    ensures r.Loaded? ==>
      forall i :: 0 <= i < MEMORY_SIZE && !(START_ADDRESS <= i < START_ADDRESS + |data|) ==>
        r.memory.buf[i] == m.buf[i]
    ensures r.Loaded? ==> r.memory.pc == m.pc && r.memory.indexRegister == m.indexRegister
  {
    if |data| > |m.buf| - START_ADDRESS then
      RomTooLarge(|data|)
    else
      Loaded(m.(buf := m.buf[..START_ADDRESS] + data + m.buf[START_ADDRESS + |data|..]))
  }

  /** A freshly created memory with a program loaded keeps the font table. */
  lemma LoadKeepsFont(data: seq<Byte>)
    requires |data| <= MAX_PROGRAM_SIZE
    ensures LoadInstructions(New(), data).Loaded?
    ensures FontIntact(LoadInstructions(New(), data).memory)
    ensures LoadInstructions(New(), data).memory.pc == START_ADDRESS
  {
    var m := LoadInstructions(New(), data).memory;
    forall i | FONTSET_START_ADDRESS <= i < FONTSET_END
      ensures m.buf[i] == FONTSET[i - FONTSET_START_ADDRESS]
    {
      assert New().buf[i] == New().buf[FONTSET_START_ADDRESS .. FONTSET_END][i - FONTSET_START_ADDRESS];
    }
  }

  /** `set_address`: pc := addr, the cells and I are unchanged. */
  function SetAddress(m: Memory, addr: U16): (r: Memory)
    ensures r.pc == addr && r.buf == m.buf && r.indexRegister == m.indexRegister
  {
    m.(pc := addr)
  }

  /** `get_pointer`: setting pc to the address it reports changes nothing. */
  function GetPointer(m: Memory): (a: U16)
    ensures SetAddress(m, a) == m
  {
    m.pc
  }

  /** `advance`: pc += n, which panics on `u16` overflow in a debug build (a release build wraps). */
  function Advance(m: Memory, n: U16): (r: Memory)
    requires m.pc + n < 0x1_0000
    ensures r.pc == m.pc + n && r.buf == m.buf && r.indexRegister == m.indexRegister
  {
    m.(pc := m.pc + n)
  }

  /** `go_back`: pc -= n, which panics on `u16` underflow in a debug build (a release build wraps). */
  function GoBack(m: Memory, n: U16): (r: Memory)
    requires n <= m.pc
    ensures r.pc == m.pc - n && r.buf == m.buf && r.indexRegister == m.indexRegister
  {
    m.(pc := m.pc - n)
  }

  /** Going back by the distance just advanced restores the memory exactly. */
  lemma AdvanceThenGoBack(m: Memory, n: U16)
    requires m.pc + n < 0x1_0000
    ensures GoBack(Advance(m, n), n) == m
  {
  }

  /** `get_pointer` reads back what `set_address` wrote, and a second `set_address` overrides the first. */
  lemma SetAddressThenGetPointer(m: Memory, a: U16, b: U16)
    ensures GetPointer(SetAddress(m, a)) == a
    ensures SetAddress(SetAddress(m, a), b) == SetAddress(m, b)
  {
  }

  /** `slice`: the cells `from .. to`. */
  function Slice(m: Memory, from: nat, to: nat): (s: seq<Byte>)
    requires from <= to <= MEMORY_SIZE
    ensures |s| == to - from
    ensures forall i :: 0 <= i < |s| ==> s[i] == m.buf[from + i]
  {
    m.buf[from .. to]
  }

  /** `set_index_register_to_font_no`: I := 0x50 + 5 * font_no (at most 0x54B, so the `as u16` never truncates). */
  function SetIndexRegisterToFontNo(m: Memory, fontNo: Byte): (r: Memory)
    ensures r.indexRegister == FONTSET_START_ADDRESS + 5 * fontNo
    ensures r.buf == m.buf && r.pc == m.pc
  {
    m.(indexRegister := FONTSET_START_ADDRESS + 5 * fontNo)
  }

  /** With the font in place, pointing I at digit `d` makes the five cells at I glyph `d`. */
  lemma FontGlyphAtIndex(m: Memory, d: Nibble)
    requires FontIntact(m)
    ensures var r := SetIndexRegisterToFontNo(m, d);
      r.indexRegister + 5 <= MEMORY_SIZE &&
      Slice(r, r.indexRegister, r.indexRegister + 5) == Glyph(d)
  {
    var r := SetIndexRegisterToFontNo(m, d);
    var i := r.indexRegister;
    forall k | 0 <= k < 5
      ensures r.buf[i + k] == Glyph(d)[k]
    {
      assert r.buf[i + k] == m.buf[FONTSET_START_ADDRESS .. FONTSET_END][5 * d + k];
    }
  }

  /** `store_bcd_repr`: the hundreds, tens and ones digits of `n` at I, I+1, I+2. */
  function StoreBcdRepr(m: Memory, n: Byte): (r: Memory)
    requires m.indexRegister + 2 < MEMORY_SIZE
    ensures var i := m.indexRegister;
      r.buf[i] < 10 && r.buf[i + 1] < 10 && r.buf[i + 2] < 10 &&
      100 * (r.buf[i] as int) + 10 * (r.buf[i + 1] as int) + r.buf[i + 2] == n
    ensures forall j :: 0 <= j < MEMORY_SIZE && !(m.indexRegister <= j < m.indexRegister + 3) ==>
      r.buf[j] == m.buf[j]
    ensures r.pc == m.pc && r.indexRegister == m.indexRegister
  {
    var i := m.indexRegister;
    var ones := m.buf[i + 2 := n % 10];
    var n1 := n / 10;
    var tens := ones[i + 1 := n1 % 10];
    var n2 := n1 / 10;
    m.(buf := tens[i := n2 % 10])
  }

  /** The two worked examples of the decimal store: 123 and 5. */
  lemma StoreBcdExamples(m: Memory)
    requires m.indexRegister + 2 < MEMORY_SIZE
    ensures Slice(StoreBcdRepr(m, 123), m.indexRegister, m.indexRegister + 3) == [1, 2, 3]
    ensures Slice(StoreBcdRepr(m, 5), m.indexRegister, m.indexRegister + 3) == [0, 0, 5]
  {
  }

  /** `copy_from`: `src` written to the cells starting at I. */
  function CopyFrom(m: Memory, src: seq<Byte>): (r: Memory)
    requires m.indexRegister + |src| <= MEMORY_SIZE
    ensures forall k :: 0 <= k < |src| ==> r.buf[m.indexRegister + k] == src[k]
    ensures forall j :: 0 <= j < MEMORY_SIZE && !(m.indexRegister <= j < m.indexRegister + |src|) ==>
      r.buf[j] == m.buf[j]
    ensures r.pc == m.pc && r.indexRegister == m.indexRegister
  {
    var i := m.indexRegister;
    m.(buf := m.buf[..i] + src + m.buf[i + |src|..])
  }

  /** Reading back the range just written by `copy_from` yields what was written. */
  lemma CopyFromThenSlice(m: Memory, src: seq<Byte>)
    requires m.indexRegister + |src| <= MEMORY_SIZE
    ensures Slice(CopyFrom(m, src), m.indexRegister, m.indexRegister + |src|) == src
  {
  }
}

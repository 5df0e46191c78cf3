// 32-bit words and a byte-addressed memory.  The kernel heap, its intrusive
// list and the process stacks all live in such a memory, because the kernel
// places headers and stack words at addresses that need not be aligned.

module Words {
  const WORD_SIZE := 0x1_0000_0000

  type u8 = x: int | 0 <= x < 0x100
  type u32 = x: int | 0 <= x < 0x1_0000_0000

  // A machine addition drops the carry out of bit 31.
  function Add32(a: u32, b: u32): u32 {
    (a + b) % WORD_SIZE
  }
}

module Options {
  datatype Option<+T> = None | Some(value: T)
}

// The bitwise or of C on unsigned numbers.
module Bits {
  function BitOr(a: nat, b: nat): (r: nat)
    ensures r >= a && r >= b
    decreases a + b
  {
    if a == 0 then b else if b == 0 then a
    else 2 * BitOr(a / 2, b / 2) + if a % 2 == 1 || b % 2 == 1 then 1 else 0
  }

  // Or-ing the three flag bits, one after the other, into an aligned number.
  lemma OrFlags(a: nat, eighth: nat)
    requires a == 8 * eighth
    ensures BitOr(a, 1) == a + 1 && BitOr(a + 1, 2) == a + 3 && BitOr(a + 3, 4) == a + 7
  {
    assert (a + 1) / 2 == a / 2 && (a + 3) / 2 == a / 2 + 1 && (a / 2 + 1) / 2 == a / 4;
    assert BitOr(a / 2, 0) == a / 2 && BitOr(a / 4, 0) == a / 4;
    assert BitOr(a / 2, 1) == a / 2 + 1 && BitOr(a / 4, 1) == a / 4 + 1;
    assert BitOr(a / 2 + 1, 2) == a / 2 + 3;
  }

  // No number loses its last bit to an or with 1.
  lemma OrOneNonzero(a: nat)
    ensures BitOr(a, 1) != 0
  {
  }
}

module Memory {
  import opened Words

  // The whole 4 GB linear address space.
  type Bytes = m: seq<u8> | |m| == 0x1_0000_0000 witness seq(0x1_0000_0000, i => 0)

  // The number written in the bytes [lo, hi), least significant byte first.
  function LittleEndian(m: Bytes, lo: int, hi: int): nat
    requires 0 <= lo <= hi <= WORD_SIZE
    decreases hi - lo
  {
    if lo == hi then 0 else m[lo] + 0x100 * LittleEndian(m, lo + 1, hi)
  }

  function FromBytes(b0: int, b1: int, b2: int, b3: int): int {
    b0 + 0x100 * b1 + 0x1_0000 * b2 + 0x100_0000 * b3
  }

  lemma FourBytes(m: Bytes, a: int)
    requires 0 <= a <= WORD_SIZE - 4
    ensures LittleEndian(m, a, a + 4) == FromBytes(m[a], m[a + 1], m[a + 2], m[a + 3])
  {
    var e := a + 4;
    assert LittleEndian(m, a + 3, e) == m[a + 3] + 0x100 * LittleEndian(m, e, e);
    assert LittleEndian(m, a + 2, e) == m[a + 2] + 0x100 * LittleEndian(m, a + 3, e);
    assert LittleEndian(m, a + 1, e) == m[a + 1] + 0x100 * LittleEndian(m, a + 2, e);
  }

  function Load32(m: Bytes, a: int): u32
    requires 0 <= a <= WORD_SIZE - 4
  {
    FourBytes(m, a);
    LittleEndian(m, a, a + 4)
  }

  lemma BytesOfWord(w: u32)
    ensures FromBytes(w % 0x100, w / 0x100 % 0x100, w / 0x1_0000 % 0x100, w / 0x100_0000) == w
  {
    var q1: int := w / 0x100;
    var q2 := q1 / 0x100;
    assert w / 0x1_0000 == q2;
    assert w / 0x100_0000 == q2 / 0x100;
  }

  // Little-endian store: what is read back is what was written, and no byte
  // outside the four addressed ones changes.
  function Put32(m: Bytes, a: int, w: u32): (r: Bytes)
    requires 0 <= a <= WORD_SIZE - 4
    ensures Load32(r, a) == w
    ensures forall i | 0 <= i < WORD_SIZE && !(a <= i < a + 4) :: r[i] == m[i]
  {
    var r := m[a := w % 0x100][a + 1 := w / 0x100 % 0x100][a + 2 := w / 0x1_0000 % 0x100][a + 3 := w / 0x100_0000];
    BytesOfWord(w);
    FourBytes(r, a);
    r
  }

  // Memory is unchanged on [lo, hi).
  ghost predicate Same(m: Bytes, n: Bytes, lo: int, hi: int) {
    forall i | 0 <= i < WORD_SIZE && lo <= i < hi :: n[i] == m[i]
  }

  lemma LoadFrame(m: Bytes, n: Bytes, a: int)
    requires 0 <= a <= WORD_SIZE - 4 && Same(m, n, a, a + 4)
    ensures Load32(m, a) == Load32(n, a)
  {
    FourBytes(m, a);
    FourBytes(n, a);
  }

  // Storing one word leaves every word that does not overlap it.
  lemma PutSpares(m: Bytes, a: int, w: u32, b: int)
    requires 0 <= a <= WORD_SIZE - 4 && 0 <= b <= WORD_SIZE - 4
    requires a + 4 <= b || b + 4 <= a
    ensures Load32(Put32(m, a, w), b) == Load32(m, b)
  {
    LoadFrame(m, Put32(m, a, w), b);
  }

  method Store32(mem: array<u8>, a: u32, w: u32)
    requires mem.Length == WORD_SIZE && a <= WORD_SIZE - 4
    modifies mem
    ensures mem[..] == Put32(old(mem[..]), a, w)
  {
    mem[a] := w % 0x100;
    mem[a + 1] := w / 0x100 % 0x100;
    mem[a + 2] := w / 0x1_0000 % 0x100;
    mem[a + 3] := w / 0x100_0000;
  }

  method Store8(mem: array<u8>, a: u32, b: u8)
    requires mem.Length == WORD_SIZE
    modifies mem
    ensures mem[..] == old(mem[..])[a := b]
  {
    mem[a] := b;
  }

  method Read32(mem: array<u8>, a: u32) returns (w: u32)
    requires mem.Length == WORD_SIZE && a <= WORD_SIZE - 4
    ensures w == Load32(mem[..], a)
  {
    FourBytes(mem[..], a);
    w := FromBytes(mem[a], mem[a + 1], mem[a + 2], mem[a + 3]);
  }
}

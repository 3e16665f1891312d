/** How the rebuilt bytes relate to counter-mode encryption of the file as the console reads it back. */
module NczCipher {
  import opened Bytes
  import opened Ncz
  import opened NczDecode

  /** The keystream byte a reader that may start anywhere uses: the counter of the byte's own block, its place in the block. */
  function ReaderByte(aes: BlockCipher, s: Section, offset: u64): byte {
    aes(s.key, Counter(s, offset), offset % 16)
  }

  /** Starting the cipher again at a later block gives the rest of the keystream that was already running. */
  lemma RestartContinues(aes: BlockCipher, s: Section, start: u64, k: nat, n: nat)
    requires |s.nonce| == NONCE_SIZE && start + 16 * k + n < U64_LIMIT
    ensures KeyStream(aes, s.key, Counter(s, start + 16 * k), n) == KeyStream(aes, s.key, Counter(s, start), 16 * k + n)
  {
    hide Counter, CounterPlus;
    var j := n / 16;
    assert (16 * k + n) / 16 == k + j && (16 * k + n) % 16 == n % 16;
    CounterSteps(s, start + 16 * k, j);
    CounterSteps(s, start, k + j);
    assert start + 16 * k + 16 * j == start + 16 * (k + j);
  }

  /** In a section that starts on a block boundary the decoder's keystream is the reader's. */
  lemma AlignedIsReaders(aes: BlockCipher, s: Section, offset: u64)
    requires |s.nonce| == NONCE_SIZE && s.offset % 16 == 0 && s.offset <= offset
    ensures KeyByte(aes, s, offset) == ReaderByte(aes, s, offset)
  {
    hide BigEndian, CounterPlus;
    var k := (offset - s.offset) / 16;
    CounterSteps(s, s.offset, k);
    assert (s.offset + 16 * k) / 16 == offset / 16;
  }

  /** In any other section the very first byte is encrypted with another byte of the keystream. */
  lemma UnalignedIsNot(s: Section)
    requires |s.nonce| == NONCE_SIZE && s.offset % 16 != 0
    ensures exists aes: BlockCipher :: KeyByte(aes, s, s.offset) != ReaderByte(aes, s, s.offset)
  {
    var aes: BlockCipher := (key: bytes, counter: bytes, i: nat) => i % 256;
    assert KeyByte(aes, s, s.offset) == 0;
    assert ReaderByte(aes, s, s.offset) == s.offset % 16;
    assert KeyByte(aes, s, s.offset) != ReaderByte(aes, s, s.offset);
  }

  /** The rebuilt section is what the console's cipher expects exactly when the section starts on a block boundary. */
  lemma ReadableIffAligned(s: Section)
    requires |s.nonce| == NONCE_SIZE && 0 < s.size && s.offset + s.size < U64_LIMIT
    ensures (forall aes: BlockCipher, offset: u64 {:trigger KeyByte(aes, s, offset)} ::
               s.offset <= offset < s.offset + s.size ==> KeyByte(aes, s, offset) == ReaderByte(aes, s, offset))
            <==> s.offset % 16 == 0
  {
    if s.offset % 16 == 0 {
      forall aes: BlockCipher, offset: u64 | s.offset <= offset < s.offset + s.size
        ensures KeyByte(aes, s, offset) == ReaderByte(aes, s, offset)
      {
        AlignedIsReaders(aes, s, offset);
      }
    } else {
      UnalignedIsNot(s);
    }
  }

  lemma {:induction false} XorBitsTwice(a: nat, k: nat, n: nat)
    requires a < Pow2(n)
    ensures XorBits(XorBits(a, k, n), k, n) == a
    decreases n
  {
    if n > 0 {
      XorBitsTwice(a / 2, k / 2, n - 1);
      XorBit(a, k, XorBits(a / 2, k / 2, n - 1));
    }
  }

  /** The lowest bit, and what is above it. */
  lemma XorBit(a: nat, k: nat, above: nat)
    ensures var x := (a % 2 + k % 2) % 2 + 2 * above; x / 2 == above && (x % 2 + k % 2) % 2 == a % 2
  {
  }

  lemma XorTwice(a: byte, k: byte)
    ensures Xor(Xor(a, k), k) == a
  {
    assert Pow2(8) == 2 * Pow2(7) == 4 * Pow2(6) == 8 * Pow2(5) == 16 * Pow2(4) == 32 * Pow2(3) == 64 * Pow2(2);
    XorBitsTwice(a, k, 8);
  }

  /** Encrypting the rebuilt bytes again restores what was decompressed: nothing is lost in any section. */
  lemma RebuildingIsReversible(aes: BlockCipher, table: Table, offset: nat, plain: bytes)
    ensures Rebuilt(aes, table, offset, Rebuilt(aes, table, offset, plain)) == plain
  {
    hide Xor, KeyByte, SectionAt, IsEncrypted;
    var once := Rebuilt(aes, table, offset, plain);
    var twice := Rebuilt(aes, table, offset, once);
    forall i | 0 <= i < |plain|
      ensures twice[i] == plain[i]
    {
      var s := SectionAt(table.sections, offset + i);
      if s.Some? {
        XorTwice(plain[i], KeyByte(aes, s.value, offset + i));
      }
    }
  }
}

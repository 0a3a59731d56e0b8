/** A 4096-byte block of srfs, read and written as bytes and as little-endian 64-bit words. */
module SrfsBlock {
  import opened Bytes

  type Block = s: seq<Byte> | |s| == 4096 witness seq(4096, _ => 0)

  const ZERO: Block := seq(4096, _ => 0)

  /** The first data byte of a metadata block: EntryMetadata takes the 128 bytes before it. */
  const META_BYTES := 128
  /** MAX_BYTES_IN_META_BLOCK. */
  const MAX_IN_META := 3968

  /** Word `w`: bytes 8w to 8w + 7. */
  function Word(b: Block, w: nat): nat
    requires w < 512
  {
    U64At(b, 8 * w)
  }

  function SetWord(b: Block, w: nat, v: nat): Block
    requires w < 512
  {
    b[..8 * w] + U64(v) + b[8 * w + 8..]
  }

  /** copy_nonoverlapping of `s` to byte `off` of the block. */
  function Paste(b: Block, off: nat, s: seq<Byte>): Block
    requires off + |s| <= 4096
  {
    b[..off] + s + b[off + |s|..]
  }

  lemma PasteAt(b: Block, off: nat, s: seq<Byte>, i: nat)
    requires off + |s| <= 4096 && i < 4096
    ensures Paste(b, off, s)[i] == if off <= i < off + |s| then s[i - off] else b[i]
  {
  }

  lemma PasteOutside(b: Block, off: nat, s: seq<Byte>, x: nat, y: nat)
    requires off + |s| <= 4096 && x <= y <= 4096 && (y <= off || off + |s| <= x)
    ensures Paste(b, off, s)[x..y] == b[x..y]
  {
  }

  lemma WordOfSet(b: Block, w: nat, v: nat, x: nat)
    requires w < 512 && x < 512 && v < U64_LIMIT
    ensures Word(SetWord(b, w, v), x) == if x == w then v else Word(b, x)
  {
    hide DecodeLE;
    hide U64;
    var c := SetWord(b, w, v);
    if x == w {
      assert c[8 * w..8 * w + 8] == U64(v);
      U64RoundTrip(v);
    } else {
      assert 8 * x + 8 <= 8 * w || 8 * w + 8 <= 8 * x;
      assert c[8 * x..8 * x + 8] == b[8 * x..8 * x + 8];
    }
  }

  lemma WordOfPaste(b: Block, off: nat, s: seq<Byte>, x: nat)
    requires off + |s| <= 4096 && x < 512 && (8 * x + 8 <= off || off + |s| <= 8 * x)
    ensures Word(Paste(b, off, s), x) == Word(b, x)
  {
    var c := Paste(b, off, s);
    assert c[8 * x..8 * x + 8] == b[8 * x..8 * x + 8];
  }

  /** The data area of a metadata block copied to the start of another block: its 496 links. */
  lemma WordOfLinks(b: Block, meta: Block, k: nat)
    requires k < 496
    ensures Word(Paste(b, 0, meta[META_BYTES..]), k) == Word(meta, 16 + k)
  {
    var c := Paste(b, 0, meta[META_BYTES..]);
    SliceSlice(meta, META_BYTES, 4096, 8 * k, 8 * k + 8);
    assert c[8 * k..8 * k + 8] == meta[META_BYTES..4096][8 * k..8 * k + 8];
    assert c[8 * k..8 * k + 8] == meta[8 * (16 + k)..8 * (16 + k) + 8];
  }

  lemma WordBound(b: Block, w: nat)
    requires w < 512
    ensures Word(b, w) < U64_LIMIT
  {
    DecodeBound(b[8 * w..8 * w + 8]);
    Pow256Of8();
  }
}

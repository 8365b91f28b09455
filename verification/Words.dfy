/** Fixed-width unsigned integers of the machine, and their little-endian bytes. */
module Words {
  const TWO_32 := 0x1_0000_0000
  const TWO_64 := 0x1_0000_0000_0000_0000

  type Byte = x: int | 0 <= x < 256
  type Word = x: int | 0 <= x < TWO_32

  /** Conversion to `uint32_t`: the value modulo 2^32. */
  function Wrap32(x: int): Word {
    x % TWO_32
  }

  /** The little-endian number held by four bytes. */
  function Join(b0: Byte, b1: Byte, b2: Byte, b3: Byte): Word {
    b0 + 0x100 * b1 + 0x1_0000 * b2 + 0x100_0000 * b3
  }

  /** Byte `k` of `w`, least significant first. */
  function ByteOf(w: Word, k: nat): Byte
    requires k < 4
  {
    match k
    case 0 => w % 0x100
    case 1 => w / 0x100 % 0x100
    case 2 => w / 0x1_0000 % 0x100
    case 3 => w / 0x100_0000
  }

  function Bytes(w: Word): (b: seq<Byte>)
    ensures |b| == 4
  {
    [ByteOf(w, 0), ByteOf(w, 1), ByteOf(w, 2), ByteOf(w, 3)]
  }

  lemma JoinOfBytes(w: Word)
    ensures Join(ByteOf(w, 0), ByteOf(w, 1), ByteOf(w, 2), ByteOf(w, 3)) == w
    ensures ByteOf(w, 0) == w % 256 && ByteOf(w, 1) == w / 256 % 256
    ensures ByteOf(w, 2) == w / 0x1_0000 % 256 && ByteOf(w, 3) == w / 0x100_0000
  {
    var h := w / 0x100;
    var hh := h / 0x100;
    assert w / 0x1_0000 == hh;
    assert w / 0x100_0000 == hh / 0x100;
    assert w == w % 0x100 + 0x100 * h;
    assert h == h % 0x100 + 0x100 * hh;
    assert hh == hh % 0x100 + 0x100 * (hh / 0x100);
  }

  lemma BytesOfJoin(b0: Byte, b1: Byte, b2: Byte, b3: Byte)
    ensures Bytes(Join(b0, b1, b2, b3)) == [b0, b1, b2, b3]
    ensures Join(b0, b1, b2, b3) % 256 == b0 && Join(b0, b1, b2, b3) / 0x100_0000 == b3
    ensures Join(b0, b1, b2, b3) / 256 % 256 == b1 && Join(b0, b1, b2, b3) / 0x1_0000 % 256 == b2
  {
    var w := Join(b0, b1, b2, b3);
    assert w / 0x100 == b1 + 0x100 * b2 + 0x1_0000 * b3;
    assert w / 0x1_0000 == b2 + 0x100 * b3;
    assert w / 0x100_0000 == b3;
  }
}

/** Machine words and blocks of bytes as they are stored in memory. */
module Words {
  newtype Byte = x: int | 0 <= x < 256

  const WORD_LIMIT: nat := 0x1_0000_0000

  function Min(a: nat, b: nat): nat {
    if a < b then a else b
  }

  /** A file, or a page, once `data` has been written at `p` */
  function Written(file: seq<Byte>, p: nat, data: seq<Byte>): (r: seq<Byte>)
    requires p + |data| <= |file|
    ensures |r| == |file|
  {
    file[..p] + data + file[p + |data|..]
  }

  /** The four bytes of a word, lowest first */
  function WordBytes(w: nat): (b: seq<Byte>)
    ensures |b| == 4
  {
    [(w % 256) as Byte, (w / 256 % 256) as Byte, (w / 65536 % 256) as Byte, (w / 16777216 % 256) as Byte]
  }

  function BytesWord(b: seq<Byte>): (w: nat)
    requires |b| >= 4
    ensures w < WORD_LIMIT
  {
    b[0] as int + 256 * b[1] as int + 65536 * b[2] as int + 16777216 * b[3] as int
  }

  /** A word read back is the word stored. */
  lemma {:induction false} WordRoundTrip(w: nat, rest: seq<Byte>)
    requires w < WORD_LIMIT
    ensures BytesWord(WordBytes(w) + rest) == w
  {
    var q1, q2, q3 := w / 256, w / 65536, w / 16777216;
    assert w == 256 * q1 + w % 256;
    assert q1 == 256 * (q1 / 256) + q1 % 256 && q1 / 256 == q2;
    assert q2 == 256 * (q2 / 256) + q2 % 256 && q2 / 256 == q3;
    assert q3 < 256;
  }

  /** A block of memory whose first word has been overwritten */
  function Stamped(block: seq<Byte>, w: nat): (b: seq<Byte>)
    requires |block| >= 4
    ensures |b| == |block|
  {
    WordBytes(w) + block[4..]
  }
}

/** Bytes, 512-byte blocks and the big-endian words the MIPS kernel keeps in them. */
module Bytes {
  type Byte = x: int | 0 <= x < 256
  const BLOCKSIZE := 512
  type Block = b: seq<Byte> | |b| == 512 witness seq(512, _ => 0)

  function Zeros(n: nat): (z: seq<Byte>)
    ensures |z| == n && forall k :: 0 <= k < n ==> z[k] == 0
  {
    seq(n, _ => 0)
  }

  function ZeroBlock(): (z: Block)
    ensures forall k :: 0 <= k < 512 ==> z[k] == 0
  {
    Zeros(512)
  }

  predicate IsU32(x: int) {
    0 <= x < 0x1_0000_0000
  }

  predicate AllU32(ws: seq<int>) {
    forall j :: 0 <= j < |ws| ==> IsU32(ws[j])
  }

  // ---- one word ----

  function Word(x: int): (b: seq<Byte>)
    requires IsU32(x)
    ensures |b| == 4
  {
    [x / 256 / 256 / 256, x / 256 / 256 % 256, x / 256 % 256, x % 256]
  }

  function WordOf(b0: int, b1: int, b2: int, b3: int): int {
    ((b0 * 256 + b1) * 256 + b2) * 256 + b3
  }

  function WordAt(b: seq<Byte>, off: nat): (x: int)
    requires off + 4 <= |b|
    ensures IsU32(x)
  {
    WordOf(b[off], b[off + 1], b[off + 2], b[off + 3])
  }

  /** A word is stored with its most significant byte first, and read back. */
  lemma WordRoundTrip(x: int)
    requires IsU32(x)
    ensures WordAt(Word(x), 0) == x
    ensures var b0: int, b1: int, b2: int, b3: int := Word(x)[0], Word(x)[1], Word(x)[2], Word(x)[3];
            b0 * 0x100_0000 + b1 * 0x1_0000 + b2 * 0x100 + b3 == x
  {
  }

  // ---- sequences of words ----

  function EncodeWords(ws: seq<int>): (b: seq<Byte>)
    requires AllU32(ws)
    ensures |b| == 4 * |ws|
  {
    seq(4 * |ws|, k requires 0 <= k < 4 * |ws| => Word(ws[k / 4])[k % 4])
  }

  function DecodeWords(b: seq<Byte>, n: nat): (ws: seq<int>)
    requires |b| >= 4 * n
    ensures |ws| == n && AllU32(ws)
  {
    seq(n, j requires 0 <= j < n => WordAt(b, 4 * j))
  }

  lemma EncodedWord(ws: seq<int>, j: nat)
    requires AllU32(ws) && j < |ws|
    ensures WordAt(EncodeWords(ws), 4 * j) == WordAt(Word(ws[j]), 0)
  {
    assert (4 * j) / 4 == j && (4 * j) % 4 == 0;
    assert (4 * j + 1) / 4 == j && (4 * j + 1) % 4 == 1;
    assert (4 * j + 2) / 4 == j && (4 * j + 2) % 4 == 2;
    assert (4 * j + 3) / 4 == j && (4 * j + 3) % 4 == 3;
  }

  /** Words written out as bytes read back as the same words. */
  lemma WordsRoundTrip(ws: seq<int>)
    requires AllU32(ws)
    ensures DecodeWords(EncodeWords(ws), |ws|) == ws
  {
    var b := EncodeWords(ws);
    forall j | 0 <= j < |ws|
      ensures WordAt(b, 4 * j) == ws[j]
    {
      EncodedWord(ws, j);
      WordRoundTrip(ws[j]);
    }
  }

  /** A cleared block holds only zero words, whatever it is later used for. */
  lemma ZeroWords(z: Block, n: nat)
    requires n <= 128
    requires forall k :: 0 <= k < 512 ==> z[k] == 0
    ensures forall j :: 0 <= j < n ==> DecodeWords(z, n)[j] == 0
  {
  }
}

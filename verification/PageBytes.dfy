/** The bytes of a page: its words, least significant byte first. */
module PageBytes {
  import opened PageEntry

  type byte = b: nat | b < 256

  const PAGE: nat := 4096

  /** Byte k of a word. */
  function WordByte(w: nat, k: nat): byte {
    if k == 0 then w % 256 else WordByte(w / 256, k - 1)
  }

  /** The word with these bytes. */
  function WordOf(b: seq<byte>): nat {
    if b == [] then 0 else b[0] + 256 * WordOf(b[1..])
  }

  function Bound(n: nat): (w: nat)
    ensures w > 0
  {
    if n == 0 then 1 else 256 * Bound(n - 1)
  }

  lemma EightBytes()
    ensures Bound(8) == 0x1_0000_0000_0000_0000
  {
    assert Bound(4) == 0x1_0000_0000 by {
      assert Bound(2) == 0x1_0000;
    }
    assert Bound(6) == 0x1_0000_0000_0000;
  }

  lemma {:induction false} WordOfBelow(b: seq<byte>)
    ensures WordOf(b) < Bound(|b|)
  {
    if b != [] {
      WordOfBelow(b[1..]);
    }
  }

  lemma {:induction false} ByteOfWord(b: seq<byte>, k: nat)
    requires k < |b|
    ensures WordByte(WordOf(b), k) == b[k]
  {
    LowByte(b[0], WordOf(b[1..]));
    if k > 0 {
      ByteOfWord(b[1..], k - 1);
    }
  }

  lemma LowByte(b: byte, rest: nat)
    ensures (b + 256 * rest) % 256 == b && (b + 256 * rest) / 256 == rest
  {
  }

  /** The bytes decide the word. */
  lemma {:induction false} SameWord(v: nat, w: nat, n: nat)
    requires v < Bound(n) && w < Bound(n) && forall k :: 0 <= k < n ==> WordByte(v, k) == WordByte(w, k)
    ensures v == w
  {
    if n > 0 {
      assert WordByte(v, 0) == WordByte(w, 0);
      forall k | 0 <= k < n - 1
        ensures WordByte(v / 256, k) == WordByte(w / 256, k)
      {
        assert WordByte(v, k + 1) == WordByte(w, k + 1);
      }
      SameWord(v / 256, w / 256, n - 1);
    }
  }

  function Byte(t: Table, i: nat): byte
    requires i < PAGE
  {
    WordByte(Data(t[i / 8]), i % 8)
  }

  function FromBytes(b: seq<byte>): Table
    requires |b| == PAGE
  {
    seq(512, n requires 0 <= n < 512 => WordAt(b, n))
  }

  function WordAt(b: seq<byte>, n: nat): Entry
    requires |b| == PAGE && n < 512
  {
    WordOfBelow(b[8 * n..8 * n + 8]);
    EightBytes();
    FromData(WordOf(b[8 * n..8 * n + 8]))
  }

  lemma ByteOfBytes(b: seq<byte>, i: nat)
    requires |b| == PAGE && i < PAGE
    ensures Byte(FromBytes(b), i) == b[i]
  {
    hide Data, FromData, WordOf, WordByte, Bound;
    var n := i / 8;
    var word := b[8 * n..8 * n + 8];
    WordOfBelow(word);
    EightBytes();
    DataOfEntry(WordOf(word));
    assert FromBytes(b)[n] == WordAt(b, n);
    ByteOfWord(word, i % 8);
    assert word[i % 8] == b[i];
  }

  /** The bytes decide the page. */
  lemma SamePage(t: Table, u: Table)
    requires forall i :: 0 <= i < PAGE ==> Byte(t, i) == Byte(u, i)
    ensures t == u
  {
    EightBytes();
    forall n | 0 <= n < 512
      ensures t[n] == u[n]
    {
      forall k | 0 <= k < 8
        ensures WordByte(Data(t[n]), k) == WordByte(Data(u[n]), k)
      {
        SameByte(t, u, n, k);
      }
      SameWord(Data(t[n]), Data(u[n]), 8);
      EntryOfData(t[n]);
      EntryOfData(u[n]);
    }
  }

  lemma SameByte(t: Table, u: Table, n: nat, k: nat)
    requires forall i :: 0 <= i < PAGE ==> Byte(t, i) == Byte(u, i)
    requires n < 512 && k < 8
    ensures WordByte(Data(t[n]), k) == WordByte(Data(u[n]), k)
  {
    hide WordByte, Data;
    var i := 8 * n + k;
    assert i / 8 == n && i % 8 == k;
    assert Byte(t, i) == Byte(u, i);
  }

  /** A page that begins at byte pos, after data were laid over the bytes from start on. */
  function LaidOn(t: Table, pos: nat, start: nat, data: seq<byte>): Table {
    FromBytes(seq(PAGE, j requires 0 <= j < PAGE => LaidByteAt(t, pos, start, data, j)))
  }

  function LaidByteAt(t: Table, pos: nat, start: nat, data: seq<byte>, j: nat): byte
    requires j < PAGE
  {
    if start <= pos + j < start + |data| then data[pos + j - start] else Byte(t, j)
  }

  lemma LaidByte(t: Table, pos: nat, start: nat, data: seq<byte>, j: nat)
    requires j < PAGE
    ensures Byte(LaidOn(t, pos, start, data), j) == LaidByteAt(t, pos, start, data, j)
  {
    hide Byte, FromBytes, LaidByteAt;
    var b := seq(PAGE, j requires 0 <= j < PAGE => LaidByteAt(t, pos, start, data, j));
    ByteOfBytes(b, j);
  }

  /** Data that do not touch the page change nothing. */
  lemma LaidElsewhere(t: Table, pos: nat, start: nat, data: seq<byte>)
    requires data == [] || start + |data| <= pos || pos + PAGE <= start
    ensures LaidOn(t, pos, start, data) == t
  {
    hide Byte, LaidOn;
    forall j | 0 <= j < PAGE
      ensures Byte(LaidOn(t, pos, start, data), j) == Byte(t, j)
    {
      LaidByte(t, pos, start, data, j);
    }
    SamePage(LaidOn(t, pos, start, data), t);
  }

  /** Two pieces one after the other are one. */
  lemma LaidTwice(t: Table, pos: nat, start: nat, a: seq<byte>, b: seq<byte>)
    ensures LaidOn(LaidOn(t, pos, start, a), pos, start + |a|, b) == LaidOn(t, pos, start, a + b)
  {
    hide Byte, LaidOn;
    var u := LaidOn(t, pos, start, a);
    forall j | 0 <= j < PAGE
      ensures Byte(LaidOn(u, pos, start + |a|, b), j) == Byte(LaidOn(t, pos, start, a + b), j)
    {
      LaidByte(u, pos, start + |a|, b, j);
      LaidByte(t, pos, start, a, j);
      LaidByte(t, pos, start, a + b, j);
    }
    SamePage(LaidOn(u, pos, start + |a|, b), LaidOn(t, pos, start, a + b));
  }
}

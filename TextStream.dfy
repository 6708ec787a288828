/**
 * A sequential byte reader over an in-memory document
 * (de.sebthom.eclipse.commons.text.DocumentInputStream).
 *
 * The document is a sequence of UTF-16 code units. Each code unit yields
 * exactly one byte: its low 8 bits. There is no character-set encoding.
 */
module TextStream {
  import opened Common

  /** A Java `char`: one UTF-16 code unit, surrogates included. */
  newtype CodeUnit = x: int | 0 <= x < 0x1_0000

  /** A Java `byte`: signed, two's complement. */
  newtype Byte = x: int | -128 <= x < 128

  /** `c & 0xFF`: the low 8 bits of a code unit, as an unsigned value. */
  function LowByte(c: CodeUnit): (b: int)
    ensures 0 <= b < 256
    ensures (c as int - b) % 256 == 0
    ensures c < 256 ==> b == c as int
  {
    c as int % 256
  }

  /** `b & 0xFF`: a signed byte read back as an unsigned value. */
  function Unsigned(b: Byte): (u: int)
    ensures 0 <= u < 256
    ensures (u - b as int) % 256 == 0
  {
    if b < 0 then b as int + 256 else b as int
  }

  /** The narrowing cast `(byte) c`: the low 8 bits, read as two's complement. */
  function ToByte(c: CodeUnit): (b: Byte)
    ensures (c as int - b as int) % 256 == 0
    ensures Unsigned(b) == LowByte(c)
  {
    var v := LowByte(c);
    if v < 128 then v as Byte else (v - 256) as Byte
  }

  /** The bytes `read(byte[], int, int)` stores for a run of code units. */
  function Truncated(s: seq<CodeUnit>): (r: seq<Byte>)
    ensures |r| == |s|
    ensures forall i :: 0 <= i < |s| ==> r[i] == ToByte(s[i])
  {
    if s == [] then [] else [ToByte(s[0])] + Truncated(s[1..])
  }

  /** The values `read()` returns for a run of code units. */
  function LowBytes(s: seq<CodeUnit>): (r: seq<int>)
    ensures |r| == |s|
    ensures forall i :: 0 <= i < |s| ==> r[i] == LowByte(s[i])
  {
    if s == [] then [] else [LowByte(s[0])] + LowBytes(s[1..])
  }

  /** What `Objects.checkFromIndexSize(off, len, length)` accepts. */
  predicate InBounds(off: int, len: int, length: nat)
  {
    0 <= off && 0 <= len && off + len <= length
  }

  /**
   * The value `read(buff, off, len)` returns once the bounds are valid:
   * 0 for an empty request, -1 at the end of the document, otherwise the
   * number of code units copied.
   */
  function ReadCount(docLen: nat, pos: nat, len: nat): (n: int)
    ensures len == 0 ==> n == 0
    ensures len > 0 && pos >= docLen ==> n == -1
    ensures len > 0 && pos < docLen ==> 1 <= n <= len && pos + n <= docLen
    ensures len > 0 && pos < docLen ==> n == len || pos + n == docLen
  {
    if len == 0 then 0 else if pos >= docLen then -1 else Min(len, docLen - pos)
  }

  /** The state change of one `read()`: the value returned and the new position. */
  function ReadStep(doc: seq<CodeUnit>, pos: nat): (nat, int)
  {
    if pos < |doc| then (pos + 1, LowByte(doc[pos])) else (pos, -1)
  }

  /** The state change of one valid `read(buff, off, len)`: the new position. */
  function ChunkStep(doc: seq<CodeUnit>, pos: nat, len: nat): nat
  {
    var n := ReadCount(|doc|, pos, len);
    if n > 0 then pos + n else pos
  }

  /** Everything a caller collects by calling `read()` until it returns -1. */
  function ReadAll(doc: seq<CodeUnit>, pos: nat): seq<int>
    requires pos <= |doc|
    decreases |doc| - pos
  {
    var (next, b) := ReadStep(doc, pos);
    if b == -1 then [] else [b] + ReadAll(doc, next)
  }

  /**
   * Everything a caller collects by calling `read(buff, 0, len)` with a
   * buffer of `len > 0` bytes until it returns -1.
   */
  function ReadAllChunks(doc: seq<CodeUnit>, pos: nat, len: nat): seq<Byte>
    requires pos <= |doc| && len > 0
    decreases |doc| - pos
  {
    var n := ReadCount(|doc|, pos, len);
    if n == -1 then [] else Truncated(doc[pos..pos + n]) + ReadAllChunks(doc, ChunkStep(doc, pos, len), len)
  }

  /** Once exhausted, `read()` returns -1 again and again without moving. */
  lemma {:induction false} ExhaustedReadIsStable(doc: seq<CodeUnit>, pos: nat, k: nat)
    requires pos >= |doc|
    ensures Iterate(doc, pos, k) == pos
    ensures ReadStep(doc, Iterate(doc, pos, k)) == (pos, -1)
  {
    if k > 0 {
      ExhaustedReadIsStable(doc, pos, k - 1);
    }
  }

  /** The position after `k` calls of `read()`. */
  function Iterate(doc: seq<CodeUnit>, pos: nat, k: nat): nat
    decreases k
  {
    if k == 0 then pos else Iterate(doc, ReadStep(doc, pos).0, k - 1)
  }

  /**
   * Reading with `read()` to exhaustion yields exactly one value per
   * remaining code unit: its low 8 bits.
   */
  lemma {:induction false} ReadAllYieldsLowBytes(doc: seq<CodeUnit>, pos: nat)
    requires pos <= |doc|
    ensures ReadAll(doc, pos) == LowBytes(doc[pos..])
    ensures |ReadAll(doc, pos)| == |doc| - pos
    decreases |doc| - pos
  {
    if pos < |doc| {
      ReadAllYieldsLowBytes(doc, pos + 1);
      assert doc[pos..] == [doc[pos]] + doc[pos + 1..];
    }
  }

  /**
   * Reading with `read(buff, 0, len)` to exhaustion yields exactly one byte
   * per remaining code unit, whatever the buffer size.
   */
  lemma {:induction false} ReadAllChunksYieldsTruncated(doc: seq<CodeUnit>, pos: nat, len: nat)
    requires pos <= |doc| && len > 0
    ensures ReadAllChunks(doc, pos, len) == Truncated(doc[pos..])
    ensures |ReadAllChunks(doc, pos, len)| == |doc| - pos
    decreases |doc| - pos
  {
    if pos < |doc| {
      var next := ChunkStep(doc, pos, len);
      ReadAllChunksStep(doc, pos, len);
      ReadAllChunksYieldsTruncated(doc, next, len);
      TruncatedAppend(doc[pos..next], doc[next..]);
      assert doc[pos..next] + doc[next..] == doc[pos..];
    }
  }

  /** One chunk read: its bytes, followed by everything read after it. */
  lemma ReadAllChunksStep(doc: seq<CodeUnit>, pos: nat, len: nat)
    requires pos < |doc| && len > 0
    ensures pos < ChunkStep(doc, pos, len) <= |doc|
    ensures ReadAllChunks(doc, pos, len) ==
      Truncated(doc[pos..ChunkStep(doc, pos, len)]) + ReadAllChunks(doc, ChunkStep(doc, pos, len), len)
  {
  }

  lemma TruncatedAppend(s: seq<CodeUnit>, t: seq<CodeUnit>)
    ensures Truncated(s + t) == Truncated(s) + Truncated(t)
  {
    var l, r := Truncated(s + t), Truncated(s) + Truncated(t);
    assert |l| == |r|;
    forall i | 0 <= i < |l| ensures l[i] == r[i] {
      if i < |s| { assert (s + t)[i] == s[i]; } else { assert (s + t)[i] == t[i - |s|]; }
    }
  }

  /**
   * Both read operations agree: the bytes stored by `read(buff, off, len)`,
   * read back unsigned, are the values `read()` returns.
   */
  lemma BufferedAndSingleReadsAgree(s: seq<CodeUnit>)
    ensures |Truncated(s)| == |LowBytes(s)|
    ensures forall i :: 0 <= i < |s| ==> Unsigned(Truncated(s)[i]) == LowBytes(s)[i]
  {
  }

  /**
   * For a document of code units below 256, `read()` returns the document
   * itself: no transcoding takes place.
   */
  lemma {:induction false} Latin1ReadsVerbatim(doc: seq<CodeUnit>)
    requires forall i :: 0 <= i < |doc| ==> doc[i] < 256
    ensures ReadAll(doc, 0) == seq(|doc|, i requires 0 <= i < |doc| => doc[i] as int)
  {
    ReadAllYieldsLowBytes(doc, 0);
    assert doc[0..] == doc;
  }

  /** A reader of a document: the document plus one mutable cursor. */
  class DocumentInputStream {
    const doc: seq<CodeUnit>
    var pos: nat

    ghost predicate Valid()
      reads this
    {
      pos <= |doc|
    }

    constructor (document: seq<CodeUnit>)
      ensures Valid()
      ensures doc == document && pos == 0
    {
      doc := document;
      pos := 0;
    }

    method GetDocument() returns (d: seq<CodeUnit>)
      ensures d == doc
    {
      d := doc;
    }

    /**
     * `read(buff, buffOffset, len)`: bounds are checked before anything
     * changes; then up to `len` code units are narrowed into
     * `buff[buffOffset..]` and the cursor moves past them.
     */
    method ReadInto(buff: array<Byte>, buffOffset: int, len: int) returns (r: Result<int>)
      requires Valid()
      modifies this, buff
      ensures Valid()
      ensures !InBounds(buffOffset, len, buff.Length) ==>
        r == Throws(IndexOutOfBounds) && pos == old(pos) && buff[..] == old(buff[..])
      ensures InBounds(buffOffset, len, buff.Length) ==>
        r == Ok(ReadCount(|doc|, old(pos), len)) && pos == ChunkStep(doc, old(pos), len)
      ensures forall i :: 0 <= i < buff.Length ==>
        buff[i] == if buffOffset <= i && buffOffset + (pos - old(pos)) > i
                   then ToByte(doc[old(pos) + i - buffOffset]) else old(buff[i])
    {
      if !InBounds(buffOffset, len, buff.Length) {
        return Throws(IndexOutOfBounds);
      }
      if len == 0 {
        return Ok(0);
      }
      var docLen := |doc|;
      if pos >= docLen {
        return Ok(-1);
      }
      buff[buffOffset] := ToByte(doc[pos]);
      pos := pos + 1;
      var bytesRead := 1;
      while bytesRead < len
        invariant 1 <= bytesRead <= len
        invariant pos == old(pos) + bytesRead <= docLen
        invariant forall i :: 0 <= i < buff.Length ==>
          buff[i] == if buffOffset <= i < buffOffset + bytesRead
                     then ToByte(doc[old(pos) + i - buffOffset]) else old(buff[i])
      {
        if pos >= docLen {
          break;
        }
        buff[buffOffset + bytesRead] := ToByte(doc[pos]);
        pos := pos + 1;
        bytesRead := bytesRead + 1;
      }
      r := Ok(bytesRead);
    }

    /** `read()`: the low 8 bits of the next code unit, or -1 at the end. */
    method Read() returns (r: int)
      requires Valid()
      modifies this
      ensures Valid()
      ensures (pos, r) == ReadStep(doc, old(pos))
      ensures old(pos) < |doc| ==> r == LowByte(doc[old(pos)]) && pos == old(pos) + 1
      ensures old(pos) >= |doc| ==> r == -1 && pos == old(pos)
    {
      if pos < |doc| {
        r := LowByte(doc[pos]);
        pos := pos + 1;
        return;
      }
      r := -1;
    }
  }
}

/** The record format of a chunk: a 48-byte header, the payload (plain or
    compressed) and a pad to 16 bytes; and the chunk objects that write it. */
module Chunks {
  import opened Bytes
  import opened Oids
  import opened Spelling

  type Kind = s: seq<byte> | |s| == 4 witness [98, 108, 111, 98]

  /** A chunk in the form in which it is stored: `original` is the size before
      compression, or None when the payload is the data itself. */
  datatype Stored = Stored(kind: Kind, oid: Oid, payload: seq<byte>, original: Option<nat>)

  datatype HeaderInfo = HeaderInfo(kind: Kind, oid: Oid, size: nat, storedSize: nat)

  /** What an OID names. */
  datatype Content = Content(kind: Kind, data: seq<byte>)

  // "adump-pool-v1.1\n"
  const MAGIC: seq<byte> := [97, 100, 117, 109, 112, 45, 112, 111, 111, 108, 45, 118, 49, 46, 49, 10]
  const HEADER_SIZE: nat := 48
  const NOT_COMPRESSED: u32 := 0xFFFF_FFFF
  const SIZE_LIMIT: nat := 0x8000_0000

  ghost predicate Storable(s: Stored) {
    |s.payload| < SIZE_LIMIT - 64 && (s.original.Some? ==> s.original.value < SIZE_LIMIT)
  }

  function Header(s: Stored): (h: seq<byte>)
    requires Storable(s)
    ensures |h| == HEADER_SIZE
  {
    MAGIC
    + Le32(|s.payload|)
    + Le32(if s.original.Some? then s.original.value else NOT_COMPRESSED)
    + s.kind + s.oid
  }

  /** The bytes `write` emits; `pad` is whatever lies behind the source's
      one-byte padding array. */
  function Encode(s: Stored, pad: seq<byte>): seq<byte>
    requires Storable(s)
    requires |pad| == PadLength(|s.payload|)
  {
    Header(s) + s.payload + pad
  }

  function StoredSize(s: Stored): (n: nat)
    requires Storable(s)
    ensures HEADER_SIZE <= n < SIZE_LIMIT
  {
    Padded(HEADER_SIZE + |s.payload|)
  }

  function ReadHeader(file: seq<byte>, pos: nat): Option<HeaderInfo> {
    if pos + HEADER_SIZE > |file| then None
    else
      var h := file[pos..pos + HEADER_SIZE];
      if h[..16] != MAGIC then None
      else
        var clen := FromLe32(h[16..20]);
        var uclen := FromLe32(h[20..24]);
        Some(HeaderInfo(h[24..28], h[28..48], if uclen == NOT_COMPRESSED then clen else uclen,
                        Padded((HEADER_SIZE + clen) % 0x1_0000_0000)))
  }

  function Read(file: seq<byte>, pos: nat): Option<Stored> {
    if pos + HEADER_SIZE > |file| then None
    else
      var h := file[pos..pos + HEADER_SIZE];
      var body := file[pos + HEADER_SIZE..];
      if h[..16] != MAGIC then None
      else
        var clen := FromLe32(h[16..20]);
        var uclen := FromLe32(h[20..24]);
        if clen > |body| then None
        else Some(Stored(h[24..28], h[28..48], body[..clen],
                         if uclen == NOT_COMPRESSED then None else Some(uclen)))
  }

  lemma HeaderFields(s: Stored)
    requires Storable(s)
    ensures var h := Header(s);
            h[..16] == MAGIC && FromLe32(h[16..20]) == |s.payload|
            && FromLe32(h[20..24]) == (if s.original.Some? then s.original.value else NOT_COMPRESSED)
            && h[24..28] == s.kind && h[28..48] == s.oid
  {
    var h := Header(s);
    var uclen := if s.original.Some? then s.original.value else NOT_COMPRESSED;
    assert h[16..20] == Le32(|s.payload|);
    assert h[20..24] == Le32(uclen);
    Le32RoundTrip(|s.payload|);
    Le32RoundTrip(uclen);
    hide Le32, FromLe32;
    var front := MAGIC + Le32(|s.payload|) + Le32(uclen) + s.kind;
    assert h == front + s.oid && |front| == 28;
    assert h[28..48] == s.oid;
  }

  /** Wherever a written record lies in a file, `read` gives it back whole. */
  lemma RecordReadsBack(before: seq<byte>, s: Stored, pad: seq<byte>, after: seq<byte>)
    requires Storable(s) && |pad| == PadLength(|s.payload|)
    ensures Read(before + Encode(s, pad) + after, |before|) == Some(s)
  {
    var file := before + Encode(s, pad) + after;
    var pos := |before|;
    HeaderFields(s);
    assert file[pos..pos + HEADER_SIZE] == Header(s);
    assert file[pos + HEADER_SIZE..][..|s.payload|] == s.payload;
  }

  lemma RecordHeaderReadsBack(before: seq<byte>, s: Stored, pad: seq<byte>, after: seq<byte>)
    requires Storable(s) && |pad| == PadLength(|s.payload|)
    ensures ReadHeader(before + Encode(s, pad) + after, |before|)
            == Some(HeaderInfo(s.kind, s.oid, if s.original.Some? then s.original.value else |s.payload|, StoredSize(s)))
  {
    hide Le32, FromLe32, Padded, PadLength;
    var file := before + Encode(s, pad) + after;
    var pos := |before|;
    HeaderFields(s);
    assert file[pos..pos + HEADER_SIZE] == Header(s);
  }

  lemma EncodedSize(s: Stored, pad: seq<byte>)
    requires Storable(s) && |pad| == PadLength(|s.payload|)
    ensures |Encode(s, pad)| == StoredSize(s)
    ensures StoredSize(s) % 16 == 0
  {
    hide Padded, PadLength;
    PaddedIsHeaderPayloadPad(|s.payload|);
  }

  /** Wherever a written record lies in a file, both readers get back what was
      written, and all three ways of sizing it agree. */
  lemma RecordRoundTrip(before: seq<byte>, s: Stored, pad: seq<byte>, after: seq<byte>)
    requires Storable(s) && |pad| == PadLength(|s.payload|)
    ensures var file := before + Encode(s, pad) + after;
            && Read(file, |before|) == Some(s)
            && ReadHeader(file, |before|)
               == Some(HeaderInfo(s.kind, s.oid, if s.original.Some? then s.original.value else |s.payload|, StoredSize(s)))
    ensures |Encode(s, pad)| == StoredSize(s)
    ensures StoredSize(s) % 16 == 0
  {
    hide Read, ReadHeader, Encode, StoredSize;
    RecordReadsBack(before, s, pad, after);
    RecordHeaderReadsBack(before, s, pad, after);
    EncodedSize(s, pad);
  }

  /** The word at byte 20: the size before compression, or all ones. */
  ghost predicate OriginalIs(original: Option<nat>, word: nat) {
    if original.None? then word == 0xFFFF_FFFF else word == original.value != 0xFFFF_FFFF
  }

  /** The bytes of a record, one by one: magic, two little-endian words, kind,
      OID, payload, and fewer than 16 bytes up to the next multiple of 16. */
  lemma RecordLayout(s: Stored, pad: seq<byte>)
    requires Storable(s) && |pad| == PadLength(|s.payload|)
    ensures var e := Encode(s, pad);
            && 48 + |s.payload| <= |e| < 48 + |s.payload| + 16 && |e| % 16 == 0
            && e[..16] == Ascii("adump-pool-v1.1\n")
            && Word(e, 16) == |s.payload| && OriginalIs(s.original, Word(e, 20))
            && e[24..28] == s.kind && e[28..48] == s.oid
            && e[48..48 + |s.payload|] == s.payload
  {
    hide Padded, PadLength, Word, FromLe32, Le32;
    HeaderFields(s);
    EncodedSize(s, pad);
    var h, e := Header(s), Encode(s, pad);
    assert e[..48] == h;
    WordWithin(e, 16);
    WordWithin(e, 20);
    assert e[16..20] == h[16..20] && e[20..24] == h[20..24] && e[24..28] == h[24..28] && e[28..48] == h[28..48];
    assert e[..16] == h[..16];
  }

  /** The fields of a header are where the layout has them. */
  lemma HeaderSlices(file: seq<byte>, pos: nat)
    requires pos + 48 <= |file|
    ensures var h := file[pos..pos + 48];
            && h[..16] == file[pos..pos + 16]
            && FromLe32(h[16..20]) == Word(file, pos + 16) && FromLe32(h[20..24]) == Word(file, pos + 20)
            && h[24..28] == file[pos + 24..pos + 28] && h[28..48] == file[pos + 28..pos + 48]
  {
    hide Word, FromLe32;
    var h := file[pos..pos + 48];
    SliceOf(file, pos, 48, 0, 16);
    SliceOf(file, pos, 48, 16, 20);
    SliceOf(file, pos, 48, 20, 24);
    SliceOf(file, pos, 48, 24, 28);
    SliceOf(file, pos, 48, 28, 48);
    WordWithin(file, pos + 16);
    WordWithin(file, pos + 20);
  }

  lemma SliceOf(file: seq<byte>, pos: nat, len: nat, i: nat, j: nat)
    requires pos + len <= |file| && i <= j <= len
    ensures file[pos..pos + len][i..j] == file[pos + i..pos + j]
  {
    var a, b := file[pos..pos + len][i..j], file[pos + i..pos + j];
    assert |a| == |b| && forall k | 0 <= k < |a| :: a[k] == b[k];
  }

  /** The reader of records accepts exactly the bytes with the magic and the
      payload behind it, and reads the fields where the layout has them. */
  lemma ReadsExactly(file: seq<byte>, pos: nat, s: Stored)
    ensures Read(file, pos) == Some(s) <==>
              && pos + 48 + |s.payload| <= |file| && file[pos..pos + 16] == Ascii("adump-pool-v1.1\n")
              && Word(file, pos + 16) == |s.payload| && OriginalIs(s.original, Word(file, pos + 20))
              && file[pos + 24..pos + 28] == s.kind && file[pos + 28..pos + 48] == s.oid
              && file[pos + 48..pos + 48 + |s.payload|] == s.payload
  {
    if pos + 48 <= |file| {
      hide Word, FromLe32;
      HeaderSlices(file, pos);
      var body := file[pos + 48..];
      assert |s.payload| <= |body| ==> body[..|s.payload|] == file[pos + 48..pos + 48 + |s.payload|];
    }
  }

  /** The reader of headers accepts exactly the bytes with the magic. */
  lemma HeaderReadsExactly(file: seq<byte>, pos: nat)
    ensures ReadHeader(file, pos).Some?
            <==> pos + 48 <= |file| && file[pos..pos + 16] == Ascii("adump-pool-v1.1\n")
    ensures ReadHeader(file, pos).Some? ==>
              var h := ReadHeader(file, pos).value;
              var clen := Word(file, pos + 16);
              && h.kind == file[pos + 24..pos + 28] && h.oid == file[pos + 28..pos + 48]
              && h.size == (if Word(file, pos + 20) == 0xFFFF_FFFF then clen else Word(file, pos + 20))
              && (clen < SIZE_LIMIT ==> h.storedSize % 16 == 0 && 48 + clen <= h.storedSize < 48 + clen + 16)
  {
    assert MAGIC == Ascii("adump-pool-v1.1\n");
    hide Word, FromLe32, Padded, Ascii;
    if pos + 48 <= |file| {
      HeaderSlices(file, pos);
      PaddedAbove(Word(file, pos + 16));
    }
  }

  lemma PaddedAbove(clen: nat)
    requires clen < 0x1_0000_0000
    ensures clen < SIZE_LIMIT ==>
              var padded := Padded((HEADER_SIZE + clen) % 0x1_0000_0000);
              padded % 16 == 0 && 48 + clen <= padded < 48 + clen + 16
  {
    hide Padded;
  }

  // ---------------------------------------------------------------------
  // Compression

  type Inflate = (seq<byte>, nat) -> Option<seq<byte>>

  function PlainData(s: Stored, inflate: Inflate): Option<seq<byte>> {
    if s.original.None? then Some(s.payload) else inflate(s.payload, s.original.value)
  }

  ghost predicate Deflates(inflate: Inflate, src: seq<byte>, z: seq<byte>) {
    |z| <= |src| && inflate(z, |src|) == Some(src)
  }

  /** The compressor. Call number n may answer anything that inflates back
      and is no longer than the source, or fail; two calls on the same source
      need not agree. */
  class Zlib {
    const inflate: Inflate
    const outcome: (nat, seq<byte>) -> Option<seq<byte>>
    var calls: nat

    ghost predicate Valid() {
      forall n: nat, src: seq<byte> ::
        outcome(n, src).Some? ==> Deflates(inflate, src, outcome(n, src).value)
    }

    constructor (inflate: Inflate, outcome: (nat, seq<byte>) -> Option<seq<byte>>)
      ensures this.inflate == inflate && this.outcome == outcome
    {
      this.inflate, this.outcome, this.calls := inflate, outcome, 0;
    }

    method TryCompress(src: seq<byte>) returns (z: Option<seq<byte>>)
      requires Valid()
      modifies this
      ensures z == if |src| < 16 then None else outcome(old(calls), src)
      ensures z.Some? ==> Deflates(inflate, src, z.value)
      ensures calls == if |src| < 16 then old(calls) else old(calls) + 1
    {
      if |src| < 16 {
        return None;
      }
      z := outcome(calls, src);
      calls := calls + 1;
    }
  }

  // ---------------------------------------------------------------------
  // Chunk objects

  class OutStream {
    var bytes: seq<byte>

    constructor ()
      ensures bytes == []
    {
      bytes := [];
    }

    method Write(b: seq<byte>)
      modifies this
      ensures bytes == old(bytes) + b
    {
      bytes := bytes + b;
    }
  }

  /** Unset is the source's field before anything was assigned to it. */
  datatype ZDataInfo = Unset | Untried | NoZ | HasZ

  class PlainChunk {
    const kind: Kind
    const oid: Oid
    const plainData: seq<byte>
    const zlib: Zlib
    var compressedData: seq<byte>
    var zdataInfo: ZDataInfo

    ghost predicate Valid()
      reads this
    {
      && zlib.Valid()
      && |plainData| < SIZE_LIMIT - 64
      && (zdataInfo.HasZ? ==> Deflates(zlib.inflate, plainData, compressedData))
    }

    constructor (kind: Kind, oid: Oid, data: seq<byte>, zlib: Zlib)
      requires zlib.Valid() && |data| < SIZE_LIMIT - 64
      ensures Valid() && zdataInfo == Untried
      ensures this.kind == kind && this.oid == oid && this.plainData == data && this.zlib == zlib
    {
      this.kind, this.oid, this.plainData, this.zlib := kind, oid, data, zlib;
      compressedData, zdataInfo := [], Untried;
    }

    /** The constructor that reads from a stream leaves the compression state
        unset. */
    constructor FromStream(kind: Kind, oid: Oid, data: seq<byte>, zlib: Zlib)
      requires zlib.Valid() && |data| < SIZE_LIMIT - 64
      ensures Valid() && zdataInfo == Unset
      ensures this.kind == kind && this.oid == oid && this.plainData == data && this.zlib == zlib
    {
      this.kind, this.oid, this.plainData, this.zlib := kind, oid, data, zlib;
      compressedData, zdataInfo := [], Unset;
    }

    ghost predicate Decided()
      reads this
    {
      zdataInfo.NoZ? || zdataInfo.HasZ?
    }

    /** The form in which the chunk is stored once `HasZData` has decided. */
    ghost function Image(): (s: Stored)
      requires Valid() && Decided()
      reads this
      ensures Storable(s) && PlainData(s, zlib.inflate) == Some(plainData)
      ensures s.original == if zdataInfo.HasZ? then Some(|plainData|) else None
      ensures zdataInfo.HasZ? ==> s.payload == compressedData
    {
      if zdataInfo.HasZ? then Stored(kind, oid, compressedData, Some(|plainData|))
      else Stored(kind, oid, plainData, None)
    }

    /** What the compressor makes of the data when it is asked next: nothing of
        less than 16 bytes. */
    ghost function NextOutcome(): Option<seq<byte>>
      reads zlib
    {
      if |plainData| < 16 then None else zlib.outcome(zlib.calls, plainData)
    }

    /** Decides once, by asking the compressor: a decision already made is never
        revisited. */
    method HasZData() returns (has: bool)
      requires Valid() && zdataInfo != Unset
      modifies this, zlib
      ensures Valid() && Decided()
      ensures has == zdataInfo.HasZ?
      ensures old(Decided()) ==>
                zdataInfo == old(zdataInfo) && compressedData == old(compressedData) && zlib.calls == old(zlib.calls)
      ensures old(zdataInfo) == Untried ==>
                && (has <==> |plainData| >= 16 && zlib.outcome(old(zlib.calls), plainData).Some?)
                && (has ==> zlib.outcome(old(zlib.calls), plainData) == Some(compressedData))
                && zlib.calls == old(zlib.calls) + if |plainData| >= 16 then 1 else 0
    {
      match zdataInfo
      case NoZ => has := false;
      case HasZ => has := true;
      case Untried =>
        var res := zlib.TryCompress(plainData);
        match res {
          case None => zdataInfo, compressedData, has := NoZ, [], false;
          case Some(z) => zdataInfo, compressedData, has := HasZ, z, true;
        }
    }
  }

  class CompressedChunk {
    const kind: Kind
    const oid: Oid
    const dataLen: nat
    const compressedData: seq<byte>
    const zlib: Zlib
    var plainData: seq<byte>
    var isDecompressed: bool

    ghost predicate Valid()
      reads this
    {
      && zlib.Valid()
      && Storable(Image())
      && (isDecompressed ==> PlainData(Image(), zlib.inflate) == Some(plainData))
    }

    constructor (kind: Kind, oid: Oid, dataLen: nat, zdata: seq<byte>, zlib: Zlib)
      requires zlib.Valid() && Storable(Stored(kind, oid, zdata, Some(dataLen)))
      ensures Valid() && !isDecompressed
      ensures this.zlib == zlib && Image() == Stored(kind, oid, zdata, Some(dataLen))
    {
      this.kind, this.oid, this.dataLen, this.compressedData, this.zlib := kind, oid, dataLen, zdata, zlib;
      plainData, isDecompressed := [], false;
    }

    ghost function Image(): Stored {
      Stored(kind, oid, compressedData, Some(dataLen))
    }

    /** None is the source's exception for data that does not inflate. */
    method Data() returns (data: Option<seq<byte>>)
      requires Valid()
      modifies this
      ensures Valid()
      ensures data == PlainData(Image(), zlib.inflate)
      ensures data.Some? ==> isDecompressed && plainData == data.value
    {
      if !isDecompressed {
        var res := zlib.inflate(compressedData, dataLen);
        if res.None? {
          return None;
        }
        plainData, isDecompressed := res.value, true;
      }
      data := Some(plainData);
    }
  }

  /** The two subclasses of the source's abstract Chunk, with its virtual calls. */
  datatype Chunk = Plain(plain: PlainChunk) | Compressed(compressed: CompressedChunk) {

    function Kind(): Kind {
      if Plain? then plain.kind else compressed.kind
    }

    function Oid(): Oid {
      if Plain? then plain.oid else compressed.oid
    }

    function Obj(): object {
      if Plain? then plain else compressed
    }

    function Lib(): Zlib {
      if Plain? then plain.zlib else compressed.zlib
    }

    ghost predicate Valid()
      reads Obj()
    {
      if Plain? then plain.Valid() else compressed.Valid()
    }

    /** Its compression state was assigned: it may be written. */
    ghost predicate Determined()
      reads Obj()
    {
      Plain? ==> plain.zdataInfo != Unset
    }

    ghost predicate Decided()
      reads Obj()
    {
      Plain? ==> plain.Decided()
    }

    ghost function Image(): (s: Stored)
      requires Valid() && Decided()
      reads Obj()
      ensures Storable(s) && s.kind == Kind() && s.oid == Oid()
    {
      if Plain? then plain.Image() else compressed.Image()
    }

    /** The data the chunk stands for, whatever form it is stored in. */
    ghost function DataOf(): (d: Option<seq<byte>>)
      requires Valid()
      reads Obj()
      ensures Decided() ==> d == PlainData(Image(), Lib().inflate)
    {
      if Plain? then Some(plain.plainData) else PlainData(compressed.Image(), compressed.zlib.inflate)
    }

    /** The form in which the chunk will be stored: compressed if it was read
        or settled so, or if it is untried and the compressor succeeds. */
    ghost function WillStore(): (s: Stored)
      requires Valid() && Determined()
      reads Obj(), Lib()
      ensures Decided() ==> s == Image()
      ensures Plain? && plain.zdataInfo == Untried ==>
                (s.original.Some? <==> |plain.plainData| >= 16 && Lib().outcome(Lib().calls, plain.plainData).Some?)
      ensures Storable(s) && s.kind == Kind() && s.oid == Oid() && DataOf() == PlainData(s, Lib().inflate)
    {
      if Decided() then Image()
      else
        var z := plain.NextOutcome();
        if z.Some? then Stored(Kind(), Oid(), z.value, Some(|plain.plainData|))
        else Stored(Kind(), Oid(), plain.plainData, None)
    }

    method StoredForm() returns (payload: seq<byte>, uclen: u32)
      requires Valid() && Determined()
      modifies Obj(), Lib()
      ensures Valid() && Decided()
      ensures Image() == old(WillStore())
      ensures payload == Image().payload
      ensures uclen == if Image().original.Some? then Image().original.value else NOT_COMPRESSED
    {
      match this
      case Plain(p) =>
        var has := p.HasZData();
        if has {
          payload, uclen := p.compressedData, |p.plainData|;
        } else {
          payload, uclen := p.plainData, NOT_COMPRESSED;
        }
      case Compressed(c) =>
        payload, uclen := c.compressedData, c.dataLen;
    }

    /** The announced size is the size of the record `Write` will emit. */
    method WriteSize() returns (size: nat)
      requires Valid() && Determined()
      modifies Obj(), Lib()
      ensures Valid() && Decided()
      ensures Image() == old(WillStore())
      ensures size == StoredSize(Image())
    {
      hide Padded;
      var payload, _ := StoredForm();
      size := Padded(HEADER_SIZE + |payload|);
    }

    method Write(out: OutStream, padding: seq<byte>)
      requires Valid() && Determined() && |padding| == 15
      requires out as object != Obj() && out as object != Lib()
      modifies Obj(), Lib(), out
      ensures Valid() && Decided()
      ensures Image() == old(WillStore())
      ensures out.bytes == old(out.bytes) + Encode(Image(), padding[..PadLength(|Image().payload|)])
    {
      hide Le32, FromLe32, Padded, PadLength, PlainData;
      var payload, uclen := StoredForm();
      out.Write(MAGIC + Le32(|payload|) + Le32(uclen) + Kind() + Oid());
      out.Write(payload);
      var padLen := PadLength(|payload|);
      if padLen > 0 {
        out.Write(padding[..padLen]);
      }
      assert out.bytes == old(out.bytes) + (Header(Image()) + payload + padding[..padLen]);
    }
  }

  /** `Chunk::read`: the object built stands for the record at `pos`. A plain
      chunk read this way must not be written again. */
  method ReadChunk(file: seq<byte>, pos: nat, zlib: Zlib) returns (c: Option<Chunk>)
    requires zlib.Valid()
    requires Read(file, pos).Some? ==> Storable(Read(file, pos).value)
    ensures c.Some? <==> Read(file, pos).Some?
    ensures c.Some? ==> fresh(c.value.Obj()) && c.value.Valid() && c.value.Lib() == zlib
    ensures c.Some? ==>
              var s := Read(file, pos).value;
              && c.value.Kind() == s.kind && c.value.Oid() == s.oid
              && c.value.DataOf() == PlainData(s, zlib.inflate)
              && (c.value.Determined() <==> s.original.Some?)
              && (s.original.Some? ==> c.value.Decided() && c.value.Image() == s)
  {
    if pos + HEADER_SIZE > |file| || file[pos..pos + 16] != MAGIC {
      assert pos + HEADER_SIZE <= |file| ==> file[pos..pos + HEADER_SIZE][..16] == file[pos..pos + 16];
      return None;
    }
    var h, body := file[pos..pos + HEADER_SIZE], file[pos + HEADER_SIZE..];
    assert h[..16] == file[pos..pos + 16];
    var clen, uclen := FromLe32(h[16..20]), FromLe32(h[20..24]);
    if clen > |body| {
      return None;
    }
    if uclen == NOT_COMPRESSED {
      var p := new PlainChunk.FromStream(h[24..28], h[28..48], body[..clen], zlib);
      c := Some(Plain(p));
    } else {
      var z := new CompressedChunk(h[24..28], h[28..48], uclen, body[..clen], zlib);
      c := Some(Compressed(z));
    }
  }
}

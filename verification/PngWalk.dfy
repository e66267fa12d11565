/** Reading a PNG's header and walking its chunks; RFC 2083, sections 3.2 and 4.1.1. */
module PngWalk {

  newtype byte = x: int | 0 <= x < 256
  type Bytes = seq<byte>

  datatype Result = Info(width: nat, height: nat, colour: byte, hasTrns: bool) | NotPng | Truncated

  const SIGNATURE: Bytes := [0x89, 0x50, 0x4E, 0x47, 0x0D, 0x0A, 0x1A, 0x0A]
  const IHDR: Bytes := [0x49, 0x48, 0x44, 0x52]
  const TRNS: Bytes := [0x74, 0x52, 0x4E, 0x53]
  const IEND: Bytes := [0x49, 0x45, 0x4E, 0x44]

  /** Four bytes as a big-endian number. */
  function Number(b: Bytes): nat
    requires |b| == 4
  {
    (b[0] as int * 0x100_0000) + (b[1] as int * 0x1_0000) + (b[2] as int * 0x100) + b[3] as int
  }

  /** Whether a walk from `pos` meets a tRNS chunk before it ends. */
  function Meets(data: Bytes, pos: nat): bool
    decreases |data| - pos
  {
    if pos + 8 > |data| then false
    else
      var kind := data[pos + 4..pos + 8];
      kind == TRNS || (kind != IEND && Meets(data, pos + 12 + Number(data[pos..pos + 4])))
  }

  /** What `png_info` answers, as a function of the bytes. */
  function Answer(data: Bytes): Result {
    if !(SIGNATURE <= data) then NotPng
    else if |data| < 26 then Truncated
    else Info(Number(data[16..20]), Number(data[20..24]), data[25], Meets(data, 8))
  }

  method PngInfo(data: Bytes) returns (r: Result)
    ensures r == Answer(data)
  {
    if !(SIGNATURE <= data) { return NotPng; }
    if |data| < 24 { return Truncated; }
    var width, height := Number(data[16..20]), Number(data[20..24]);
    if |data| < 26 { return Truncated; }
    var colour := data[25];
    var hasTrns := false;
    var pos := 8;
    while pos + 8 <= |data|
      invariant (hasTrns || Meets(data, pos)) == Meets(data, 8)
      decreases |data| - pos
    {
      var length := Number(data[pos..pos + 4]);
      var kind := data[pos + 4..pos + 8];
      if kind == TRNS { hasTrns := true; }
      if kind == IEND { break; }
      pos := pos + 12 + length;
    }
    r := Info(width, height, colour, hasTrns);
  }

  // ----- what a PNG is -----

  /** A chunk: its type, payload and CRC, whose value nothing here depends on. */
  datatype Chunk = Chunk(kind: Bytes, payload: Bytes, crc: Bytes)

  predicate Formed(c: Chunk) {
    |c.kind| == 4 && |c.crc| == 4 && |c.payload| < 0x1_0000_0000
  }

  function Two(n: nat): (b: Bytes)
    requires n < 0x1_0000
    ensures |b| == 2 && b[0] as int * 0x100 + b[1] as int == n
  {
    [(n / 0x100) as byte, (n % 0x100) as byte]
  }

  /** `struct.pack(">I", n)`. */
  function Four(n: nat): (b: Bytes)
    requires n < 0x1_0000_0000
    ensures |b| == 4 && Number(b) == n
  {
    Two(n / 0x1_0000) + Two(n % 0x1_0000)
  }

  function EncodeChunk(c: Chunk): (b: Bytes)
    requires Formed(c)
    ensures |b| == 12 + |c.payload|
  {
    Four(|c.payload|) + c.kind + c.payload + c.crc
  }

  function Encode(chunks: seq<Chunk>): Bytes
    requires forall c :: c in chunks ==> Formed(c)
  {
    if chunks == [] then [] else EncodeChunk(chunks[0]) + Encode(chunks[1..])
  }

  /** The thirteen bytes of an IHDR payload. */
  datatype Header = Header(width: nat, height: nat, depth: byte, colour: byte, compression: byte, filter: byte,
                           interlace: byte)

  function HeaderPayload(h: Header): (b: Bytes)
    requires h.width < 0x1_0000_0000 && h.height < 0x1_0000_0000
    ensures |b| == 13
  {
    Four(h.width) + Four(h.height) + [h.depth, h.colour, h.compression, h.filter, h.interlace]
  }

  /** A tRNS chunk with no IEND before it. */
  predicate TrnsBeforeEnd(chunks: seq<Chunk>) {
    exists k :: 0 <= k < |chunks| && chunks[k].kind == TRNS && forall j :: 0 <= j < k ==> chunks[j].kind != IEND
  }

  lemma TrnsFirst(chunks: seq<Chunk>)
    requires chunks != []
    ensures TrnsBeforeEnd(chunks) <==>
            chunks[0].kind == TRNS || (chunks[0].kind != IEND && TrnsBeforeEnd(chunks[1..]))
  {
    var rest := chunks[1..];
    if TrnsBeforeEnd(chunks) && chunks[0].kind != TRNS {
      var k :| 0 <= k < |chunks| && chunks[k].kind == TRNS && forall j :: 0 <= j < k ==> chunks[j].kind != IEND;
      assert rest[k - 1] == chunks[k];
      assert forall j :: 0 <= j < k - 1 ==> rest[j] == chunks[j + 1];
    }
    if chunks[0].kind != TRNS && chunks[0].kind != IEND && TrnsBeforeEnd(rest) {
      var k :| 0 <= k < |rest| && rest[k].kind == TRNS && forall j :: 0 <= j < k ==> rest[j].kind != IEND;
      assert chunks[k + 1] == rest[k];
      assert forall j :: 0 < j < k + 1 ==> chunks[j] == rest[j - 1];
    }
  }

  /** Where the parts of the chunk at `|front|` lie. */
  lemma ChunkLies(front: Bytes, c: Chunk, rest: Bytes)
    requires Formed(c)
    ensures var data, p := front + (EncodeChunk(c) + rest), |front|;
            && p + 8 <= |data|
            && Number(data[p..p + 4]) == |c.payload|
            && data[p + 4..p + 8] == c.kind
            && data == (front + EncodeChunk(c)) + rest
            && |front + EncodeChunk(c)| == p + 12 + |c.payload|
  {
    var data, p := front + (EncodeChunk(c) + rest), |front|;
    assert data[p..p + 4] == Four(|c.payload|);
    assert data[p + 4..p + 8] == c.kind;
    assert data == (front + EncodeChunk(c)) + rest;
  }

  lemma MeetsChunk(front: Bytes, c: Chunk, after: Bytes)
    requires Formed(c)
    ensures Meets(front + (EncodeChunk(c) + after), |front|)
            <==> c.kind == TRNS
                 || (c.kind != IEND && Meets((front + EncodeChunk(c)) + after, |front + EncodeChunk(c)|))
  {
    ChunkLies(front, c, after);
    hide EncodeChunk, Number;
    var data := front + (EncodeChunk(c) + after);
    assert Meets(data, |front|) <==>
           c.kind == TRNS || (c.kind != IEND && Meets(data, |front| + 12 + Number(data[|front|..|front| + 4])));
  }

  lemma EncodeCons(chunks: seq<Chunk>, rest: Bytes)
    requires chunks != [] && forall c :: c in chunks ==> Formed(c)
    ensures Encode(chunks) + rest == EncodeChunk(chunks[0]) + (Encode(chunks[1..]) + rest)
  {
    hide EncodeChunk;
    assert forall c :: c in chunks[1..] ==> c in chunks;
  }

  /** Walking encoded chunks looks at their types and at nothing inside them; what follows counts only
      when no chunk ends the image. */
  lemma {:induction false} WalkEncoded(front: Bytes, chunks: seq<Chunk>, rest: Bytes)
    requires forall c :: c in chunks ==> Formed(c)
    requires |rest| < 8 || exists c :: c in chunks && c.kind == IEND
    ensures Meets(front + (Encode(chunks) + rest), |front|) == TrnsBeforeEnd(chunks)
    decreases |chunks|
  {
    if chunks == [] {
      assert Encode(chunks) + rest == rest;
    } else {
      hide Meets, EncodeChunk, Encode, TrnsBeforeEnd, Formed;
      var c, more := chunks[0], chunks[1..];
      assert forall d :: d in chunks <==> d == c || d in more;
      EncodeCons(chunks, rest);
      MeetsChunk(front, c, Encode(more) + rest);
      TrnsFirst(chunks);
      if c.kind != IEND {
        WalkEncoded(front + EncodeChunk(c), more, rest);
      }
    }
  }

  lemma HeaderLies(h: Header, crc: Bytes, rest: Bytes)
    requires h.width < 0x1_0000_0000 && h.height < 0x1_0000_0000 && |crc| == 4
    ensures var data := SIGNATURE + (EncodeChunk(Chunk(IHDR, HeaderPayload(h), crc)) + rest);
            && SIGNATURE <= data && |data| >= 26
            && Number(data[16..20]) == h.width && Number(data[20..24]) == h.height && data[25] == h.colour
  {
    var payload, data := HeaderPayload(h), SIGNATURE + (EncodeChunk(Chunk(IHDR, HeaderPayload(h), crc)) + rest);
    assert payload[..4] == Four(h.width) && payload[4..8] == Four(h.height) && payload[9] == h.colour;
    var front, back := SIGNATURE + Four(13) + IHDR, crc + rest;
    assert EncodeChunk(Chunk(IHDR, payload, crc)) == Four(13) + IHDR + payload + crc;
    hide EncodeChunk, Number, HeaderPayload;
    Grouped(SIGNATURE, Four(13), IHDR, payload, crc, rest);
    assert data == front + payload + back && |front| == 16;
    hide Four;
    Inside(front, payload, back, 0, 4);
    Inside(front, payload, back, 4, 8);
    assert data[25] == payload[9];
  }

  lemma Grouped(a: Bytes, b: Bytes, c: Bytes, d: Bytes, e: Bytes, f: Bytes)
    ensures a + ((b + c + d + e) + f) == (a + b + c) + d + (e + f)
  {
  }

  lemma Inside(front: Bytes, middle: Bytes, back: Bytes, low: nat, high: nat)
    requires low <= high <= |middle|
    ensures (front + middle + back)[|front| + low..|front| + high] == middle[low..high]
  {
  }

  /** For every PNG, whatever its payloads and CRCs hold, the answer is its header's width, height and
      colour type, and whether a tRNS chunk comes before the first IEND. */
  lemma PngAnswered(h: Header, crc: Bytes, chunks: seq<Chunk>, rest: Bytes)
    requires h.width < 0x1_0000_0000 && h.height < 0x1_0000_0000 && |crc| == 4
    requires forall c :: c in chunks ==> Formed(c)
    requires |rest| < 8 || exists c :: c in chunks && c.kind == IEND
    ensures var first := Chunk(IHDR, HeaderPayload(h), crc);
            Answer(SIGNATURE + (Encode([first] + chunks) + rest))
            == Info(h.width, h.height, h.colour, TrnsBeforeEnd(chunks))
  {
    var first := Chunk(IHDR, HeaderPayload(h), crc);
    var all := [first] + chunks;
    assert all[1..] == chunks && all[0] == first;
    assert forall c :: c in chunks ==> c in all;
    WalkEncoded(SIGNATURE, all, rest);
    TrnsFirst(all);
    HeaderLies(h, crc, Encode(chunks) + rest);
    EncodeCons(all, rest);
    hide Meets, Encode, EncodeChunk, TrnsBeforeEnd, HeaderPayload, Number;
  }

  /** A PNG cut short: no PNG without its whole signature, truncated without its first 26 bytes, and answered from
      then on with its header. */
  lemma CutShort(h: Header, crc: Bytes, rest: Bytes, k: nat)
    requires h.width < 0x1_0000_0000 && h.height < 0x1_0000_0000 && |crc| == 4
    requires k <= |SIGNATURE + (EncodeChunk(Chunk(IHDR, HeaderPayload(h), crc)) + rest)|
    ensures var r := Answer((SIGNATURE + (EncodeChunk(Chunk(IHDR, HeaderPayload(h), crc)) + rest))[..k]);
            && (r == NotPng <==> k < 8) && (r == Truncated <==> 8 <= k < 26)
            && (r.Info? ==> r.width == h.width && r.height == h.height && r.colour == h.colour)
  {
    var data := SIGNATURE + (EncodeChunk(Chunk(IHDR, HeaderPayload(h), crc)) + rest);
    HeaderLies(h, crc, rest);
    hide EncodeChunk, HeaderPayload, Meets, Number;
    if k >= 8 { assert data[..k][..8] == SIGNATURE; }
    if k >= 26 { assert data[..k][16..20] == data[16..20] && data[..k][20..24] == data[20..24]; }
  }

  // ----- the bytes themselves -----

  function Ascii(s: string): Bytes
    requires forall i :: 0 <= i < |s| ==> s[i] < 128 as char
  {
    seq(|s|, i requires 0 <= i < |s| => (s[i] as int) as byte)
  }

  /** The chunk types are their four letters, and numbers are written most significant byte first. */
  lemma BytesAreSpelled(a: Bytes, b: Bytes)
    requires |a| == 4 && |b| == 4
    ensures IHDR == Ascii("IHDR") && TRNS == Ascii("tRNS") && IEND == Ascii("IEND")
    ensures SIGNATURE[1..4] == Ascii("PNG")
    ensures a[0] < b[0] ==> Number(a) < Number(b)
    ensures a[0] == b[0] && a[1] < b[1] ==> Number(a) < Number(b)
    ensures a[..2] == b[..2] && a[2] < b[2] ==> Number(a) < Number(b)
    ensures Number([0, 0, 1, 0]) == 256 && Number([0, 0, 0, 255]) == 255
  {
    assert a[..2] == b[..2] ==> a[0] == b[0] && a[1] == b[1] by {
      assert a[..2][0] == a[0] && a[..2][1] == a[1] && b[..2][0] == b[0] && b[..2][1] == b[1];
    }
  }
}

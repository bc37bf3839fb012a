/** The save-state container of the live host (tools/sdl_live_host.c): a header and a
    row of chunks, each an id, a size and that many bytes.  Words are little-endian. */
module SaveState {
  import opened Machine

  const MAGIC := 0x4E47_5356
  const VERSION := 1
  const HEADER_SIZE := 48
  const CHUNK_HEADER_SIZE := 8
  const CHUNK_RUNTIME := 0x5254_4E47
  const CHUNK_AUDIO := 0x4154_4E47
  const CHUNK_SMOKE := 0x5354_4E47
  const CHUNK_HOST := 0x4854_4E47

  type Bytes = seq<u8>

  // ---------------------------------------------------------------- words

  function U32Bytes(v: u32): (r: Bytes)
    ensures |r| == 4
  {
    [v % 0x100] + ([v / 0x100 % 0x100] + ([v / 0x1_0000 % 0x100] + [v / 0x100_0000]))
  }

  function U64Bytes(lo: u32, hi: u32): (r: Bytes)
    ensures |r| == 8
  {
    U32Bytes(lo) + U32Bytes(hi)
  }

  function U32At(data: Bytes, at: nat): u32
    requires at + 4 <= |data|
  {
    var b0: int := data[at];
    var b1: int := data[at + 1];
    var b2: int := data[at + 2];
    var b3: int := data[at + 3];
    b0 + 0x100 * b1 + 0x1_0000 * b2 + 0x100_0000 * b3
  }

  lemma WordReadsBack(pre: Bytes, v: u32, post: Bytes)
    ensures U32At(pre + (U32Bytes(v) + post), |pre|) == v
  {
    var data := pre + (U32Bytes(v) + post);
    var w := U32Bytes(v);
    assert data[|pre|] == w[0] && data[|pre| + 1] == w[1] && data[|pre| + 2] == w[2] && data[|pre| + 3] == w[3];
  }

  // ---------------------------------------------------------------- the file

  datatype Chunk = Chunk(id: u32, data: Bytes)

  /** The fields of NgLiveStateFileHeader that loading does not look at. */
  datatype Progress = Progress(dispatches: (u32, u32), cpuCycles: (u32, u32), frame: u32, scanline: u32, pc: u24)

  function HeaderBytes(p: Progress, count: u32): (r: Bytes)
    ensures |r| == HEADER_SIZE
  {
    U32Bytes(MAGIC) + (U32Bytes(VERSION) + (U32Bytes(HEADER_SIZE) + (U32Bytes(count) + Rest(p))))
  }

  function Rest(p: Progress): (r: Bytes)
    ensures |r| == 32
  {
    U64Bytes(p.dispatches.0, p.dispatches.1)
    + (U64Bytes(p.cpuCycles.0, p.cpuCycles.1)
       + (U32Bytes(p.frame) + (U32Bytes(p.scanline) + (U32Bytes(p.pc) + U32Bytes(0)))))
  }

  predicate Fits(c: Chunk) { |c.data| < 0x1_0000_0000 }

  function ChunkBytes(c: Chunk): (r: Bytes)
    requires Fits(c)
    ensures |r| == CHUNK_HEADER_SIZE + |c.data|
  {
    U32Bytes(c.id) + (U32Bytes(|c.data|) + c.data)
  }

  function ChunksBytes(cs: seq<Chunk>): Bytes
    requires forall i :: 0 <= i < |cs| ==> Fits(cs[i])
  {
    if cs == [] then [] else ChunkBytes(cs[0]) + ChunksBytes(cs[1..])
  }

  function FileBytes(p: Progress, cs: seq<Chunk>): Bytes
    requires |cs| < 0x1_0000_0000 && forall i :: 0 <= i < |cs| ==> Fits(cs[i])
  {
    HeaderBytes(p, |cs|) + ChunksBytes(cs)
  }

  // ---------------------------------------------------------------- looking a chunk up

  /** A stretch of the file. */
  datatype Slice = Slice(at: nat, size: nat)

  /** The walk of live_find_state_chunk over `left` chunks from an offset. */
  function FindFrom(data: Bytes, offset: nat, left: nat, id: u32): (r: Option<Slice>)
    ensures r.Some? ==> offset + CHUNK_HEADER_SIZE <= r.value.at && r.value.at + r.value.size <= |data|
    decreases left
  {
    if left == 0 || offset > |data| || |data| - offset < CHUNK_HEADER_SIZE then None
    else
      var size, start := U32At(data, offset + 4), offset + CHUNK_HEADER_SIZE;
      if size > |data| - start then None
      else if U32At(data, offset) == id then Some(Slice(start, size))
      else FindFrom(data, start + size, left - 1, id)
  }

  predicate GoodHeader(data: Bytes) {
    && |data| >= HEADER_SIZE
    && U32At(data, 0) == MAGIC && U32At(data, 4) == VERSION
    && HEADER_SIZE <= U32At(data, 8) <= |data|
  }

  function Find(data: Bytes, id: u32): Option<Slice> {
    if !GoodHeader(data) then None else FindFrom(data, U32At(data, 8), U32At(data, 12), id)
  }

  /** live_find_state_chunk on any bytes whatever: the offset never leaves 32 bits, no
      read leaves the buffer, and a slice that is found lies inside it. */
  method FindStateChunk(data: Bytes, id: u32) returns (r: Option<Slice>)
    requires |data| < 0x1_0000_0000
    ensures r == Find(data, id)
    ensures r.Some? ==> r.value.at + r.value.size <= |data|
  {
    if |data| < HEADER_SIZE {
      return None;
    }
    var size: u32 := |data|;
    var headerSize, count := U32At(data, 8), U32At(data, 12);
    if U32At(data, 0) != MAGIC || U32At(data, 4) != VERSION || headerSize < HEADER_SIZE || headerSize > size {
      return None;
    }
    var offset: u32 := headerSize;
    for i := 0 to count
      invariant offset <= size
      invariant FindFrom(data, offset, count - i, id) == Find(data, id)
    {
      var room: u32 := size - offset;
      if room < CHUNK_HEADER_SIZE {
        return None;
      }
      var chunkId, chunkSize := U32At(data, offset), U32At(data, offset + 4);
      offset := offset + CHUNK_HEADER_SIZE;
      room := size - offset;
      if chunkSize > room {
        return None;
      }
      if chunkId == id {
        return Some(Slice(offset, chunkSize));
      }
      offset := offset + chunkSize;
    }
    return None;
  }

  // ---------------------------------------------------------------- the round trip

  /** The first chunk with an id. */
  function First(cs: seq<Chunk>, id: u32): (r: Option<Bytes>)
    ensures r.None? <==> forall i :: 0 <= i < |cs| ==> cs[i].id != id
  {
    if cs == [] then None else if cs[0].id == id then Some(cs[0].data) else First(cs[1..], id)
  }

  function Contents(data: Bytes, r: Option<Slice>): Option<Bytes>
    requires r.Some? ==> r.value.at + r.value.size <= |data|
  {
    match r case None => None case Some(s) => Some(data[s.at..s.at + s.size])
  }

  lemma ChunkReadsBack(pre: Bytes, c: Chunk, post: Bytes)
    requires Fits(c)
    ensures var data := pre + (ChunkBytes(c) + post);
            && U32At(data, |pre|) == c.id && U32At(data, |pre| + 4) == |c.data|
            && data[|pre| + 8..|pre| + 8 + |c.data|] == c.data
  {
    hide U32Bytes, U32At;
    var data := pre + (ChunkBytes(c) + post);
    var rest := U32Bytes(|c.data|) + c.data + post;
    assert data == pre + (U32Bytes(c.id) + rest);
    WordReadsBack(pre, c.id, rest);
    assert data == (pre + U32Bytes(c.id)) + (U32Bytes(|c.data|) + (c.data + post));
    WordReadsBack(pre + U32Bytes(c.id), |c.data|, c.data + post);
  }

  lemma {:induction false} WalkFindsFirst(pre: Bytes, cs: seq<Chunk>, id: u32)
    requires forall i :: 0 <= i < |cs| ==> Fits(cs[i])
    ensures var data := pre + ChunksBytes(cs);
            Contents(data, FindFrom(data, |pre|, |cs|, id)) == First(cs, id)
    decreases |cs|
  {
    hide U32At, U32Bytes, ChunkBytes;
    if cs != [] {
      var data, c, rest := pre + ChunksBytes(cs), cs[0], ChunksBytes(cs[1..]);
      ChunkReadsBack(pre, c, rest);
      assert data == pre + (ChunkBytes(c) + rest);
      if c.id != id {
        assert data == (pre + ChunkBytes(c)) + rest;
        WalkFindsFirst(pre + ChunkBytes(c), cs[1..], id);
      }
    }
  }

  lemma HeaderReadsBack(p: Progress, count: u32, rest: Bytes)
    ensures var data := HeaderBytes(p, count) + rest;
            && U32At(data, 0) == MAGIC && U32At(data, 4) == VERSION
            && U32At(data, 8) == HEADER_SIZE && U32At(data, 12) == count
  {
    hide U32At, U32Bytes, Rest;
    var data := HeaderBytes(p, count) + rest;
    var a, b, c, d := U32Bytes(MAGIC), U32Bytes(VERSION), U32Bytes(HEADER_SIZE), U32Bytes(count);
    var tail := Rest(p) + rest;
    assert data == [] + (a + (b + (c + (d + tail))));
    WordReadsBack([], MAGIC, b + (c + (d + tail)));
    assert data == a + (b + (c + (d + tail)));
    WordReadsBack(a, VERSION, c + (d + tail));
    assert data == (a + b) + (c + (d + tail));
    WordReadsBack(a + b, HEADER_SIZE, d + tail);
    assert data == (a + b + c) + (d + tail);
    WordReadsBack(a + b + c, count, tail);
  }

  /** Looking an id up in a saved file gives the bytes of the first chunk with that id,
      and fails exactly when no chunk has it. */
  lemma SavedChunksAreFound(p: Progress, cs: seq<Chunk>, id: u32)
    requires |cs| < 0x1_0000_0000 && forall i :: 0 <= i < |cs| ==> Fits(cs[i])
    ensures Contents(FileBytes(p, cs), Find(FileBytes(p, cs), id)) == First(cs, id)
  {
    hide U32At, HeaderBytes, ChunksBytes;
    HeaderReadsBack(p, |cs|, ChunksBytes(cs));
    WalkFindsFirst(HeaderBytes(p, |cs|), cs, id);
  }

  /** With distinct ids every chunk is found, whole. */
  lemma {:induction false} DistinctIdsAllFound(cs: seq<Chunk>, i: nat)
    requires i < |cs| && forall j, k :: 0 <= j < k < |cs| ==> cs[j].id != cs[k].id
    ensures First(cs, cs[i].id) == Some(cs[i].data)
  {
    if i > 0 {
      DistinctIdsAllFound(cs[1..], i - 1);
    }
  }

  // ---------------------------------------------------------------- saving

  /** The file being written. */
  class StateFile {
    var bytes: Bytes

    constructor ()
      ensures bytes == []
    {
      bytes := [];
    }

    method Write(data: Bytes)
      modifies this
      ensures bytes == old(bytes) + data
    {
      bytes := bytes + data;
    }

    /** live_write_state_chunk */
    method WriteChunk(c: Chunk)
      requires Fits(c)
      modifies this
      ensures bytes == old(bytes) + ChunkBytes(c)
    {
      hide U32Bytes;
      Write(U32Bytes(c.id) + U32Bytes(|c.data|));
      Write(c.data);
    }

    /** live_save_savestate: the runtime, audio and dispatch states that are not empty,
        then the host state, under a header that counts them. */
    method Save(p: Progress, runtime: Bytes, audio: Bytes, smoke: Bytes, host: Bytes) returns (ghost cs: seq<Chunk>)
      requires bytes == []
      requires Fits(Chunk(0, runtime)) && Fits(Chunk(0, audio)) && Fits(Chunk(0, smoke)) && Fits(Chunk(0, host))
      modifies this
      ensures cs == Present(CHUNK_RUNTIME, runtime) + Present(CHUNK_AUDIO, audio) + Present(CHUNK_SMOKE, smoke)
                    + [Chunk(CHUNK_HOST, host)]
      ensures bytes == FileBytes(p, cs)
    {
      hide U32Bytes, HeaderBytes, ChunkBytes, ChunksBytes, Present;
      ghost var r, a, d, h := Present(CHUNK_RUNTIME, runtime), Present(CHUNK_AUDIO, audio), Present(CHUNK_SMOKE, smoke),
                              [Chunk(CHUNK_HOST, host)];
      var count := 1 + (if |runtime| != 0 then 1 else 0) + (if |audio| != 0 then 1 else 0)
                   + (if |smoke| != 0 then 1 else 0);
      cs := r + a + d + h;
      assert count == |cs|;
      Write(HeaderBytes(p, count));
      WriteIfAny(CHUNK_RUNTIME, runtime);
      WriteIfAny(CHUNK_AUDIO, audio);
      WriteIfAny(CHUNK_SMOKE, smoke);
      OneChunk(Chunk(CHUNK_HOST, host));
      WriteChunk(Chunk(CHUNK_HOST, host));
      FourParts(HeaderBytes(p, count), r, a, d, h);
    }

    method WriteIfAny(id: u32, data: Bytes)
      requires Fits(Chunk(id, data))
      modifies this
      ensures bytes == old(bytes) + ChunksBytes(Present(id, data))
    {
      hide ChunkBytes;
      if |data| != 0 {
        WriteChunk(Chunk(id, data));
        OneChunk(Chunk(id, data));
      }
    }
  }

  function Present(id: u32, data: Bytes): (cs: seq<Chunk>)
    ensures |cs| == (if |data| != 0 then 1 else 0) && forall i :: 0 <= i < |cs| ==> cs[i] == Chunk(id, data)
  {
    if |data| != 0 then [Chunk(id, data)] else []
  }

  lemma OneChunk(c: Chunk)
    requires Fits(c)
    ensures ChunksBytes([c]) == ChunkBytes(c)
  {
    hide ChunkBytes;
    assert [c][1..] == [];
  }

  lemma {:induction false} ChunksAppend(cs: seq<Chunk>, ds: seq<Chunk>)
    requires (forall i :: 0 <= i < |cs| ==> Fits(cs[i])) && (forall i :: 0 <= i < |ds| ==> Fits(ds[i]))
    ensures ChunksBytes(cs + ds) == ChunksBytes(cs) + ChunksBytes(ds)
    decreases |cs|
  {
    hide ChunkBytes;
    if cs == [] {
      assert cs + ds == ds;
    } else {
      assert (cs + ds)[1..] == cs[1..] + ds;
      ChunksAppend(cs[1..], ds);
    }
  }

  lemma FourParts(header: Bytes, r: seq<Chunk>, a: seq<Chunk>, d: seq<Chunk>, h: seq<Chunk>)
    requires forall i :: 0 <= i < |r| ==> Fits(r[i])
    requires forall i :: 0 <= i < |a| ==> Fits(a[i])
    requires forall i :: 0 <= i < |d| ==> Fits(d[i])
    requires forall i :: 0 <= i < |h| ==> Fits(h[i])
    ensures header + ChunksBytes(r) + ChunksBytes(a) + ChunksBytes(d) + ChunksBytes(h)
            == header + ChunksBytes(r + a + d + h)
  {
    hide ChunksBytes;
    ChunksAppend(r, a);
    ChunksAppend(r + a, d);
    ChunksAppend(r + a + d, h);
    var w, x, y, z := ChunksBytes(r), ChunksBytes(a), ChunksBytes(d), ChunksBytes(h);
    assert header + w + x + y + z == header + (w + x + y + z);
  }
}

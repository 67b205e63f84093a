/** The framed Snappy stream of snappy_stream.cpp: encoder, incremental decoder, and why they undo each other. */
module SnappyStream {
  import opened Wrappers
  import opened Bytes
  import Crc

  type Chunk = seq<byte>

  const MAX_UNCOMPRESSED_CHUNK: nat := 0x1_0000

  /** Plain bytes that fit one chunk. */
  type Piece = bytes: seq<byte> | |bytes| <= MAX_UNCOMPRESSED_CHUNK
  const U24: nat := 0x100_0000

  /** ff 06 00 00 "sNaPpY" */
  const STREAM_IDENTIFIER: Chunk := [0xff, 0x06, 0x00, 0x00, 0x73, 0x4e, 0x61, 0x50, 0x70, 0x59]

  /** The Snappy block format, which is not part of this model. */
  datatype Library = Library(compress: seq<byte> -> seq<byte>, uncompress: seq<byte> -> Option<seq<byte>>)

  ghost predicate Lawful(lib: Library) {
    forall plain: seq<byte> :: lib.uncompress(lib.compress(plain)) == Some(plain)
  }

  // ----- chunks

  function Rotate(w: Crc.word): Crc.word {
    (w >> 15) | (w << 17)
  }

  function MaskCrc(crc: Crc.word): Crc.word {
    Rotate(crc) + 0xa282_ead8
  }

  /** The masked checksum of the plain bytes, as the four header bytes carry it. */
  function PlainCrc(plain: seq<byte>): u32 {
    Crc.WordAsU32(MaskCrc(Crc.Checksum(Crc.CASTAGNOLI, plain)))
  }

  function Len24(length: nat): (s: seq<byte>)
    requires length < U24
    ensures |s| == 3
  {
    [ByteOf(length % 256), ByteOf(length / 256 % 256), ByteOf(length / 0x1_0000)]
  }

  function FromLen24(s: seq<byte>): nat
    requires |s| >= 3
  {
    NatOf(s[0]) + 256 * NatOf(s[1]) + 0x1_0000 * NatOf(s[2])
  }

  lemma Len24RoundTrip(length: nat, tail: seq<byte>)
    requires length < U24
    ensures FromLen24(Len24(length) + tail) == length
  {
    hide ByteOf, NatOf;
    NatOfByteOf(length % 256);
    NatOfByteOf(length / 256 % 256);
    NatOfByteOf(length / 0x1_0000);
    assert length / 0x1_0000 == length / 256 / 256;
  }

  /** Type, 24-bit length, checksum, payload. */
  function DataChunk(kind: byte, plain: seq<byte>, payload: seq<byte>): (chunk: Chunk)
    requires 4 + |payload| < U24
  {
    [kind] + Len24(4 + |payload|) + Le32(PlainCrc(plain)) + payload
  }

  /** The compressed form is used only where it is shorter. */
  function EncodedChunk(lib: Library, plain: Piece): (chunk: Chunk)
    ensures |chunk| >= 8
  {
    var compressed := lib.compress(plain);
    if |compressed| < |plain| then DataChunk(0x00, plain, compressed) else DataChunk(0x01, plain, plain)
  }

  /** Input bytes are cut into pieces of at most 64 KiB. */
  function Pieces(bytes: seq<byte>): (pieces: seq<Piece>) {
    if bytes == [] then []
    else if |bytes| <= MAX_UNCOMPRESSED_CHUNK then [bytes]
    else [bytes[..MAX_UNCOMPRESSED_CHUNK]] + Pieces(bytes[MAX_UNCOMPRESSED_CHUNK..])
  }

  function EncodedAll(lib: Library, plains: seq<Piece>): (chunks: seq<Chunk>)
    ensures |chunks| == |plains|
  {
    if plains == [] then [] else [EncodedChunk(lib, plains[0])] + EncodedAll(lib, plains[1..])
  }

  class SnappyStreamEncoder {
    const lib: Library
    var wroteIdentifier: bool

    constructor (lib: Library)
      ensures this.lib == lib && !wroteIdentifier
    {
      this.lib := lib;
      wroteIdentifier := false;
    }

    method MakeDataChunk(plain: Piece) returns (chunk: Chunk)
      ensures chunk == EncodedChunk(lib, plain)
    {
      var compressed := lib.compress(plain);
      var useCompressed := |compressed| < |plain|;
      var payload := if useCompressed then compressed else plain;
      var crc := Crc.TableChecksum(Crc.CASTAGNOLI, plain);
      chunk := [if useCompressed then 0x00 else 0x01] + Len24(4 + |payload|) + Le32(Crc.WordAsU32(MaskCrc(crc))) + payload;
    }

    method Encode(bytes: seq<byte>) returns (out: seq<Chunk>)
      modifies this
      ensures wroteIdentifier
      ensures out == (if old(wroteIdentifier) then [] else [STREAM_IDENTIFIER]) + EncodedAll(lib, Pieces(bytes))
    {
      hide EncodedChunk, Pieces, EncodedAll;
      out := [];
      if !wroteIdentifier {
        out := [STREAM_IDENTIFIER];
        wroteIdentifier := true;
      }
      ghost var start, done: seq<Piece> := out, [];
      NoPieces(lib);
      assert bytes[0..] == bytes;
      var offset := 0;
      while offset < |bytes|
        invariant offset <= |bytes| && wroteIdentifier
        invariant Pieces(bytes) == done + Pieces(bytes[offset..])
        invariant out == start + EncodedAll(lib, done)
      {
        var count := if MAX_UNCOMPRESSED_CHUNK < |bytes| - offset then MAX_UNCOMPRESSED_CHUNK else |bytes| - offset;
        var piece := bytes[offset..offset + count];
        var chunk := MakeDataChunk(piece);
        PiecesStep(bytes[offset..], count);
        assert bytes[offset..][count..] == bytes[offset + count..];
        assert bytes[offset..][..count] == piece;
        EncodedAllAppend(lib, done, piece);
        done := done + [piece];
        out := out + [chunk];
        offset := offset + count;
      }
      assert bytes[offset..] == [];
      assert done == Pieces(bytes);
    }
  }

  lemma NoPieces(lib: Library)
    ensures Pieces([]) == [] && EncodedAll(lib, []) == []
  {}

  lemma {:induction false} EncodedAllAppend(lib: Library, plains: seq<Piece>, plain: Piece)
    ensures EncodedAll(lib, plains + [plain]) == EncodedAll(lib, plains) + [EncodedChunk(lib, plain)]
    decreases |plains|
  {
    hide EncodedChunk;
    if plains == [] {
      assert plains + [plain] == [plain];
    } else {
      assert (plains + [plain])[1..] == plains[1..] + [plain];
      EncodedAllAppend(lib, plains[1..], plain);
    }
  }

  lemma PiecesStep(bytes: seq<byte>, count: nat)
    requires bytes != [] && count == if MAX_UNCOMPRESSED_CHUNK < |bytes| then MAX_UNCOMPRESSED_CHUNK else |bytes|
    ensures Pieces(bytes) == [bytes[..count]] + Pieces(bytes[count..])
  {
    if count == |bytes| {
      assert bytes[count..] == [] && bytes[..count] == bytes;
    }
  }

  // ----- decoding

  datatype Step = Wait | Fail(error: string) | Pass(saw: bool, size: nat) | Data(plain: seq<byte>, size: nat)

  /** The plain bytes of a data chunk, unless something is wrong with it. */
  function ChunkData(lib: Library, compressed: bool, payload: seq<byte>, saw: bool): Result<seq<byte>> {
    if !saw then Failure("snappy data chunk before stream identifier")
    else if |payload| < 4 then Failure("invalid snappy data chunk length")
    else
      var plain := if compressed then lib.uncompress(payload[4..]) else Some(payload[4..]);
      if plain.None? then Failure("snappy uncompress failed")
      else if PlainCrc(plain.value) != FromLe32(payload) then Failure("snappy crc mismatch")
      else Success(plain.value)
  }

  /** What the decoder does with the chunk at the front of its buffer. */
  function NextChunk(lib: Library, buffer: seq<byte>, saw: bool): (step: Step)
    requires |buffer| >= 4
    ensures (step.Pass? || step.Data?) ==> 4 <= step.size <= |buffer|
  {
    var length := FromLen24(buffer[1..]);
    if |buffer| < 4 + length then Wait
    else
      var payload := buffer[4..4 + length];
      if buffer[0] == 0xff then
        if length != 6 || payload != STREAM_IDENTIFIER[4..] then Fail("invalid snappy stream identifier")
        else Pass(true, 4 + length)
      else if buffer[0] & 0x80 != 0 then Pass(saw, 4 + length)
      else if buffer[0] == 0x00 || buffer[0] == 0x01 then
        match ChunkData(lib, buffer[0] == 0x00, payload, saw)
        case Failure(error) => Fail(error)
        case Success(plain) => Data(plain, 4 + length)
      else Fail("unsupported unskippable snappy chunk")
  }

  datatype Drained = Drained(out: seq<seq<byte>>, rest: seq<byte>, saw: bool, error: Option<string>)

  /** The outcome with some output before it. */
  function After(out: seq<seq<byte>>, d: Drained): Drained {
    d.(out := out + d.out)
  }

  lemma AfterAfter(a: seq<seq<byte>>, b: seq<seq<byte>>, d: Drained)
    ensures After(a, After(b, d)) == After(a + b, d) && After([], d) == d
    ensures After(a, d).error == d.error && After(a, d).rest == d.rest && After(a, d).saw == d.saw
  {}

  lemma AfterNothing(a: seq<seq<byte>>, rest: seq<byte>, saw: bool, error: Option<string>)
    ensures After(a, Drained([], rest, saw, error)) == Drained(a, rest, saw, error)
  {}

  /** All complete chunks at the front of the buffer, up to the first bad one. */
  function Drain(lib: Library, buffer: seq<byte>, saw: bool): Drained
    decreases |buffer|
  {
    if |buffer| < 4 then Drained([], buffer, saw, None)
    else
      match NextChunk(lib, buffer, saw)
      case Wait => Drained([], buffer, saw, None)
      case Fail(error) => Drained([], buffer, saw, Some(error))
      case Pass(saw', size) => Drain(lib, buffer[size..], saw')
      case Data(plain, size) => After([plain], Drain(lib, buffer[size..], saw))
  }

  lemma DrainUnfold(lib: Library, buffer: seq<byte>, saw: bool)
    ensures |buffer| < 4 || NextChunk(lib, buffer, saw).Wait? ==>
      Drain(lib, buffer, saw) == Drained([], buffer, saw, None)
    ensures |buffer| >= 4 && NextChunk(lib, buffer, saw).Fail? ==>
      Drain(lib, buffer, saw) == Drained([], buffer, saw, Some(NextChunk(lib, buffer, saw).error))
    ensures |buffer| >= 4 && NextChunk(lib, buffer, saw).Pass? ==>
      var step := NextChunk(lib, buffer, saw); Drain(lib, buffer, saw) == Drain(lib, buffer[step.size..], step.saw)
    ensures |buffer| >= 4 && NextChunk(lib, buffer, saw).Data? ==>
      var step := NextChunk(lib, buffer, saw);
      Drain(lib, buffer, saw) == After([step.plain], Drain(lib, buffer[step.size..], saw))
  {
    hide NextChunk, After;
  }

  class SnappyStreamDecoder {
    const lib: Library
    var buffer: seq<byte>
    var sawIdentifier: bool

    constructor (lib: Library)
      ensures this.lib == lib && buffer == [] && !sawIdentifier
    {
      this.lib := lib;
      buffer := [];
      sawIdentifier := false;
    }

    method Decode(bytes: seq<byte>) returns (result: Result<seq<seq<byte>>>)
      modifies this
      ensures var d := Drain(lib, old(buffer) + bytes, old(sawIdentifier));
              buffer == d.rest && sawIdentifier == d.saw &&
              result == match d.error case None => Success(d.out) case Some(error) => Failure(error)
    {
      hide NextChunk, Drain, After;
      buffer := buffer + bytes;
      ghost var whole := Drain(lib, buffer, sawIdentifier);
      AfterAfter([], [], whole);
      var out := [];
      while |buffer| >= 4
        invariant whole == After(out, Drain(lib, buffer, sawIdentifier))
        decreases |buffer|
      {
        DrainUnfold(lib, buffer, sawIdentifier);
        AfterNothing(out, buffer, sawIdentifier, whole.error);
        AfterAfter(out, [], Drain(lib, buffer, sawIdentifier));
        var step := InspectChunk();
        match step
        case Wait => return Success(out);
        case Fail(error) => return Failure(error);
        case Pass(saw, size) =>
          sawIdentifier := saw;
          buffer := buffer[size..];
        case Data(plain, size) =>
          AfterAfter(out, [plain], Drain(lib, buffer[size..], sawIdentifier));
          out := out + [plain];
          buffer := buffer[size..];
      }
      DrainUnfold(lib, buffer, sawIdentifier);
      AfterNothing(out, buffer, sawIdentifier, None);
      return Success(out);
    }

    /** Looks at the chunk at the front of the buffer. */
    method InspectChunk() returns (step: Step)
      requires |buffer| >= 4
      ensures step == NextChunk(lib, buffer, sawIdentifier)
    {
      hide ChunkData, FromLen24;
      var chunkType := buffer[0];
      var length := FromLen24(buffer[1..]);
      if |buffer| < 4 + length {
        return Wait;
      }
      var payload := buffer[4..4 + length];
      if chunkType == 0xff {
        if length != 6 || payload != STREAM_IDENTIFIER[4..] {
          return Fail("invalid snappy stream identifier");
        }
        return Pass(true, 4 + length);
      } else if chunkType & 0x80 != 0 {
        return Pass(sawIdentifier, 4 + length);
      } else if chunkType == 0x00 || chunkType == 0x01 {
        var plain := DecodeDataChunk(chunkType == 0x00, payload);
        match plain
        case Failure(error) => return Fail(error);
        case Success(bytes) => return Data(bytes, 4 + length);
      } else {
        return Fail("unsupported unskippable snappy chunk");
      }
    }

    method DecodeDataChunk(compressed: bool, payload: seq<byte>) returns (result: Result<seq<byte>>)
      ensures result == ChunkData(lib, compressed, payload, sawIdentifier)
    {
      hide PlainCrc, FromLe32;
      if !sawIdentifier {
        return Failure("snappy data chunk before stream identifier");
      }
      if |payload| < 4 {
        return Failure("invalid snappy data chunk length");
      }
      var expectedCrc := FromLe32(payload);
      var plain := payload[4..];
      if compressed {
        var uncompressed := lib.uncompress(plain);
        if uncompressed.None? {
          return Failure("snappy uncompress failed");
        }
        plain := uncompressed.value;
      }
      var crc := PlainChecksum(plain);
      if crc != expectedCrc {
        return Failure("snappy crc mismatch");
      }
      return Success(plain);
    }

    method PlainChecksum(plain: seq<byte>) returns (crc: u32)
      ensures crc == PlainCrc(plain)
    {
      var register := Crc.TableChecksum(Crc.CASTAGNOLI, plain);
      crc := Crc.WordAsU32(MaskCrc(register));
    }
  }

  // ----- the decoder does not care how the bytes are cut

  lemma NextChunkMore(lib: Library, buffer: seq<byte>, saw: bool, more: seq<byte>)
    requires |buffer| >= 4 && !NextChunk(lib, buffer, saw).Wait?
    ensures NextChunk(lib, buffer + more, saw) == NextChunk(lib, buffer, saw)
  {
    hide ChunkData, NatOf;
    var length := FromLen24(buffer[1..]);
    assert FromLen24((buffer + more)[1..]) == length;
    assert (buffer + more)[4..4 + length] == buffer[4..4 + length];
  }

  /** Draining a longer buffer is draining the shorter one and going on with what is left. */
  lemma {:induction false} DrainMore(lib: Library, buffer: seq<byte>, saw: bool, more: seq<byte>)
    ensures var d, whole := Drain(lib, buffer, saw), Drain(lib, buffer + more, saw);
            if d.error.Some? then whole.error == d.error && whole.out == d.out
            else whole == After(d.out, Drain(lib, d.rest + more, d.saw))
    decreases |buffer|
  {
    hide NextChunk, Drain;
    DrainUnfold(lib, buffer, saw);
    DrainUnfold(lib, buffer + more, saw);
    if |buffer| < 4 || NextChunk(lib, buffer, saw).Wait? {
      AfterAfter([], [], Drain(lib, buffer + more, saw));
    } else {
      NextChunkMore(lib, buffer, saw, more);
      match NextChunk(lib, buffer, saw)
      case Fail(_) =>
      case Pass(saw', size) =>
        assert (buffer + more)[size..] == buffer[size..] + more;
        DrainMore(lib, buffer[size..], saw', more);
      case Data(plain, size) =>
        assert (buffer + more)[size..] == buffer[size..] + more;
        DrainMore(lib, buffer[size..], saw, more);
        var d := Drain(lib, buffer[size..], saw);
        AfterAfter([plain], d.out, Drain(lib, d.rest + more, d.saw));
    }
  }

  /** One decode call after another, until one fails. */
  function Feed(lib: Library, buffer: seq<byte>, saw: bool, parts: seq<seq<byte>>): Drained
    decreases |parts|
  {
    if parts == [] then Drained([], buffer, saw, None)
    else
      var d := Drain(lib, buffer + parts[0], saw);
      if d.error.Some? then d
      else
        After(d.out, Feed(lib, d.rest, d.saw, parts[1..]))
  }

  /** Any splitting of the same bytes gives the same output, the same state and the same error. */
  lemma {:induction false} FeedIsDrain(lib: Library, buffer: seq<byte>, saw: bool, parts: seq<seq<byte>>)
    requires parts != []
    ensures var fed, whole := Feed(lib, buffer, saw, parts), Drain(lib, buffer + Concat(parts), saw);
            fed.out == whole.out && fed.error == whole.error && (fed.error.None? ==> fed == whole)
    decreases |parts|
  {
    hide NextChunk;
    var d, rest := Drain(lib, buffer + parts[0], saw), parts[1..];
    assert buffer + Concat(parts) == buffer + parts[0] + Concat(rest);
    DrainMore(lib, buffer + parts[0], saw, Concat(rest));
    if rest == [] {
      assert buffer + parts[0] + Concat(rest) == buffer + parts[0];
    } else if d.error.None? {
      FeedIsDrain(lib, d.rest, d.saw, rest);
    }
  }

  // ----- the round trip

  /** The decoder hands the payload of a whole data chunk on and acts on the outcome. */
  lemma DataChunkStep(lib: Library, kind: byte, plain: seq<byte>, payload: seq<byte>, tail: seq<byte>)
    requires 4 + |payload| < U24 && (kind == 0x00 || kind == 0x01)
    ensures var chunk := DataChunk(kind, plain, payload);
            |chunk + tail| >= 4 &&
            NextChunk(lib, chunk + tail, true) ==
              match ChunkData(lib, kind == 0x00, Le32(PlainCrc(plain)) + payload, true)
              case Failure(error) => Fail(error)
              case Success(bytes) => Data(bytes, |chunk|)
  {
    hide FromLen24, PlainCrc, Len24, Le32, ChunkData;
    ChunkHeader(kind, plain, payload, tail);
    var buffer := DataChunk(kind, plain, payload) + tail;
    assert buffer[4..4 + 4 + |payload|] == Le32(PlainCrc(plain)) + payload;
  }

  lemma DataChunkDecodes(lib: Library, kind: byte, plain: seq<byte>, payload: seq<byte>, tail: seq<byte>)
    requires 4 + |payload| < U24 && (kind == 0x00 || kind == 0x01)
    requires kind == 0x00 ==> lib.uncompress(payload) == Some(plain)
    requires kind == 0x01 ==> payload == plain
    ensures var chunk := DataChunk(kind, plain, payload);
            |chunk + tail| >= 4 && NextChunk(lib, chunk + tail, true) == Data(plain, |chunk|)
  {
    hide FromLe32, PlainCrc, Le32, NextChunk, DataChunk;
    DataChunkStep(lib, kind, plain, payload, tail);
    Le32RoundTrip(PlainCrc(plain), payload);
    assert (Le32(PlainCrc(plain)) + payload)[4..] == payload;
  }

  /** The header gives the chunk's own length; a part of a chunk leaves the decoder waiting. */
  lemma ChunkHeader(kind: byte, plain: seq<byte>, payload: seq<byte>, tail: seq<byte>)
    requires 4 + |payload| < U24
    ensures var chunk := DataChunk(kind, plain, payload);
            |chunk| == 8 + |payload| && FromLen24((chunk + tail)[1..]) == 4 + |payload|
  {
    hide FromLen24, Len24, Le32, PlainCrc;
    Len24RoundTrip(4 + |payload|, Le32(PlainCrc(plain)) + payload + tail);
    assert (DataChunk(kind, plain, payload) + tail)[1..]
        == Len24(4 + |payload|) + (Le32(PlainCrc(plain)) + payload + tail);
  }

  /** A prefix of a buffer shows the same length field. */
  lemma PrefixLength(buffer: seq<byte>, n: nat)
    requires 4 <= n <= |buffer|
    ensures FromLen24(buffer[..n][1..]) == FromLen24(buffer[1..])
  {
    hide NatOf;
    assert buffer[..n][1..][..3] == buffer[1..][..3];
    assert forall k :: 0 <= k < 3 ==> buffer[..n][1..][k] == buffer[1..][k];
  }

  lemma PartialChunkWaits(lib: Library, kind: byte, plain: seq<byte>, payload: seq<byte>, n: nat, saw: bool)
    requires 4 + |payload| < U24 && 4 <= n < |DataChunk(kind, plain, payload)|
    ensures NextChunk(lib, DataChunk(kind, plain, payload)[..n], saw) == Wait
  {
    hide FromLen24, DataChunk, ChunkData;
    ChunkHeader(kind, plain, payload, []);
    var chunk := DataChunk(kind, plain, payload);
    assert chunk + [] == chunk;
    PrefixLength(chunk, n);
  }

  lemma EncodedChunkDecodes(lib: Library, plain: Piece, tail: seq<byte>)
    requires Lawful(lib)
    ensures |EncodedChunk(lib, plain) + tail| >= 4
    ensures NextChunk(lib, EncodedChunk(lib, plain) + tail, true) == Data(plain, |EncodedChunk(lib, plain)|)
  {
    hide NextChunk, DataChunk;
    var compressed := lib.compress(plain);
    if |compressed| < |plain| {
      DataChunkDecodes(lib, 0x00, plain, compressed, tail);
    } else {
      DataChunkDecodes(lib, 0x01, plain, plain, tail);
    }
  }

  lemma PartialEncodedChunkWaits(lib: Library, plain: Piece, n: nat, saw: bool)
    requires 4 <= n < |EncodedChunk(lib, plain)|
    ensures NextChunk(lib, EncodedChunk(lib, plain)[..n], saw) == Wait
  {
    hide NextChunk, DataChunk;
    var compressed := lib.compress(plain);
    if |compressed| < |plain| {
      PartialChunkWaits(lib, 0x00, plain, compressed, n, saw);
    } else {
      PartialChunkWaits(lib, 0x01, plain, plain, n, saw);
    }
  }

  /** The first k pieces have come out, and what is left over is less than the next chunk. */
  ghost predicate Completed(lib: Library, plains: seq<Piece>, wire: seq<byte>, d: Drained, k: nat) {
    k <= |plains| && d.error.None? && d.saw && d.out == plains[..k] &&
    wire == Concat(EncodedAll(lib, plains[..k])) + d.rest &&
    if k < |plains| then |d.rest| < |EncodedChunk(lib, plains[k])| else d.rest == []
  }

  lemma CompletedNone(lib: Library, plains: seq<Piece>, wire: seq<byte>)
    requires plains != [] && |wire| < |EncodedChunk(lib, plains[0])|
    requires wire == EncodedChunk(lib, plains[0])[..|wire|]
    ensures Completed(lib, plains, wire, Drain(lib, wire, true), 0)
  {
    hide NextChunk, EncodedChunk;
    assert plains[..0] == [] && Concat(EncodedAll(lib, [])) == [];
    if |wire| >= 4 {
      PartialEncodedChunkWaits(lib, plains[0], |wire|, true);
    }
  }

  lemma DrainOneMore(lib: Library, plain: Piece, tail: seq<byte>)
    requires Lawful(lib)
    ensures Drain(lib, EncodedChunk(lib, plain) + tail, true) == After([plain], Drain(lib, tail, true))
  {
    hide NextChunk, EncodedChunk, Lawful;
    EncodedChunkDecodes(lib, plain, tail);
    assert (EncodedChunk(lib, plain) + tail)[|EncodedChunk(lib, plain)|..] == tail;
  }

  lemma ConcatFirst(lib: Library, plains: seq<Piece>, k: nat)
    requires k < |plains|
    ensures plains[..k + 1] == [plains[0]] + plains[1..][..k]
    ensures Concat(EncodedAll(lib, plains[..k + 1]))
         == EncodedChunk(lib, plains[0]) + Concat(EncodedAll(lib, plains[1..][..k]))
  {
    hide EncodedChunk;
    assert plains[..k + 1][1..] == plains[1..][..k];
  }

  lemma CompletedOneMore(lib: Library, plains: seq<Piece>, tail: seq<byte>, k: nat)
    requires Lawful(lib) && plains != []
    requires Completed(lib, plains[1..], tail, Drain(lib, tail, true), k)
    ensures Completed(lib, plains, EncodedChunk(lib, plains[0]) + tail,
                      Drain(lib, EncodedChunk(lib, plains[0]) + tail, true), k + 1)
  {
    hide EncodedChunk, Lawful, Drain, EncodedAll, Concat;
    DrainOneMore(lib, plains[0], tail);
    ConcatFirst(lib, plains, k);
  }

  /** A prefix of encoded chunks gives the plain bytes of exactly the chunks completed so far. */
  lemma {:induction false} DrainChunks(lib: Library, plains: seq<Piece>, wire: seq<byte>) returns (k: nat)
    requires Lawful(lib) && wire <= Concat(EncodedAll(lib, plains))
    ensures Completed(lib, plains, wire, Drain(lib, wire, true), k)
    decreases |plains|
  {
    hide NextChunk, EncodedChunk, Lawful, Completed, Drain;
    if plains == [] {
      k := 0;
      CompletedAtOnce(lib);
      return;
    }
    var chunk, rest := EncodedChunk(lib, plains[0]), plains[1..];
    assert Concat(EncodedAll(lib, plains)) == chunk + Concat(EncodedAll(lib, rest));
    if |wire| < |chunk| {
      k := 0;
      CompletedNone(lib, plains, wire);
    } else {
      var tail := wire[|chunk|..];
      assert wire == chunk + tail;
      var k' := DrainChunks(lib, rest, tail);
      CompletedOneMore(lib, plains, tail, k');
      k := k' + 1;
    }
  }

  lemma CompletedAtOnce(lib: Library)
    ensures Completed(lib, [], [], Drain(lib, [], true), 0)
  {}

  // ----- encoder and decoder together

  /** Everything an encoder emits for a sequence of calls. */
  function Emitted(lib: Library, wrote: bool, inputs: seq<seq<byte>>): seq<Chunk>
    decreases |inputs|
  {
    if inputs == [] then []
    else
      (if wrote then [] else [STREAM_IDENTIFIER]) + EncodedAll(lib, Pieces(inputs[0])) +
      Emitted(lib, true, inputs[1..])
  }

  function AllPieces(inputs: seq<seq<byte>>): (pieces: seq<Piece>) {
    if inputs == [] then [] else Pieces(inputs[0]) + AllPieces(inputs[1..])
  }

  lemma {:induction false} EncodedAllConcat(lib: Library, a: seq<Piece>, b: seq<Piece>)
    ensures EncodedAll(lib, a + b) == EncodedAll(lib, a) + EncodedAll(lib, b)
    decreases |a|
  {
    hide EncodedChunk;
    if a == [] {
      assert a + b == b;
    } else {
      assert (a + b)[1..] == a[1..] + b;
      EncodedAllConcat(lib, a[1..], b);
    }
  }

  lemma {:induction false} PiecesConcat(bytes: seq<byte>)
    ensures Concat(Pieces(bytes)) == bytes
    decreases |bytes|
  {
    if |bytes| > MAX_UNCOMPRESSED_CHUNK {
      PiecesConcat(bytes[MAX_UNCOMPRESSED_CHUNK..]);
    }
  }

  lemma {:induction false} AllPiecesConcat(inputs: seq<seq<byte>>)
    ensures Concat(AllPieces(inputs)) == Concat(inputs)
    decreases |inputs|
  {
    if inputs != [] {
      AllPiecesConcat(inputs[1..]);
      PiecesConcat(inputs[0]);
      ConcatAppend(Pieces(inputs[0]), AllPieces(inputs[1..]));
    }
  }

  /** After the identifier the calls of the encoder run together into one sequence of chunks. */
  lemma {:induction false} EmittedIsChunks(lib: Library, inputs: seq<seq<byte>>)
    ensures Emitted(lib, true, inputs) == EncodedAll(lib, AllPieces(inputs))
    decreases |inputs|
  {
    hide EncodedChunk, Pieces;
    if inputs != [] {
      EmittedIsChunks(lib, inputs[1..]);
      EncodedAllConcat(lib, Pieces(inputs[0]), AllPieces(inputs[1..]));
    }
  }

  lemma EmittedWire(lib: Library, inputs: seq<seq<byte>>)
    requires inputs != []
    ensures Concat(Emitted(lib, false, inputs)) == STREAM_IDENTIFIER + Concat(EncodedAll(lib, AllPieces(inputs)))
  {
    hide EncodedAll, Pieces;
    EmittedIsChunks(lib, inputs);
    assert Emitted(lib, false, inputs) == [STREAM_IDENTIFIER] + Emitted(lib, true, inputs);
  }

  lemma IdentifierPasses(lib: Library, tail: seq<byte>)
    ensures Drain(lib, STREAM_IDENTIFIER + tail, false) == Drain(lib, tail, true)
  {
    IdentifierLength(tail);
    hide FromLen24, ChunkData;
    var buffer := STREAM_IDENTIFIER + tail;
    assert buffer[4..10] == STREAM_IDENTIFIER[4..];
    assert buffer[10..] == tail;
  }

  lemma IdentifierLength(tail: seq<byte>)
    ensures FromLen24((STREAM_IDENTIFIER + tail)[1..]) == 6
  {
    assert NatOf(0x06) == 6 && NatOf(0x00) == 0;
  }

  lemma PartialIdentifierWaits(lib: Library, n: nat)
    requires 4 <= n < 10
    ensures NextChunk(lib, STREAM_IDENTIFIER[..n], false) == Wait
  {
    IdentifierLength([]);
    hide NatOf, ChunkData;
    assert STREAM_IDENTIFIER + [] == STREAM_IDENTIFIER;
    assert STREAM_IDENTIFIER[..n][1..][..3] == STREAM_IDENTIFIER[1..][..3];
  }

  /** How many bytes must have arrived before the first k pieces are complete. */
  function BytesFor(lib: Library, pieces: seq<Piece>, k: nat): nat
    requires k <= |pieces|
  {
    |STREAM_IDENTIFIER| + |Concat(EncodedAll(lib, pieces[..k]))|
  }

  lemma BytesForNext(lib: Library, pieces: seq<Piece>, k: nat)
    requires k < |pieces|
    ensures BytesFor(lib, pieces, k + 1) == BytesFor(lib, pieces, k) + |EncodedChunk(lib, pieces[k])|
  {
    hide EncodedChunk;
    assert pieces[..k + 1] == pieces[..k] + [pieces[k]];
    EncodedAllAppend(lib, pieces[..k], pieces[k]);
    ConcatAppend(EncodedAll(lib, pieces[..k]), [EncodedChunk(lib, pieces[k])]);
  }

  /** k pieces are complete and the next one is not. */
  ghost predicate CompleteExactly(lib: Library, pieces: seq<Piece>, k: nat, bytes: nat) {
    k <= |pieces| && (k > 0 ==> BytesFor(lib, pieces, k) <= bytes) &&
    (k < |pieces| ==> bytes < BytesFor(lib, pieces, k + 1))
  }

  /** Draining a prefix of what the encoder emitted. */
  lemma DrainEmitted(lib: Library, pieces: seq<Piece>, wire: seq<byte>) returns (k: nat)
    requires Lawful(lib) && wire <= STREAM_IDENTIFIER + Concat(EncodedAll(lib, pieces))
    ensures k <= |pieces| && Drain(lib, wire, false).error.None? && Drain(lib, wire, false).out == pieces[..k]
    ensures CompleteExactly(lib, pieces, k, |wire|)
    ensures wire == STREAM_IDENTIFIER + Concat(EncodedAll(lib, pieces)) ==> k == |pieces|
  {
    hide NextChunk, EncodedChunk, Lawful, EncodedAll, Concat;
    if |wire| < 10 {
      k := 0;
      assert wire == STREAM_IDENTIFIER[..|wire|];
      assert CompleteExactly(lib, pieces, k, |wire|);
      if |wire| >= 4 {
        PartialIdentifierWaits(lib, |wire|);
      }
    } else {
      hide Drain;
      var tail := wire[10..];
      assert wire == STREAM_IDENTIFIER + tail;
      IdentifierPasses(lib, tail);
      k := DrainChunks(lib, pieces, tail);
      if k < |pieces| {
        BytesForNext(lib, pieces, k);
      }
      AllChunksComplete(lib, pieces, tail, Drain(lib, tail, true), k);
    }
  }

  lemma AllChunksComplete(lib: Library, pieces: seq<Piece>, tail: seq<byte>, d: Drained, k: nat)
    requires Completed(lib, pieces, tail, d, k)
    ensures tail == Concat(EncodedAll(lib, pieces)) ==> k == |pieces|
  {
    hide EncodedChunk, Concat;
    if k < |pieces| {
      var done, left := pieces[..k], pieces[k..];
      assert pieces == done + left;
      EncodedAllConcat(lib, done, left);
      ConcatAppend(EncodedAll(lib, done), EncodedAll(lib, left));
      ConcatStarts(EncodedAll(lib, left));
    }
  }

  lemma ConcatStarts(parts: seq<seq<byte>>)
    requires parts != []
    ensures |Concat(parts)| >= |parts[0]|
  {}

  /** The round trip: fed any prefix of what the encoder emitted, cut in any way, the decoder never fails and gives
      out the pieces whose chunks are complete; with everything fed the output is the whole input. */
  lemma SnappyRoundTrip(lib: Library, inputs: seq<seq<byte>>, parts: seq<seq<byte>>) returns (k: nat)
    requires Lawful(lib) && inputs != []
    requires Concat(parts) <= Concat(Emitted(lib, false, inputs))
    ensures Feed(lib, [], false, parts).error.None?
    ensures k <= |AllPieces(inputs)| && Feed(lib, [], false, parts).out == AllPieces(inputs)[..k]
    ensures CompleteExactly(lib, AllPieces(inputs), k, |Concat(parts)|)
    ensures Concat(parts) == Concat(Emitted(lib, false, inputs)) ==>
      Concat(Feed(lib, [], false, parts).out) == Concat(inputs)
  {
    hide NextChunk, EncodedChunk, Lawful, Pieces, EncodedAll, Drain;
    var wire, pieces := Concat(parts), AllPieces(inputs);
    EmittedWire(lib, inputs);
    AllPiecesConcat(inputs);
    hide Emitted, AllPieces, CompleteExactly;
    k := DrainEmitted(lib, pieces, wire);
    assert pieces[..|pieces|] == pieces;
    if parts != [] {
      FeedIsDrain(lib, [], false, parts);
      assert [] + wire == wire;
    } else {
      assert wire == [];
      NothingDrained(lib);
    }
  }

  lemma NothingDrained(lib: Library)
    ensures Drain(lib, [], false) == Drained([], [], false, None)
  {}

  // ----- chunks that are not data

  /** A chunk of any kind. */
  function RawChunk(kind: byte, payload: seq<byte>): (chunk: Chunk)
    requires |payload| < U24
  {
    [kind] + Len24(|payload|) + payload
  }

  lemma RawHeader(kind: byte, payload: seq<byte>, rest: seq<byte>)
    requires |payload| < U24
    ensures var buffer := RawChunk(kind, payload) + rest;
            && |RawChunk(kind, payload)| == 4 + |payload| && buffer[0] == kind
            && FromLen24(buffer[1..]) == |payload| && buffer[4..4 + |payload|] == payload
            && buffer[4 + |payload|..] == rest
  {
    hide FromLen24, Len24;
    Len24RoundTrip(|payload|, payload + rest);
    assert (RawChunk(kind, payload) + rest)[1..] == Len24(|payload|) + (payload + rest);
  }

  /** Chunks of the kinds 0x80 to 0xfe are passed over wherever they stand. */
  lemma SkippableIsSkipped(lib: Library, kind: byte, payload: seq<byte>, rest: seq<byte>, saw: bool)
    requires |payload| < U24 && kind >= 0x80 && kind != 0xff
    ensures Drain(lib, RawChunk(kind, payload) + rest, saw) == Drain(lib, rest, saw)
  {
    hide FromLen24, RawChunk, Drain;
    RawHeader(kind, payload, rest);
    HighBit(kind);
    DrainUnfold(lib, RawChunk(kind, payload) + rest, saw);
  }

  lemma HighBit(kind: byte)
    ensures kind >= 0x80 <==> kind & 0x80 != 0
  {}

  /** The identifier may come again, as it does where streams are put one after the other. */
  lemma IdentifierMayRepeat(lib: Library, rest: seq<byte>, saw: bool)
    ensures Drain(lib, STREAM_IDENTIFIER + rest, saw) == Drain(lib, rest, true)
  {
    hide Drain;
    var buffer := STREAM_IDENTIFIER + rest;
    assert buffer[1..][0] == 0x06 && buffer[1..][1] == 0x00 && buffer[1..][2] == 0x00;
    assert FromLen24(buffer[1..]) == 6 by { SixIsSix(); }
    assert buffer[4..10] == STREAM_IDENTIFIER[4..] && buffer[10..] == rest;
    DrainUnfold(lib, buffer, saw);
  }

  lemma SixIsSix()
    ensures NatOf(0x06) == 6 && NatOf(0x00) == 0
  {}

  /** What the decoder refuses: data before any identifier, and chunks of the kinds 0x02 to 0x7f. */
  lemma RefusedChunks(lib: Library, kind: byte, payload: seq<byte>, rest: seq<byte>, saw: bool)
    requires |payload| < U24 && kind < 0x80 && (kind >= 0x02 || !saw)
    ensures var d := Drain(lib, RawChunk(kind, payload) + rest, saw);
            && d.out == []
            && d.error == Some(if kind >= 0x02 then "unsupported unskippable snappy chunk"
                               else "snappy data chunk before stream identifier")
  {
    hide FromLen24, RawChunk, Drain;
    RawHeader(kind, payload, rest);
    HighBit(kind);
    DrainUnfold(lib, RawChunk(kind, payload) + rest, saw);
  }

  // ----- damage is noticed

  /** The checksum behind a masked one, as section 3 of framing_format.txt gives it. */
  function UnmaskCrc(masked: Crc.word): Crc.word {
    RotatedBack(masked - 0xa282_ead8)
  }

  lemma Unmasked(crc: Crc.word)
    ensures UnmaskCrc(MaskCrc(crc)) == crc
  {
    hide Rotate, RotatedBack;
    SubtractBack(Rotate(crc));
    RotateBack(crc);
  }

  lemma SubtractBack(w: Crc.word)
    ensures w + 0xa282_ead8 - 0xa282_ead8 == w
  {}

  function RotatedBack(w: Crc.word): Crc.word {
    (w << 15) | (w >> 17)
  }

  lemma RotateBack(w: Crc.word)
    ensures RotatedBack(Rotate(w)) == w
  {}

  lemma MaskInjective(a: Crc.word, b: Crc.word)
    requires MaskCrc(a) == MaskCrc(b)
    ensures a == b
  {
    hide MaskCrc, UnmaskCrc;
    Unmasked(a);
    Unmasked(b);
  }

  /** An uncompressed chunk whose data was changed inside four consecutive bytes makes the decoder fail. */
  lemma DamagedChunkFails(lib: Library, before: seq<byte>, u: seq<byte>, v: seq<byte>, after: seq<byte>,
                          tail: seq<byte>)
    requires |u| == |v| <= 4 && u != v && 4 + |before + u + after| < U24
    ensures var damaged := DataChunk(0x01, before + u + after, before + v + after) + tail;
            |damaged| >= 4 && NextChunk(lib, damaged, true) == Fail("snappy crc mismatch")
  {
    hide FromLe32, PlainCrc, Le32, NextChunk, DataChunk;
    var plain, payload := before + u + after, before + v + after;
    DataChunkStep(lib, 0x01, plain, payload, tail);
    Le32RoundTrip(PlainCrc(plain), payload);
    DamagedCrcDiffers(before, u, v, after);
    assert (Le32(PlainCrc(plain)) + payload)[4..] == payload;
  }

  lemma DamagedCrcDiffers(before: seq<byte>, u: seq<byte>, v: seq<byte>, after: seq<byte>)
    requires |u| == |v| <= 4 && u != v
    ensures PlainCrc(before + u + after) != PlainCrc(before + v + after)
  {
    hide Crc.Checksum, MaskCrc, Crc.WordAsU32;
    Crc.BothPolynomials();
    Crc.BurstDetected(Crc.CASTAGNOLI, before, u, v, after);
    var a, b := Crc.Checksum(Crc.CASTAGNOLI, before + u + after), Crc.Checksum(Crc.CASTAGNOLI, before + v + after);
    if Crc.WordAsU32(MaskCrc(a)) == Crc.WordAsU32(MaskCrc(b)) {
      Crc.WordAsU32Injective(MaskCrc(a), MaskCrc(b));
      MaskInjective(a, b);
    }
  }
}

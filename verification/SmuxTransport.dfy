/** From frames to the bytes of the transport and back, through the optional Snappy stream. */
module SmuxTransport {
  import opened Wrappers
  import opened Bytes
  import opened SmuxFrame
  import SnappyStream

  /** The part of the configuration that both ends share. */
  datatype Link = Link(lib: SnappyStream.Library, nocomp: bool, version: int)

  /** The bytes handed to the transport for a sequence of frames. */
  function Wire(link: Link, frames: seq<Frame>): seq<byte> {
    if link.nocomp then Concat(EncodedFrames(link.version, frames))
    else Concat(SnappyStream.Emitted(link.lib, false, EncodedFrames(link.version, frames)))
  }

  /** The frames that come out when the transport delivers the given parts, one after the other. */
  function Receive(link: Link, limit: nat, parts: seq<seq<byte>>): Frames {
    if link.nocomp then FeedFrames(link.version, limit, [], parts)
    else
      var plain := SnappyStream.Feed(link.lib, [], false, parts);
      if plain.error.Some? then Frames([], [], plain.error)
      else FeedFrames(link.version, limit, [], plain.out)
  }

  /** How large the parts are that reach the frame parser. */
  ghost predicate PartsWithin(link: Link, parts: seq<seq<byte>>, largest: nat) {
    if link.nocomp then forall p :: p in parts ==> |p| <= largest
    else largest >= SnappyStream.MAX_UNCOMPRESSED_CHUNK
  }

  lemma ParserPrefix(version: int, limit: nat, frames: seq<Frame>, parts: seq<seq<byte>>, largest: nat) returns (k: nat)
    requires AllWellFormed(version, frames) && Concat(parts) <= Concat(EncodedFrames(version, frames))
    requires forall p :: p in parts ==> |p| <= largest
    requires limit >= SMUX_HEADER_SIZE + U16 - 2 + largest
    ensures k <= |frames|
    ensures FeedFrames(version, limit, [], parts).error.None?
    ensures FeedFrames(version, limit, [], parts).frames == frames[..k]
    ensures Concat(parts) == Concat(EncodedFrames(version, frames)) ==> k == |frames|
  {
    hide ParseFrame, Split, EncodedFrame;
    var wire := Concat(parts);
    k := SplitEncoded(version, frames, wire);
    if parts == [] {
      SplitUnfold(version, []);
      assert frames[..k] == [];
    } else {
      FeedIsSplit(version, limit, [], parts, largest);
      assert [] + wire == wire;
    }
  }

  lemma PiecesPrefix(pieces: seq<SnappyStream.Piece>, k: nat)
    requires k <= |pieces|
    ensures Concat(pieces[..k]) <= Concat(pieces)
  {
    assert pieces == pieces[..k] + pieces[k..];
    ConcatAppend(pieces[..k], pieces[k..]);
  }

  /** Whatever prefix of the wire has arrived, in whatever parts, the frames dispatched are the first k frames sent,
      nothing is reported as an error, and everything is dispatched once everything has arrived. */
  lemma DispatchedPrefix(link: Link, limit: nat, frames: seq<Frame>, parts: seq<seq<byte>>, largest: nat)
    returns (k: nat)
    requires SnappyStream.Lawful(link.lib) && AllWellFormed(link.version, frames)
    requires Concat(parts) <= Wire(link, frames) && PartsWithin(link, parts, largest)
    requires limit >= SMUX_HEADER_SIZE + U16 - 2 + largest
    ensures k <= |frames|
    ensures Receive(link, limit, parts).error.None?
    ensures Receive(link, limit, parts).frames == frames[..k]
    ensures Concat(parts) == Wire(link, frames) ==> k == |frames|
  {
    hide SnappyStream.Feed, SnappyStream.Emitted, FeedFrames, EncodedFrames, SnappyStream.CompleteExactly;
    if link.nocomp {
      k := ParserPrefix(link.version, limit, frames, parts, largest);
    } else if frames == [] {
      NothingSent(link, limit, parts);
      k := 0;
    } else {
      var inputs := EncodedFrames(link.version, frames);
      SomethingEncoded(link.version, frames);
      var j := SnappyStream.SnappyRoundTrip(link.lib, inputs, parts);
      var pieces := SnappyStream.AllPieces(inputs);
      var out := SnappyStream.Feed(link.lib, [], false, parts).out;
      PiecesPrefix(pieces, j);
      SnappyStream.AllPiecesConcat(inputs);
      SmallPieces(pieces, j);
      k := ParserPrefix(link.version, limit, frames, out, largest);
    }
  }

  lemma SmallPieces(pieces: seq<SnappyStream.Piece>, k: nat)
    requires k <= |pieces|
    ensures forall p :: p in pieces[..k] ==> |p| <= SnappyStream.MAX_UNCOMPRESSED_CHUNK
  {}

  lemma SomethingEncoded(version: int, frames: seq<Frame>)
    ensures |EncodedFrames(version, frames)| == |frames|
  {}

  lemma NothingSent(link: Link, limit: nat, parts: seq<seq<byte>>)
    requires !link.nocomp && Concat(parts) <= Wire(link, [])
    ensures Receive(link, limit, parts) == Frames([], [], None) && Concat(parts) == Wire(link, [])
  {
    NothingFed(link, parts);
  }

  lemma {:induction false} NothingFed(link: Link, parts: seq<seq<byte>>)
    requires Concat(parts) == []
    ensures SnappyStream.Feed(link.lib, [], false, parts) == SnappyStream.Drained([], [], false, None)
    decreases |parts|
  {
    if parts != [] {
      NothingFed(link, parts[1..]);
      assert [] + parts[0] == [];
    }
  }

  // ----- one more frame on the wire

  lemma {:induction false} EncodedFramesAppend(version: int, frames: seq<Frame>, f: Frame)
    ensures EncodedFrames(version, frames + [f]) == EncodedFrames(version, frames) + [EncodedFrame(version, f)]
    decreases |frames|
  {
    hide EncodedFrame;
    if frames == [] {
      assert ([] + [f])[1..] == [];
      assert EncodedFrames(version, [f]) == [EncodedFrame(version, f)] + EncodedFrames(version, []);
    } else {
      assert (frames + [f])[1..] == frames[1..] + [f];
      EncodedFramesAppend(version, frames[1..], f);
    }
  }

  lemma {:induction false} EmittedAppend(lib: SnappyStream.Library, wrote: bool, inputs: seq<seq<byte>>, bytes: seq<byte>)
    ensures SnappyStream.Emitted(lib, wrote, inputs + [bytes])
         == SnappyStream.Emitted(lib, wrote, inputs) +
            ((if wrote || inputs != [] then [] else [SnappyStream.STREAM_IDENTIFIER]) +
             SnappyStream.EncodedAll(lib, SnappyStream.Pieces(bytes)))
    decreases |inputs|
  {
    hide SnappyStream.EncodedAll, SnappyStream.Pieces;
    if inputs == [] {
      assert [] + [bytes] == [bytes] && [bytes][1..] == [];
      assert SnappyStream.Emitted(lib, true, []) == [];
    } else {
      assert (inputs + [bytes])[1..] == inputs[1..] + [bytes];
      EmittedAppend(lib, true, inputs[1..], bytes);
    }
  }

  /** What sending one more frame adds to the bytes on the wire. */
  function Added(link: Link, first: bool, frame: seq<byte>): seq<seq<byte>> {
    if link.nocomp then [frame]
    else
      (if first then [SnappyStream.STREAM_IDENTIFIER] else []) +
      SnappyStream.EncodedAll(link.lib, SnappyStream.Pieces(frame))
  }

  lemma WireAppend(link: Link, frames: seq<Frame>, f: Frame)
    ensures Wire(link, frames + [f])
         == Wire(link, frames) + Concat(Added(link, frames == [], EncodedFrame(link.version, f)))
  {
    hide EncodedFrame, SnappyStream.Emitted, SnappyStream.EncodedAll, SnappyStream.Pieces, Concat;
    var inputs, bytes := EncodedFrames(link.version, frames), EncodedFrame(link.version, f);
    EncodedFramesAppend(link.version, frames, f);
    SomethingEncoded(link.version, frames);
    if link.nocomp {
      ConcatAppend(inputs, [bytes]);
    } else {
      EmittedAppend(link.lib, false, inputs, bytes);
      ConcatAppend(SnappyStream.Emitted(link.lib, false, inputs), Added(link, frames == [], bytes));
    }
  }
}

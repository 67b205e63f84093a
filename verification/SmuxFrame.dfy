/** The smux frame format and the frame parser of smux.cpp. */
module SmuxFrame {
  import opened Wrappers
  import opened Bytes

  const SMUX_HEADER_SIZE: nat := 8
  const SMUX_UPDATE_SIZE: nat := 8

  datatype Command = Syn | Fin | Psh | Nop | Upd

  /** A payload that the 16-bit length field can describe. */
  type FramePayload = bytes: seq<byte> | |bytes| < U16

  datatype Frame = Frame(command: Command, id: u32, payload: FramePayload)

  function CommandByte(c: Command): byte {
    match c
    case Syn => 0
    case Fin => 1
    case Psh => 2
    case Nop => 3
    case Upd => 4
  }

  function CommandOf(b: byte): Option<Command> {
    if b == 0 then Some(Syn)
    else if b == 1 then Some(Fin)
    else if b == 2 then Some(Psh)
    else if b == 3 then Some(Nop)
    else if b == 4 then Some(Upd)
    else None
  }

  lemma CommandRoundTrip(c: Command)
    ensures CommandOf(CommandByte(c)) == Some(c)
  {}

  /** The header byte of the configured version, a conversion that truncates. */
  function VersionByte(version: int): byte {
    ByteOf(version % 256)
  }

  /** Version, command, 16-bit length, stream number, payload. */
  function EncodedFrame(version: int, f: Frame): (bytes: seq<byte>)
    ensures |bytes| == SMUX_HEADER_SIZE + |f.payload|
  {
    [VersionByte(version), CommandByte(f.command)] + Le16(|f.payload|) + Le32(f.id) + f.payload
  }

  /** The frames that a session of this version sends and accepts. */
  ghost predicate WellFormed(version: int, f: Frame) {
    f.command.Upd? ==> version == 2 && |f.payload| == SMUX_UPDATE_SIZE
  }

  datatype Parsed = Wait | Bad(error: string) | Got(frame: Frame, size: nat)

  /** What the parser makes of the front of its buffer. */
  function ParseFrame(version: int, buffer: seq<byte>): (p: Parsed)
    requires |buffer| >= SMUX_HEADER_SIZE
    ensures p.Got? ==> SMUX_HEADER_SIZE <= p.size <= |buffer|
  {
    if buffer[0] != VersionByte(version) then Bad("smux protocol version mismatch")
    else
      var length := FromLe16(buffer[2..]);
      if |buffer| < SMUX_HEADER_SIZE + length then Wait
      else
        match CommandOf(buffer[1])
        case None => Bad("invalid smux command")
        case Some(command) =>
          if command.Upd? && (version != 2 || length != SMUX_UPDATE_SIZE) then Bad("invalid smux update frame")
          else
            Got(Frame(command, FromLe32(buffer[4..]), buffer[SMUX_HEADER_SIZE..SMUX_HEADER_SIZE + length]),
                SMUX_HEADER_SIZE + length)
  }

  // ----- parsing inverts the layout

  lemma HeaderFields(version: int, f: Frame, tail: seq<byte>)
    ensures var buffer := EncodedFrame(version, f) + tail;
            FromLe16(buffer[2..]) == |f.payload| && FromLe32(buffer[4..]) == f.id &&
            buffer[0] == VersionByte(version) && buffer[1] == CommandByte(f.command)
  {
    hide Le16, Le32, FromLe16, FromLe32, VersionByte, CommandByte;
    var buffer := EncodedFrame(version, f) + tail;
    Le16RoundTrip(|f.payload|, Le32(f.id) + f.payload + tail);
    assert buffer[2..] == Le16(|f.payload|) + (Le32(f.id) + f.payload + tail);
    Le32RoundTrip(f.id, f.payload + tail);
    assert buffer[4..] == Le32(f.id) + (f.payload + tail);
  }

  lemma ParseEncoded(version: int, f: Frame, tail: seq<byte>)
    requires WellFormed(version, f)
    ensures ParseFrame(version, EncodedFrame(version, f) + tail) == Got(f, |EncodedFrame(version, f)|)
  {
    hide FromLe16, FromLe32, VersionByte, CommandByte, CommandOf;
    HeaderFields(version, f, tail);
    CommandRoundTrip(f.command);
    var buffer := EncodedFrame(version, f) + tail;
    assert buffer[SMUX_HEADER_SIZE..SMUX_HEADER_SIZE + |f.payload|] == f.payload;
  }

  lemma ParsePartial(version: int, f: Frame, n: nat)
    requires SMUX_HEADER_SIZE <= n < |EncodedFrame(version, f)|
    ensures ParseFrame(version, EncodedFrame(version, f)[..n]) == Wait
  {
    hide NatOf, VersionByte, CommandByte, CommandOf, Le16, Le32, FromLe32;
    HeaderFields(version, f, []);
    var frame := EncodedFrame(version, f);
    assert frame + [] == frame;
    assert frame[..n][2..][..2] == frame[2..][..2];
  }

  /** What is refused, read off the bytes: another version, and once the frame is complete an unknown command or an
      update that version 2 does not know or that has not its size. */
  ghost predicate Refused(version: int, buffer: seq<byte>)
    requires |buffer| >= SMUX_HEADER_SIZE
  {
    var length, command := FromLe16(buffer[2..]), NatOf(buffer[1]);
    || NatOf(buffer[0]) != version % 256
    || (|buffer| >= 8 + length && (command > 4 || (command == 4 && (version != 2 || length != 8))))
  }

  lemma ParserRefuses(version: int, buffer: seq<byte>)
    requires |buffer| >= SMUX_HEADER_SIZE
    ensures ParseFrame(version, buffer).Bad? <==> Refused(version, buffer)
  {
    hide FromLe16, FromLe32, NatOf, ByteOf;
    NatOfByteOf(version % 256);
    ByteOfNatOf(buffer[0]);
    CommandOfByte(buffer[1]);
  }

  lemma CommandOfByte(b: byte)
    ensures CommandOf(b).None? <==> NatOf(b) > 4
    ensures CommandOf(b) == Some(Upd) <==> NatOf(b) == 4
  {
    NatOfBound(b);
    SmallNats();
    ByteOfNatOf(b);
    assert forall n :: 0 <= n <= 4 && NatOf(b) == n ==> b == ByteOf(n);
  }

  lemma SmallNats()
    ensures NatOf(0) == 0 && NatOf(1) == 1 && NatOf(2) == 2 && NatOf(3) == 3 && NatOf(4) == 4
  {}

  lemma ParseMore(version: int, buffer: seq<byte>, more: seq<byte>)
    requires |buffer| >= SMUX_HEADER_SIZE && !ParseFrame(version, buffer).Wait?
    ensures ParseFrame(version, buffer + more) == ParseFrame(version, buffer)
  {
    hide NatOf, VersionByte, CommandOf;
    assert FromLe16((buffer + more)[2..]) == FromLe16(buffer[2..]);
    assert FromLe32((buffer + more)[4..]) == FromLe32(buffer[4..]);
    var length := FromLe16(buffer[2..]);
    if |buffer| >= SMUX_HEADER_SIZE + length {
      var end := SMUX_HEADER_SIZE + length;
      assert (buffer + more)[SMUX_HEADER_SIZE..end] == buffer[SMUX_HEADER_SIZE..end];
    }
  }

  // ----- the frames in a buffer

  datatype Frames = Frames(frames: seq<Frame>, rest: seq<byte>, error: Option<string>)

  function Before(frames: seq<Frame>, p: Frames): Frames {
    p.(frames := frames + p.frames)
  }

  lemma BeforeBefore(a: seq<Frame>, b: seq<Frame>, p: Frames)
    ensures Before(a, Before(b, p)) == Before(a + b, p) && Before([], p) == p
  {}

  /** All complete frames at the front of the buffer, up to the first bad one. */
  function Split(version: int, buffer: seq<byte>): Frames
    decreases |buffer|
  {
    if |buffer| < SMUX_HEADER_SIZE then Frames([], buffer, None)
    else
      match ParseFrame(version, buffer)
      case Wait => Frames([], buffer, None)
      case Bad(error) => Frames([], buffer, Some(error))
      case Got(frame, size) => Before([frame], Split(version, buffer[size..]))
  }

  lemma SplitUnfold(version: int, buffer: seq<byte>)
    ensures |buffer| < SMUX_HEADER_SIZE || ParseFrame(version, buffer).Wait? ==>
      Split(version, buffer) == Frames([], buffer, None)
    ensures |buffer| >= SMUX_HEADER_SIZE && ParseFrame(version, buffer).Bad? ==>
      Split(version, buffer) == Frames([], buffer, Some(ParseFrame(version, buffer).error))
    ensures |buffer| >= SMUX_HEADER_SIZE && ParseFrame(version, buffer).Got? ==>
      var p := ParseFrame(version, buffer); Split(version, buffer) == Before([p.frame], Split(version, buffer[p.size..]))
  {
    hide ParseFrame, Before;
  }

  /** What is left over while the session goes on is less than one largest frame. */
  lemma {:induction false} LeftoverBound(version: int, buffer: seq<byte>)
    requires Split(version, buffer).error.None?
    ensures |Split(version, buffer).rest| < SMUX_HEADER_SIZE + U16 - 1
    decreases |buffer|
  {
    hide NatOf, CommandOf, VersionByte;
    if |buffer| >= SMUX_HEADER_SIZE && ParseFrame(version, buffer).Got? {
      LeftoverBound(version, buffer[ParseFrame(version, buffer).size..]);
    }
  }

  lemma {:induction false} SplitMore(version: int, buffer: seq<byte>, more: seq<byte>)
    ensures var p, whole := Split(version, buffer), Split(version, buffer + more);
            if p.error.Some? then whole.error == p.error && whole.frames == p.frames
            else whole == Before(p.frames, Split(version, p.rest + more))
    decreases |buffer|
  {
    hide ParseFrame, Split;
    SplitUnfold(version, buffer);
    SplitUnfold(version, buffer + more);
    if |buffer| < SMUX_HEADER_SIZE || ParseFrame(version, buffer).Wait? {
      BeforeBefore([], [], Split(version, buffer + more));
    } else {
      ParseMore(version, buffer, more);
      if ParseFrame(version, buffer).Got? {
        var p := ParseFrame(version, buffer);
        assert (buffer + more)[p.size..] == buffer[p.size..] + more;
        SplitMore(version, buffer[p.size..], more);
        var rest := Split(version, buffer[p.size..]);
        BeforeBefore([p.frame], rest.frames, Split(version, rest.rest + more));
      }
    }
  }

  function EncodedFrames(version: int, frames: seq<Frame>): seq<seq<byte>>
  {
    if frames == [] then [] else [EncodedFrame(version, frames[0])] + EncodedFrames(version, frames[1..])
  }

  /** One call after another, with the limit on the receive buffer. */
  function FeedFrames(version: int, limit: nat, buffer: seq<byte>, parts: seq<seq<byte>>): Frames
    decreases |parts|
  {
    if parts == [] then Frames([], buffer, None)
    else if |buffer| + |parts[0]| > limit then Frames([], buffer, Some("smux receive buffer overflow"))
    else
      var p := Split(version, buffer + parts[0]);
      if p.error.Some? then p else Before(p.frames, FeedFrames(version, limit, p.rest, parts[1..]))
  }

  /** With room for the largest leftover and the largest part, the frames depend only on the bytes in all. */
  lemma {:induction false} FeedIsSplit(version: int, limit: nat, buffer: seq<byte>, parts: seq<seq<byte>>, largest: nat)
    requires parts != [] && |buffer| < SMUX_HEADER_SIZE + U16 - 1
    requires forall p :: p in parts ==> |p| <= largest
    requires limit >= SMUX_HEADER_SIZE + U16 - 2 + largest
    ensures var fed, whole := FeedFrames(version, limit, buffer, parts), Split(version, buffer + Concat(parts));
            fed.frames == whole.frames && fed.error == whole.error && (fed.error.None? ==> fed == whole)
    decreases |parts|
  {
    hide ParseFrame, Split;
    var p, rest := Split(version, buffer + parts[0]), parts[1..];
    assert parts[0] in parts;
    assert buffer + Concat(parts) == buffer + parts[0] + Concat(rest);
    SplitMore(version, buffer + parts[0], Concat(rest));
    if rest == [] {
      assert buffer + parts[0] + Concat(rest) == buffer + parts[0];
    } else if p.error.None? {
      LeftoverBound(version, buffer + parts[0]);
      FeedIsSplit(version, limit, p.rest, rest, largest);
    }
  }

  ghost predicate AllWellFormed(version: int, frames: seq<Frame>) {
    forall f :: f in frames ==> WellFormed(version, f)
  }

  /** A prefix of encoded frames splits into a prefix of the frames and less than one frame more. */
  lemma {:induction false} SplitEncoded(version: int, frames: seq<Frame>, wire: seq<byte>) returns (k: nat)
    requires AllWellFormed(version, frames) && wire <= Concat(EncodedFrames(version, frames))
    ensures k <= |frames|
    ensures Split(version, wire).frames == frames[..k] && Split(version, wire).error.None?
    ensures wire == Concat(EncodedFrames(version, frames)) ==> k == |frames| && Split(version, wire).rest == []
    decreases |frames|
  {
    hide ParseFrame, EncodedFrame, Split;
    SplitUnfold(version, wire);
    if frames == [] {
      k := 0;
      return;
    }
    var bytes, rest := EncodedFrame(version, frames[0]), frames[1..];
    assert frames[0] in frames;
    if |wire| < |bytes| {
      k := 0;
      assert wire == bytes[..|wire|];
      if |wire| >= SMUX_HEADER_SIZE {
        ParsePartial(version, frames[0], |wire|);
      }
    } else {
      var tail := wire[|bytes|..];
      assert wire == bytes + tail;
      ParseEncoded(version, frames[0], tail);
      var k' := SplitEncoded(version, rest, tail);
      k := k' + 1;
      assert frames[..k] == [frames[0]] + rest[..k'];
    }
  }
}

/** Ciphers that treat each byte by its position in the stream. */
module Ciphers {
  import opened Bytes

  /** A cipher that depends on the position of a byte in its stream; the identity when there is no pad. */
  datatype StreamCipher = StreamCipher(enc: (nat, byte) -> byte, dec: (nat, byte) -> byte)

  ghost predicate LawfulCipher(c: StreamCipher) {
    forall n: nat, b: byte :: c.dec(n, c.enc(n, b)) == b
  }

  function EncAt(c: StreamCipher, pos: nat, data: seq<byte>): (r: seq<byte>)
    ensures |r| == |data|
  {
    seq(|data|, i requires 0 <= i < |data| => c.enc(pos + i, data[i]))
  }

  function DecAt(c: StreamCipher, pos: nat, data: seq<byte>): (r: seq<byte>)
    ensures |r| == |data|
  {
    seq(|data|, i requires 0 <= i < |data| => c.dec(pos + i, data[i]))
  }

  lemma EncSplit(c: StreamCipher, pos: nat, a: seq<byte>, b: seq<byte>)
    ensures EncAt(c, pos, a + b) == EncAt(c, pos, a) + EncAt(c, pos + |a|, b)
  {}

  lemma DecSplit(c: StreamCipher, pos: nat, a: seq<byte>, b: seq<byte>)
    ensures DecAt(c, pos, a + b) == DecAt(c, pos, a) + DecAt(c, pos + |a|, b)
  {}

  lemma DecEnc(c: StreamCipher, pos: nat, data: seq<byte>)
    requires LawfulCipher(c)
    ensures DecAt(c, pos, EncAt(c, pos, data)) == data
  {
    forall i | 0 <= i < |data| ensures DecAt(c, pos, EncAt(c, pos, data))[i] == data[i] {
      assert c.dec(pos + i, c.enc(pos + i, data[i])) == data[i];
    }
  }

  // ----- call after call

  function EncCalls(c: StreamCipher, pos: nat, calls: seq<seq<byte>>): seq<byte>
    decreases |calls|
  {
    if calls == [] then [] else EncAt(c, pos, calls[0]) + EncCalls(c, pos + |calls[0]|, calls[1..])
  }

  function DecCalls(c: StreamCipher, pos: nat, calls: seq<seq<byte>>): seq<byte>
    decreases |calls|
  {
    if calls == [] then [] else DecAt(c, pos, calls[0]) + DecCalls(c, pos + |calls[0]|, calls[1..])
  }

  lemma {:induction false} EncCallsJoined(c: StreamCipher, pos: nat, calls: seq<seq<byte>>)
    ensures EncCalls(c, pos, calls) == EncAt(c, pos, Concat(calls))
    decreases |calls|
  {
    hide EncAt;
    if calls == [] {
      assert EncAt(c, pos, []) == [];
    } else {
      EncCallsJoined(c, pos + |calls[0]|, calls[1..]);
      EncSplit(c, pos, calls[0], Concat(calls[1..]));
    }
  }

  lemma {:induction false} DecCallsJoined(c: StreamCipher, pos: nat, calls: seq<seq<byte>>)
    ensures DecCalls(c, pos, calls) == DecAt(c, pos, Concat(calls))
    decreases |calls|
  {
    hide DecAt;
    if calls == [] {
      assert DecAt(c, pos, []) == [];
    } else {
      DecCallsJoined(c, pos + |calls[0]|, calls[1..]);
      DecSplit(c, pos, calls[0], Concat(calls[1..]));
    }
  }

  /** Decrypting under any split restores what was encrypted under any other split. */
  lemma CallsRoundTrip(c: StreamCipher, plain: seq<seq<byte>>, cipher: seq<seq<byte>>)
    requires LawfulCipher(c) && Concat(cipher) == EncCalls(c, 0, plain)
    ensures DecCalls(c, 0, cipher) == Concat(plain)
  {
    hide LawfulCipher;
    EncCallsJoined(c, 0, plain);
    DecCallsJoined(c, 0, cipher);
    DecEnc(c, 0, Concat(plain));
  }
}

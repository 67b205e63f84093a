/** The stream object of qpp.cpp: it is the position-indexed cipher that smux relies on, at both ends of a tunnel. */
module QppStreams {
  import opened Bytes
  import opened Ciphers
  import opened Qpp

  /** Without a pad the bytes pass unchanged. */
  const PLAIN: StreamCipher := StreamCipher((n: nat, b: byte) => b, (n: nat, b: byte) => b)

  lemma PlainIsLawful()
    ensures LawfulCipher(PLAIN)
  {}

  /** A table is its pads. */
  lemma SlotsDetermine(a: seq<byte>, b: seq<byte>, numPads: nat)
    requires TableSize(a, numPads) && TableSize(b, numPads)
    requires forall p :: 0 <= p < numPads ==> (p + 1) * MATRIX_BYTES <= |a| && Slot(a, p) == Slot(b, p)
    ensures a == b
  {
    forall k | 0 <= k < |a| ensures a[k] == b[k] {
      var p := k / MATRIX_BYTES;
      assert 0 <= p < numPads;
      assert Slot(a, p)[k - p * MATRIX_BYTES] == Slot(b, p)[k - p * MATRIX_BYTES];
    }
  }

  /** The table that a seed determines. */
  ghost predicate TableFor(prims: Primitives, chunks: seq<seq<byte>>, aesKeys: seq<seq<byte>>, table: seq<byte>,
                           numPads: nat)
    requires Sized(prims) && |chunks| > 0
  {
    && TableSize(table, numPads)
    && forall p :: 0 <= p < numPads ==> IsPadOf(prims, chunks, aesKeys, table, p)
  }

  ghost predicate IsPadOf(prims: Primitives, chunks: seq<seq<byte>>, aesKeys: seq<seq<byte>>, table: seq<byte>, p: nat)
    requires Sized(prims) && |chunks| > 0
  {
    (p + 1) * MATRIX_BYTES <= |table| && Slot(table, p) == PadOf(prims, aesKeys, chunks[p % |chunks|], p)
  }

  /** Two ends that build their pads from the same seed: what one encrypts the other decrypts. */
  lemma SameSeedIsLawful(prims: Primitives, chunks: seq<seq<byte>>, aesKeys: seq<seq<byte>>, numPads: nat, words: Xoshiro,
                         here: seq<byte>, there: seq<byte>, rthere: seq<byte>)
    requires Sized(prims) && |chunks| > 0 && Reverses(there, rthere, numPads)
    requires TableFor(prims, chunks, aesKeys, here, numPads) && TableFor(prims, chunks, aesKeys, there, numPads)
    ensures TableSize(rthere, numPads) && LawfulCipher(PadCipher(here, rthere, numPads, words))
  {
    hide PadOf, Reverses, Sized;
    ReversesSizes(there, rthere, numPads);
    forall p | 0 <= p < numPads
      ensures (p + 1) * MATRIX_BYTES <= |here| && Slot(here, p) == Slot(there, p)
    {
      assert IsPadOf(prims, chunks, aesKeys, here, p) && IsPadOf(prims, chunks, aesKeys, there, p);
    }
    SlotsDetermine(here, there, numPads);
    PadCipherIsLawful(there, rthere, numPads, words);
  }

  class QppStream {
    const pad: QppPad?
    const writeRand: Rand
    const readRand: Rand
    /** The words that both generators started from, and how many bytes each has served. */
    ghost const words: Xoshiro
    ghost var written: nat
    ghost var read: nat

    ghost predicate Valid()
      reads this, writeRand, writeRand.xoshiro, readRand, readRand.xoshiro
      reads pad, if pad == null then {} else {pad.pads, pad.rpads}
    {
      && writeRand != readRand && writeRand.xoshiro != readRand.xoshiro
      && writeRand.Valid() && readRand.Valid()
      && (pad != null ==>
            && pad.Valid()
            && writeRand.State() == Advance(Fresh(words), written)
            && readRand.State() == Advance(Fresh(words), read))
    }

    /** The cipher that the stream applies. */
    ghost function Cipher(): StreamCipher
      requires Valid()
      reads this, writeRand, writeRand.xoshiro, readRand, readRand.xoshiro
      reads pad, if pad == null then {} else {pad.pads, pad.rpads}
    {
      if pad == null then PLAIN
      else
        ReversesSizes(pad.pads[..], pad.rpads[..], pad.numPads);
        PadCipher(pad.pads[..], pad.rpads[..], pad.numPads, words)
    }

    /** What the stream encrypts it also decrypts, with a pad or without. */
    lemma CipherIsLawful()
      requires Valid()
      ensures LawfulCipher(Cipher())
    {
      hide Reverses, PadCipher, LawfulCipher;
      if pad == null {
        PlainIsLawful();
      } else {
        PadCipherIsLawful(pad.pads[..], pad.rpads[..], pad.numPads, words);
      }
    }

    constructor (pad: QppPad?, words: Xoshiro)
      requires pad != null ==> pad.Valid()
      ensures Valid() && this.pad == pad && this.words == words && written == 0 && read == 0
    {
      this.pad := pad;
      this.words := words;
      writeRand := new Rand(words);
      readRand := new Rand(words);
      written, read := 0, 0;
    }

    method Encrypt(data: array<byte>)
      requires Valid() && (pad != null ==> data != pad.pads && data != pad.rpads)
      modifies data, this`written, writeRand, writeRand.xoshiro
      ensures Valid() && Cipher() == old(Cipher()) && written == old(written) + data.Length
      ensures data[..] == EncAt(Cipher(), old(written), old(data[..]))
    {
      hide EncryptByte, DecryptByte, Advance, Reverses, Encrypted, Decrypted, TableSize, Fresh;
      if pad != null {
        ReversesSizes(pad.pads[..], pad.rpads[..], pad.numPads);
        EncryptedIsEncAt(pad.pads[..], pad.rpads[..], pad.numPads, words, written, data[..]);
        AdvanceAdd(Fresh(words), written, data.Length);
        pad.Encrypt(data, writeRand);
      }
      written := written + data.Length;
    }

    method Decrypt(data: array<byte>)
      requires Valid() && (pad != null ==> data != pad.pads && data != pad.rpads)
      modifies data, this`read, readRand, readRand.xoshiro
      ensures Valid() && Cipher() == old(Cipher()) && read == old(read) + data.Length
      ensures data[..] == DecAt(Cipher(), old(read), old(data[..]))
    {
      hide EncryptByte, DecryptByte, Advance, Reverses, Encrypted, Decrypted, TableSize, Fresh;
      if pad != null {
        ReversesSizes(pad.pads[..], pad.rpads[..], pad.numPads);
        EncryptedIsEncAt(pad.pads[..], pad.rpads[..], pad.numPads, words, read, data[..]);
        AdvanceAdd(Fresh(words), read, data.Length);
        pad.Decrypt(data, readRand);
      }
      read := read + data.Length;
    }
  }
}

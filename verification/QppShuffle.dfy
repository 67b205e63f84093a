/** What the shuffle of qpp.cpp does to a pad, told by the choices that the running digest makes. */
module QppShuffle {
  import opened Bytes
  import opened Numbers
  import opened Qpp

  // ----- the running digest

  /** One block under every key in turn. */
  function Chained(prims: Primitives, aesKeys: seq<seq<byte>>, block: seq<byte>): seq<byte>
    decreases |aesKeys|
  {
    if aesKeys == [] then block else Chained(prims, aesKeys[1..], prims.aes(aesKeys[0], block))
  }

  /** The two halves of the digest are encrypted apart, each under every key in the order of the keys. */
  lemma {:induction false} StirredIsChained(prims: Primitives, aesKeys: seq<seq<byte>>, sum: seq<byte>)
    requires Sized(prims) && |sum| == 32
    ensures Stirred(prims, aesKeys, sum) == Chained(prims, aesKeys, sum[..16]) + Chained(prims, aesKeys, sum[16..])
    decreases |aesKeys|
  {
    if aesKeys == [] {
      assert sum == sum[..16] + sum[16..];
    } else {
      var once := StirredOnce(prims, aesKeys[0], sum);
      assert once[..16] == prims.aes(aesKeys[0], sum[..16]) && once[16..] == prims.aes(aesKeys[0], sum[16..]);
      StirredIsChained(prims, aesKeys[1..], once);
    }
  }

  /** The running digest after the given number of turns. */
  function DigestAt(prims: Primitives, aesKeys: seq<seq<byte>>, sum: seq<byte>, turns: nat): (digest: seq<byte>)
    requires Sized(prims) && |sum| == 32
    ensures |digest| == 32
  {
    if turns == 0 then sum else Stirred(prims, aesKeys, DigestAt(prims, aesKeys, sum, turns - 1))
  }

  lemma {:induction false} DigestLater(prims: Primitives, aesKeys: seq<seq<byte>>, sum: seq<byte>, turns: nat)
    requires Sized(prims) && |sum| == 32
    ensures DigestAt(prims, aesKeys, Stirred(prims, aesKeys, sum), turns) == DigestAt(prims, aesKeys, sum, turns + 1)
    decreases turns
  {
    hide Stirred;
    if turns > 0 {
      DigestLater(prims, aesKeys, sum, turns - 1);
    }
  }

  // ----- shuffles told by their choices

  /** Each place from the last one down exchanges with the place chosen for it, which does not lie behind it;
      states[i] is the pad after the turn of place i. */
  ghost predicate IsShuffle(choices: seq<nat>, states: seq<seq<byte>>) {
    && |states| == |choices| + 1
    && (forall s :: s in states ==> |s| >= |choices|)
    && forall i :: 0 <= i < |choices| ==> Turn(states[i + 1], states[i], i, choices[i])
  }

  ghost predicate Turn(before: seq<byte>, after: seq<byte>, i: nat, j: nat) {
    j <= i < |before| && Exchanged(before, after, i, j)
  }

  /** Once a place has had its turn, no later turn touches it. */
  lemma {:induction false} PlaceSettles(choices: seq<nat>, states: seq<seq<byte>>, k: nat, i: nat)
    requires IsShuffle(choices, states) && i <= |choices|
    requires i <= k < |states[i]|
    ensures |states[0]| == |states[i]| && states[0][k] == states[i][k]
    decreases i
  {
    if i > 0 {
      assert Turn(states[i - 1 + 1], states[i - 1], i - 1, choices[i - 1]);
      PlaceSettles(choices, states, k, i - 1);
    }
  }

  /** Place i of the result is what stood at the chosen place when its turn came. */
  lemma PlaceIsChosen(choices: seq<nat>, states: seq<seq<byte>>, i: nat)
    requires IsShuffle(choices, states) && i < |choices|
    ensures i < |states[0]| && choices[i] < |states[i + 1]| && states[0][i] == states[i + 1][choices[i]]
  {
    assert Turn(states[i + 1], states[i], i, choices[i]);
    PlaceSettles(choices, states, i, i);
  }

  /** Two shuffles of the same pad to the same result have gone the same way, at least down to place k. */
  lemma {:induction false} SameResultSameWay(choices: seq<nat>, states: seq<seq<byte>>, choices': seq<nat>,
                                             states': seq<seq<byte>>, k: nat)
    requires IsShuffle(choices, states) && IsShuffle(choices', states') && |choices| == |choices'|
    requires states[|choices|] == states'[|choices|] && AllDifferent(states[|choices|]) && states[0] == states'[0]
    requires k <= |choices|
    ensures states[k] == states'[k] && AllDifferent(states[k]) && choices[k..] == choices'[k..]
    decreases |choices| - k
  {
    hide Exchanged;
    if k < |choices| {
      SameResultSameWay(choices, states, choices', states', k + 1);
      PlaceIsChosen(choices, states, k);
      PlaceIsChosen(choices', states', k);
      assert choices[k] == choices'[k];
      assert Turn(states[k + 1], states[k], k, choices[k]) && Turn(states'[k + 1], states'[k], k, choices'[k]);
      SameExchange(states[k + 1], states[k], states'[k], k, choices[k]);
      ExchangeKeepsDifferent(states[k + 1], states[k], k, choices[k]);
      assert choices[k..] == [choices[k]] + choices[k + 1..] && choices'[k..] == [choices'[k]] + choices'[k + 1..];
    }
  }

  lemma SameExchange(pad: seq<byte>, a: seq<byte>, b: seq<byte>, i: nat, j: nat)
    requires i < |pad| && j < |pad| && Exchanged(pad, a, i, j) && Exchanged(pad, b, i, j)
    ensures a == b
  {}

  /** Different choices end in different pads. */
  lemma DifferentChoicesDifferentPads(choices: seq<nat>, states: seq<seq<byte>>, choices': seq<nat>,
                                      states': seq<seq<byte>>)
    requires IsShuffle(choices, states) && IsShuffle(choices', states') && |choices| == |choices'|
    requires states[|choices|] == states'[|choices|] && AllDifferent(states[|choices|])
    ensures states[0] == states'[0] <==> choices == choices'
  {
    hide Turn, AllDifferent;
    if states[0] == states'[0] {
      SameResultSameWay(choices, states, choices', states', 0);
      assert choices[0..] == choices && choices'[0..] == choices';
    }
    if choices == choices' {
      SameChoicesSameStates(choices, states, states', 0);
    }
  }

  lemma ShuffleMore(choices: seq<nat>, states: seq<seq<byte>>, j: nat, pad: seq<byte>)
    requires IsShuffle(choices, states) && |pad| > |choices| && j <= |choices|
    requires forall s :: s in states ==> |s| == |pad|
    requires Exchanged(pad, states[|choices|], |choices|, j)
    ensures IsShuffle(choices + [j], states + [pad])
  {
    hide Exchanged;
    var more, moreStates := choices + [j], states + [pad];
    forall i | 0 <= i < |more| ensures Turn(moreStates[i + 1], moreStates[i], i, more[i]) {
      if i < |choices| {
        assert Turn(states[i + 1], states[i], i, choices[i]);
      }
    }
  }

  /** The pad agrees with the result from place n on, and holds all that the result holds. */
  ghost predicate ReadyBelow(pad: seq<byte>, result: seq<byte>, n: nat) {
    && |pad| == |result| && n <= |pad| && AllDifferent(pad) && AllDifferent(result)
    && (forall k :: n <= k < |pad| ==> pad[k] == result[k])
    && forall k :: 0 <= k < |result| ==> result[k] in pad
  }

  /** What place n must hold does not stand behind it. */
  lemma StandsBefore(pad: seq<byte>, result: seq<byte>, n: nat) returns (j: nat)
    requires ReadyBelow(pad, result, n + 1)
    ensures j <= n && pad[j] == result[n]
  {
    assert result[n] in pad;
    j :| 0 <= j < |pad| && pad[j] == result[n];
  }

  /** One exchange puts place n in order. */
  lemma BringInPlace(pad: seq<byte>, result: seq<byte>, n: nat) returns (j: nat, swapped: seq<byte>)
    requires ReadyBelow(pad, result, n + 1)
    ensures j <= n && Exchanged(pad, swapped, n, j) && ReadyBelow(swapped, result, n)
  {
    hide AllDifferent;
    j := StandsBefore(pad, result, n);
    swapped := Swapped(pad, n, j);
    hide Swapped;
    ExchangeKeepsDifferent(pad, swapped, n, j);
    forall k | 0 <= k < |result| ensures result[k] in swapped {
      ExchangeKeepsValue(pad, swapped, n, j, result[k]);
    }
  }

  /** Any arrangement is the result of some choices: with the lemma before, of exactly one sequence of them. */
  lemma {:induction false} EveryArrangementIsReached(pad: seq<byte>, result: seq<byte>, n: nat)
    returns (choices: seq<nat>, states: seq<seq<byte>>)
    requires ReadyBelow(pad, result, n)
    ensures |choices| == n && IsShuffle(choices, states) && states[n] == pad && states[0] == result
    ensures forall s :: s in states ==> |s| == |pad|
    decreases n
  {
    hide AllDifferent, Exchanged;
    if n == 0 {
      choices, states := [], [pad];
    } else {
      var j, swapped := BringInPlace(pad, result, n - 1);
      var front, frontStates := EveryArrangementIsReached(swapped, result, n - 1);
      ShuffleMore(front, frontStates, j, pad);
      choices, states := front + [j], frontStates + [pad];
    }
  }

  lemma {:induction false} SameChoicesSameStates(choices: seq<nat>, states: seq<seq<byte>>, states': seq<seq<byte>>,
                                                 k: nat)
    requires IsShuffle(choices, states) && IsShuffle(choices, states') && k <= |choices|
    requires states[|choices|] == states'[|choices|]
    ensures states[k] == states'[k]
    decreases |choices| - k
  {
    hide Exchanged;
    if k < |choices| {
      SameChoicesSameStates(choices, states, states', k + 1);
      assert Turn(states[k + 1], states[k], k, choices[k]) && Turn(states'[k + 1], states'[k], k, choices[k]);
      SameExchange(states[k + 1], states[k], states'[k], k, choices[k]);
    }
  }

  // ----- the shuffle of a pad

  /** The place chosen for place i: the digest of its turn, as one big-endian number, modulo the places that are left.
      */
  function Choice(prims: Primitives, aesKeys: seq<seq<byte>>, sum: seq<byte>, top: nat, i: nat): (j: nat)
    requires Sized(prims) && |sum| == 32 && i <= top
    ensures j <= i
  {
    BigEndian(DigestAt(prims, aesKeys, sum, top + 1 - i)) % (i + 1)
  }

  function Choices(prims: Primitives, aesKeys: seq<seq<byte>>, sum: seq<byte>, top: nat): (choices: seq<nat>)
    requires Sized(prims) && |sum| == 32
    ensures |choices| == top + 1
  {
    seq(top + 1, i requires 0 <= i <= top => Choice(prims, aesKeys, sum, top, i))
  }

  lemma ChoicesLater(prims: Primitives, aesKeys: seq<seq<byte>>, sum: seq<byte>, top: nat)
    requires Sized(prims) && |sum| == 32 && top > 0
    ensures Choices(prims, aesKeys, sum, top)
         == Choices(prims, aesKeys, Stirred(prims, aesKeys, sum), top - 1) + [Choice(prims, aesKeys, sum, top, top)]
  {
    hide Stirred, BigEndian, DigestAt;
    forall i: nat | i < top
      ensures Choice(prims, aesKeys, sum, top, i) == Choice(prims, aesKeys, Stirred(prims, aesKeys, sum), top - 1, i)
    {
      DigestLater(prims, aesKeys, sum, top - i);
    }
  }

  /** The pad as shuffled, with all its states on the way. */
  lemma {:induction false} ShuffledIsShuffle(prims: Primitives, aesKeys: seq<seq<byte>>, pad: seq<byte>, sum: seq<byte>,
                                             top: nat) returns (states: seq<seq<byte>>)
    requires Sized(prims) && |sum| == 32 && |pad| == MATRIX_BYTES && top < MATRIX_BYTES
    ensures IsShuffle(Choices(prims, aesKeys, sum, top), states)
    ensures states[top + 1] == pad && states[0] == Shuffled(prims, aesKeys, pad, sum, top)
    ensures forall s :: s in states ==> |s| == MATRIX_BYTES
    decreases top
  {
    hide Stirred, BigEndian, Swapped;
    var j := Choice(prims, aesKeys, sum, top, top);
    if top == 0 {
      states := [pad, pad];
      assert Choices(prims, aesKeys, sum, top)[0] == 0;
    } else {
      var stirred := Stirred(prims, aesKeys, sum);
      assert DigestAt(prims, aesKeys, sum, 1) == stirred by {
        assert DigestAt(prims, aesKeys, sum, 0) == sum;
      }
      var front := ShuffledIsShuffle(prims, aesKeys, Swapped(pad, top, j), stirred, top - 1);
      states := front + [pad];
      ChoicesLater(prims, aesKeys, sum, top);
      hide DigestAt, Shuffled, Choices, Choice;
      ShuffleMore(Choices(prims, aesKeys, stirred, top - 1), front, j, pad);
      ShuffleStep(prims, aesKeys, pad, sum, top);
    }
  }

  /** The choices for the pad of the given number. */
  function PadChoices(prims: Primitives, aesKeys: seq<seq<byte>>, chunk: seq<byte>, p: nat): (choices: seq<nat>)
    requires Sized(prims)
    ensures |choices| == MATRIX_BYTES
  {
    Choices(prims, aesKeys, prims.hmac(chunk, p), MATRIX_BYTES - 1)
  }

  /** The pad of the given number comes from the identity by exchanges, the last place first; place i holds what stood
      at the place that the digest of its turn, as a big-endian number modulo i + 1, names. */
  lemma PadIsShuffled(prims: Primitives, aesKeys: seq<seq<byte>>, chunk: seq<byte>, p: nat)
    returns (states: seq<seq<byte>>)
    requires Sized(prims)
    ensures IsShuffle(PadChoices(prims, aesKeys, chunk, p), states)
    ensures states[MATRIX_BYTES] == IdentityPad() && states[0] == PadOf(prims, aesKeys, chunk, p)
    ensures forall i: nat :: i < MATRIX_BYTES ==> FromDigest(prims, aesKeys, prims.hmac(chunk, p), states, i)
  {
    hide IsShuffle, Shuffled, BigEndian, DigestAt, IdentityPad;
    var sum := prims.hmac(chunk, p);
    HmacSize(prims, chunk, p);
    states := ShuffledIsShuffle(prims, aesKeys, IdentityPad(), sum, MATRIX_BYTES - 1);
    ShuffleLength(PadChoices(prims, aesKeys, chunk, p), states);
    forall i: nat | i < MATRIX_BYTES ensures FromDigest(prims, aesKeys, sum, states, i) {
      PlaceIsChosen(PadChoices(prims, aesKeys, chunk, p), states, i);
    }
  }

  ghost predicate FromDigest(prims: Primitives, aesKeys: seq<seq<byte>>, sum: seq<byte>, states: seq<seq<byte>>, i: nat)
    requires Sized(prims) && |sum| == 32 && i < MATRIX_BYTES < |states|
  {
    var j := BigEndian(DigestAt(prims, aesKeys, sum, MATRIX_BYTES - i)) % (i + 1);
    |states[0]| == |states[i + 1]| == MATRIX_BYTES && states[0][i] == states[i + 1][j]
  }

  lemma ShuffleLength(choices: seq<nat>, states: seq<seq<byte>>)
    requires IsShuffle(choices, states)
    ensures |states| == |choices| + 1
  {}

  lemma IdentityIsDifferent()
    ensures AllDifferent(IdentityPad())
  {
    hide ByteOf;
    IdentityIsPermutation(IdentityPad());
  }

  /** Two pads are the same exactly when the digests chose the same places for both. */
  lemma PadsDifferWithChoices(prims: Primitives, aesKeys: seq<seq<byte>>, chunk: seq<byte>, p: nat,
                              aesKeys': seq<seq<byte>>, chunk': seq<byte>, p': nat)
    requires Sized(prims)
    ensures PadOf(prims, aesKeys, chunk, p) == PadOf(prims, aesKeys', chunk', p')
       <==> PadChoices(prims, aesKeys, chunk, p) == PadChoices(prims, aesKeys', chunk', p')
  {
    hide IsShuffle, PadOf, PadChoices, IdentityPad, AllDifferent, FromDigest;
    var states := PadIsShuffled(prims, aesKeys, chunk, p);
    var states' := PadIsShuffled(prims, aesKeys', chunk', p');
    ShuffleLength(PadChoices(prims, aesKeys, chunk, p), states);
    ShuffleLength(PadChoices(prims, aesKeys', chunk', p'), states');
    IdentityIsDifferent();
    DifferentChoicesDifferentPads(PadChoices(prims, aesKeys, chunk, p), states,
                                  PadChoices(prims, aesKeys', chunk', p'), states');
  }
}

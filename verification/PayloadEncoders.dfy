/** Typed-action payloads: the TypeScript codec encodes locks and cancellations
    itself, and agrees with the coordinator wherever the coordinator encodes. */
module PayloadEncoders {
  import opened ByteStrings
  import opened Rlp
  import opened Abi
  import opened Envelope
  import opened MessageEncoders

  /** The words of the three payloads the codec knows. */
  function CodecPayloadWords(bigInt: string -> Option<int>, action: TypedAction): Option<seq<Option<Bytes>>> {
    match action
    case CanonicalUftLock(lockId, loanId, canonicalToken, homeBridgeHub, wrappedToken, recipient, amount) =>
      Some([ExactBytes(lockId, 32), ExactBytes(loanId, 32), CheckedAddress(canonicalToken), CheckedAddress(homeBridgeHub),
            CheckedAddress(wrappedToken), CheckedAddress(recipient), ChainWord(bigInt, amount)])
    case LoanCancellationRequested(id, loanId, lockId, messageId, tombstone, account, lender, token, amount, policy, reason) =>
      Some([ExactBytes(id, 32), ExactBytes(loanId, 32), ExactBytes(lockId, 32), ExactBytes(messageId, 32),
            ExactBytes(tombstone, 32), CheckedAddress(account), CheckedAddress(lender), CheckedAddress(token),
            ChainWord(bigInt, amount), ExactBytes(policy, 32), ExactBytes(reason, 32)])
    case SatelliteFundingCancelled(id, loanId, lockId, messageId, tombstone, burn, account, lender, token, amount, policy) =>
      Some([ExactBytes(id, 32), ExactBytes(loanId, 32), ExactBytes(lockId, 32), ExactBytes(messageId, 32),
            ExactBytes(tombstone, 32), ExactBytes(burn, 32), CheckedAddress(account), CheckedAddress(lender),
            CheckedAddress(token), ChainWord(bigInt, amount), ExactBytes(policy, 32)])
    case _ => None
  }

  function CodecPayload(bigInt: string -> Option<int>, action: TypedAction): Option<Bytes> {
    match CodecPayloadWords(bigInt, action)
    case None => None
    case Some(words) => if AllSome(words) then Some(Concat(Values(words))) else None
  }

  function Encoded(words: seq<Word>): (r: seq<Option<Bytes>>)
    ensures |r| == |words|
    ensures forall i :: 0 <= i < |words| ==> r[i] == EncodeWord(words[i])
  {
    seq(|words|, i requires 0 <= i < |words| => EncodeWord(words[i]))
  }

  /** The static encoding is all words, when every word encodes. */
  lemma {:induction false} StaticIsConcat(words: seq<Word>)
    ensures EncodeStatic(words)
            == if AllSome(Encoded(words)) then Some(Concat(Values(Encoded(words)))) else None
    decreases |words|
  {
    hide EncodeWord;
    if words != [] {
      var all, rest := Encoded(words), Encoded(words[1..]);
      assert all[1..] == rest;
      StaticIsConcat(words[1..]);
      if EncodeWord(words[0]).Some? && AllSome(rest) {
        forall i | 0 <= i < |all| ensures all[i].Some? {
          if i > 0 {
            assert all[i] == rest[i - 1];
          }
        }
        assert Values(all)[1..] == Values(rest);
      }
    }
  }

  lemma AmountReads(bigInt: string -> Option<int>, amount: string)
    requires ReadsDecimals(bigInt) && EncodeWord(AmountWord(amount)).Some?
    ensures ChainWord(bigInt, amount) == EncodeWord(AmountWord(amount))
  {
    hide UintWord, Uint256;
    ChainWordReads(bigInt, amount);
  }

  lemma WordsMatch(bigInt: string -> Option<int>, action: TypedAction)
    requires ReadsDecimals(bigInt) && AllSome(Encoded(ActionWords(action)))
    requires CodecPayloadWords(bigInt, action).Some?
    ensures CodecPayloadWords(bigInt, action).value == Encoded(ActionWords(action))
  {
    hide ReadsDecimals, UintWord, Uint256, ChainWord;
    var words := Encoded(ActionWords(action));
    match action
    case CanonicalUftLock(_, _, _, _, _, _, amount) =>
      assert words[6].Some?;
      AmountReads(bigInt, amount);
    case LoanCancellationRequested(_, _, _, _, _, _, _, _, amount, _, _) =>
      assert words[8].Some?;
      AmountReads(bigInt, amount);
    case SatelliteFundingCancelled(_, _, _, _, _, _, _, _, _, amount, _) =>
      assert words[9].Some?;
      AmountReads(bigInt, amount);
    case _ =>
  }

  /** Whatever lock or cancellation the coordinator encodes, the codec encodes to the same
      bytes, so both commit to the same payload hash. */
  lemma PayloadEncodersAgree(bigInt: string -> Option<int>, e: Envelope)
    requires ReadsDecimals(bigInt) && EncodeTypedAction(e).Some?
    requires CodecPayloadWords(bigInt, e.typedAction.value).Some?
    ensures CodecPayload(bigInt, e.typedAction.value) == EncodeTypedAction(e)
  {
    hide ReadsDecimals, ActionWords, CodecPayloadWords, EncodeStatic, Encoded;
    var action := e.typedAction.value;
    StaticIsConcat(ActionWords(action));
    WordsMatch(bigInt, action);
  }
}

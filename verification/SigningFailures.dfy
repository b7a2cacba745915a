/**
 When a message ends a session, and with which failure: for every stage the exact conditions on what
 the host has sent, told with the lists of Phase 1 (firmware/signing.c:798-1175).
 */
module SigningFailures {
  import opened Bytes
  import opened Transaction
  import opened SigningModel
  import opened SigningPreimages
  import opened SigningChange

  /** The session is over, with this failure as the only reply. */
  predicate Fails(c: Outcome, kind: FailureKind)
  {
    !c.m.alive && c.replies == [Failure(kind)]
  }

  lemma Live(m: Model)
    requires Shape(m) && m.alive
    ensures FpAll(m.cfg.env, m.p1.seen)
    ensures InPrev(m) ==> |m.p1.seen| == m.idx1 + 1
    ensures m.stage.Request2PrevOutput? ==>
      |m.prev.outs| == m.idx2 < m.prev.head.outputsLen && m.p1.seen[m.idx1].prevIndex < m.prev.head.outputsLen
    ensures m.stage.Request2PrevExtraData? ==> m.p1.seen[m.idx1].prevIndex < |m.prev.outs|
    ensures m.stage.Request3Output? ==> m.p1.seen != [] && m.log.charges == []
    ensures m.stage.Request4Output? ==> m.idx1 < |m.pass.ins|
  {
    hide FpAll, Sums;
  }

  /** No message is taken outside a session. */
  lemma NotInSession(m: Model, a: Ack, ui: Choices)
    requires Shape(m) && !m.alive
    ensures Step(m, a, ui) == Outcome(m, [Failure(UnexpectedMessage)])
  {
  }

  /**
   Phase 1, an input whose fingerprint can be computed: refused if its script type is none of the
   four, if it is segwit and the coin is not, or if its amount counts as claimed and is missing or
   brings the sum to 2^64.
   */
  lemma InputRefused(m: Model, a: Ack, ui: Choices)
    requires Shape(m) && m.alive && m.stage.Request1Input?
    requires a.input.multisig.Some? ==> m.cfg.env.fingerprint(a.input.multisig.value).Some?
    ensures var i := a.input;
      var segwit, legacy := i.scriptType == 3 || i.scriptType == 4, i.scriptType == 0 || i.scriptType == 1;
      var claimed := segwit || (legacy && m.cfg.forceBip143);
      var refused := (!segwit && !legacy) || (segwit && !m.cfg.hasSegwit)
                     || (claimed && (!i.hasAmount || Total(m.p1.credits) + i.amount >= TWO64));
      if refused then Fails(Step(m, a, ui), DataError) else Step(m, a, ui).m.alive
  {
    hide FpOf, FpAll, Total, PathNext, CheckPreimage, PrevoutsPreimage, SequencesPreimage, ShapeOfStage, Sums;
    Live(m);
  }

  /** An input whose fingerprint is needed and cannot be computed ends the session. */
  lemma FingerprintFails(m: Model, a: Ack, ui: Choices)
    requires Shape(m) && m.alive && m.stage.Request1Input? && a.input.multisig.Some?
    requires m.cfg.env.fingerprint(a.input.multisig.value).None?
    ensures FpAll(m.cfg.env, m.p1.seen)
    ensures !FpOf(m.cfg.env, m.p1.seen).mismatch ==>
      !Step(m, a, ui).m.alive && |Step(m, a, ui).replies| == 2 && Step(m, a, ui).replies[0] == Failure(ProcessError)
  {
    hide FpOf, FpAll, Total, PathNext, CheckPreimage, PrevoutsPreimage, SequencesPreimage, ShapeOfStage, Sums;
    Live(m);
    OneReply(WithInput(m, a.input), a.input);
  }

  lemma OneReply(m: Model, i: TxInput)
    ensures |Credit1(m, i).replies| == 1
  {
  }

  /** The header of a previous transaction: the output spent must be there, and the counts fit 32 bits. */
  lemma MetaRefused(m: Model, a: Ack, ui: Choices)
    requires Shape(m) && m.alive && m.stage.Request2PrevMeta?
    ensures m.idx1 < |m.p1.seen|
    ensures if a.outputsCnt <= m.p1.seen[m.idx1].prevIndex || a.inputsCnt as int + a.outputsCnt as int >= TWO32
            then Fails(Step(m, a, ui), DataError) else Step(m, a, ui).m.alive
  {
    hide FpAll, ShapeOfStage, Sums, PreblockFor;
    Live(m);
  }

  /** The last piece of a previous transaction: what was streamed must have the hash that the input names. */
  lemma LastOutputRefused(m: Model, a: Ack, ui: Choices)
    requires Shape(m) && m.alive && m.stage.Request2PrevOutput?
    ensures m.idx1 < |m.p1.seen|
    ensures var i := m.p1.seen[m.idx1];
      var tx := m.prev.(outs := m.prev.outs + [a.binOutput]);
      var whole := |tx.outs| == m.prev.head.outputsLen && m.prev.extraLen == 0;
      if (m.idx2 == i.prevIndex && Total(m.p1.credits) + a.binOutput.amount >= TWO64)
         || (whole && Reverse(m.cfg.env.hash(tx.Stream())) != i.prevHash)
      then Fails(Step(m, a, ui), DataError) else Step(m, a, ui).m.alive
  {
    hide FpAll, ShapeOfStage, Sums, PrevTx.Stream, Reverse, Total, CheckPreimage, PrevoutsPreimage, SequencesPreimage;
    Live(m);
  }

  /**
   Extra data: an empty piece, or a sum above what was announced, is refused by the serializer; the
   last piece must complete the hash.
   */
  lemma ExtraDataRefused(m: Model, a: Ack, ui: Choices)
    requires Shape(m) && m.alive && m.stage.Request2PrevExtraData?
    ensures m.idx1 < |m.p1.seen|
    ensures var received := (|m.prev.extra| + |a.extraData|) % 0x1_0000_0000;
      var tx := m.prev.(extra := m.prev.extra + a.extraData);
      if a.extraData == [] || received > m.prev.extraLen then Fails(Step(m, a, ui), ProcessError)
      else if received == m.prev.extraLen && Reverse(m.cfg.env.hash(tx.Stream())) != m.p1.seen[m.idx1].prevHash
      then Fails(Step(m, a, ui), DataError) else Step(m, a, ui).m.alive
  {
    hide FpAll, ShapeOfStage, Sums, PrevTx.Stream, Reverse, CheckPreimage, PrevoutsPreimage, SequencesPreimage;
    Live(m);
    SumModulo(|m.prev.extra|, |a.extraData|);
  }

  lemma SumModulo(a: nat, b: nat)
    ensures (a % TWO32 + b) % TWO32 == (a + b) % TWO32
  {
  }

  /** Behind the last output: the inputs cover the outputs, and the user agrees to a high fee and to the total. */
  lemma FeeRefused(m: Model, ui: Choices)
    ensures var left := Total(m.p1.credits) - Spending(m.p1.shown);
      if left < 0 then Fails(CheckFee(m, ui), NotEnoughFunds)
      else if (4000 * left > m.weight * m.cfg.maxfeeKb % TWO64 && !ui.acceptHighFee) || !ui.confirmTx
      then Fails(CheckFee(m, ui), ActionCancelled)
      else CheckFee(m, ui).m.alive == m.alive
  {
    hide Total, TotalShown;
    FourThousandth(m.weight as int * m.cfg.maxfeeKb as int % TWO64, Total(m.p1.credits) - Spending(m.p1.shown));
  }

  /**
   Phase 1, an output: refused with a path and an address, with a sum of 2^64, if it cannot be
   compiled, or if the user has to confirm it and does not; and behind the last one for the fee.
   */
  lemma OutputRefused(m: Model, a: Ack, ui: Choices)
    requires Shape(m) && m.alive && m.stage.Request3Output?
    ensures var c, o := Step(m, a, ui), a.output;
      var left := Total(m.p1.credits) - Spending(m.p1.shown) - o.amount;
      var weight := (m.weight + m.cfg.env.outputWeight(o)) % 0x1_0000_0000;
      var goes := GoesBy(m.cfg.env, m.p1.seen, TotalClaimed(m.p1.credits), m.p1.shown, o);
      var last := m.idx1 == m.cfg.outputsCount - 1;
      if (o.addressN != [] && o.hasAddress) || Spending(m.p1.shown) + o.amount >= TWO64 then Fails(c, DataError)
      else if m.cfg.env.compileOutput(o).None? then Fails(c, ProcessError)
      else if !goes && !ui.confirmOutput then Fails(c, ActionCancelled)
      else if last && left < 0 then Fails(c, NotEnoughFunds)
      else if last && ((4000 * left > weight * m.cfg.maxfeeKb % TWO64 && !ui.acceptHighFee) || !ui.confirmTx)
      then Fails(c, ActionCancelled)
      else c.m.alive
  {
    hide FpAll, FpOf, IsChange, GoesBy, Total, TotalClaimed, TotalShown, PrintOuts, Bins, CheckFee, Shape,
         Spending, Phase1NextOutput, AddShown;
    Live(m);
    ChangeExactly(m, a.output);
    StepIsOutput(m, a, ui);
    if m.cfg.env.compileOutput(a.output).Some? {
      var s := Shown(a.output, TxOut(a.output.amount, m.cfg.env.compileOutput(a.output).value), !IsChange(m, a.output));
      NextRefused(m, s, ui);
    }
  }

  lemma StepIsOutput(m: Model, a: Ack, ui: Choices)
    requires Shape(m) && m.alive && m.stage.Request3Output?
    ensures FpAll(m.cfg.env, m.p1.seen) && m.idx1 < m.cfg.outputsCount
    ensures Step(m, a, ui) == Step3Output(m, a.output, ui)
  {
    hide FpAll, Sums, Step3Output;
  }

  /** Once an output is taken in: the next one is asked for, or the fee is checked. */
  lemma NextRefused(m: Model, s: Shown, ui: Choices)
    requires m.alive && m.idx1 < m.cfg.outputsCount
    ensures var c := Phase1NextOutput(AddShown(m, s), ui);
      var left := Total(m.p1.credits) - Spending(m.p1.shown) - s.bin.amount;
      var weight := (m.weight + m.cfg.env.outputWeight(s.output)) % 0x1_0000_0000;
      if m.idx1 < m.cfg.outputsCount - 1 then c.m.alive
      else if left < 0 then Fails(c, NotEnoughFunds)
      else if (4000 * left > weight * m.cfg.maxfeeKb % TWO64 && !ui.acceptHighFee) || !ui.confirmTx
      then Fails(c, ActionCancelled)
      else c.m.alive
  {
    hide Total, TotalShown, PrintOuts, Bins, CheckFee, Spending;
    var m' := AddShown(m, s);
    OneMoreSpent(m, m', s.bin.amount);
    FeeRefused(m'.Hashing({PrintOuts(Bins(m'.p1.shown))}), ui);
  }

  lemma OneMoreSpent(m: Model, m': Model, amount: uint64)
    requires |m'.p1.shown| > 0 && m'.p1.shown[..|m'.p1.shown| - 1] == m.p1.shown
    requires m'.p1.shown[|m.p1.shown|].bin.amount == amount
    ensures Spending(m'.p1.shown) == Spending(m.p1.shown) + amount
  {
  }

  lemma FourThousandth(x: nat, fee: int)
    ensures fee > x / 4000 <==> 4000 * fee > x
  {
  }

  /**
   A pass: the input that is signed must be of the account and of the keys of Phase 1 and have a
   script, and behind the last one all of them must have the checksum of Phase 1.
   */
  lemma PassInputRefused(m: Model, a: Ack, ui: Choices)
    requires Shape(m) && m.alive && m.stage.Request4Input?
    ensures FpAll(m.cfg.env, m.p1.seen)
    ensures var ins := (if m.idx2 == 0 then [] else m.pass.ins) + [a.input];
      var last := m.idx2 == m.cfg.inputsCount - 1;
      if m.idx2 == m.idx1 && CompileInput(m, a.input).None? then Fails(Step(m, a, ui), ProcessError)
      else if last && m.cfg.env.hash(CheckPreimage(ins)) != m.cfg.env.hash(CheckPreimage(m.p1.seen))
      then Fails(Step(m, a, ui), DataError)
      else Step(m, a, ui).m.alive
  {
    hide FpAll, FpOf, CompileInput, Sums, CheckPreimage;
    Live(m);
    LastInPass(m);
    if CompileInput(m, a.input).Some? {
      SameChecksum(m, a.input, CompileInput(m, a.input).value);
    }
    SameChecksum(m, a.input, []);
  }

  lemma LastInPass(m: Model)
    requires Shape(m) && m.alive && m.stage.Request4Input?
    ensures m.idx2 < m.cfg.inputsCount
  {
    hide FpAll, Sums;
  }

  lemma SameChecksum(m: Model, i: TxInput, script: Script)
    ensures var front := if m.idx2 == 0 then [] else m.pass.ins;
      CheckPreimage(front + [i.(scriptSig := script)]) == CheckPreimage(front + [i])
  {
    var front := if m.idx2 == 0 then [] else m.pass.ins;
    assert (front + [i.(scriptSig := script)])[..|front|] == front && (front + [i])[..|front|] == front;
  }

  /** An output of a pass must compile, and behind the last one all of them must have the digest of Phase 1. */
  lemma PassOutputRefused(m: Model, a: Ack, ui: Choices)
    requires Shape(m) && m.alive && m.stage.Request4Output?
    ensures var c, o := Step(m, a, ui), a.output;
      match m.cfg.env.compileOutput(o)
      case None => Fails(c, ProcessError)
      case Some(script) =>
        var outs := m.pass.outs + [TxOut(o.amount, script)];
        if m.idx2 < m.cfg.outputsCount - 1 then c.m.alive
        else m.cfg.env.hash(PrintOuts(outs)) != m.cfg.env.hash(PrintOuts(Bins(m.p1.shown))) ==> Fails(c, DataError)
  {
    hide FpAll, ShapeOfStage, Sums, PrintOuts, Bins, FillSignature, LegacyPreimage, EmitInput;
    Live(m);
  }

  /** An output of the end must compile, and then goes out. */
  lemma LastOutputsRefused(m: Model, a: Ack, ui: Choices)
    requires Shape(m) && m.alive && m.stage.Request5Output?
    ensures if m.cfg.env.compileOutput(a.output).None? then Fails(Step(m, a, ui), ProcessError)
            else && |Step(m, a, ui).replies| == 1 && Step(m, a, ui).replies[0].TxRequest?
                 && Step(m, a, ui).m.wire.outs
                    == m.wire.outs + [TxOut(a.output.amount, m.cfg.env.compileOutput(a.output).value)]
  {
    hide FpAll, ShapeOfStage, Sums, WireHead, WireFooter;
  }

  /** A script exists for inputs that fit those of Phase 1, whose keys derive, and whose kind is known. */
  lemma NoScript(m: Model, i: TxInput)
    requires FpAll(m.cfg.env, m.p1.seen)
    ensures var fp, path := FpOf(m.cfg.env, m.p1.seen), PathOf(m.p1.seen);
      var fits := && (fp.mismatch || (i.multisig.Some? && m.cfg.env.fingerprint(i.multisig.value) == Some(fp.value)))
                  && (path.count == 1 || (|i.addressN| >= 2 && |i.addressN| == path.count
                                          && i.addressN[..|i.addressN| - 2] == path.prefix));
      CompileInput(m, i).Some?
      <==> fits && m.cfg.env.derives(i.addressN)
           && if i.multisig.Some? then m.cfg.env.multisigScript(i.multisig.value) != [] else m.cfg.addressTypeKnown
  {
    hide FpAll, FpOf, PathOf;
  }

  /** A signature by BIP-143: no script, more than was claimed and not yet signed, no signature, or no slot for it. */
  lemma SegwitRefused(m: Model, i: TxInput)
    requires FpAll(m.cfg.env, m.p1.seen)
    ensures var slot := i.multisig.None? || m.cfg.env.publicKeyIndex(i.multisig.value, i.addressN).Some?;
      match Sign143(m, i)
      case Signed143(_, _, _) => CompileInput(m, i).Some? && i.amount <= m.Authorized() && slot
      case Refused(charges, kind) =>
        if CompileInput(m, i).None? then kind == ProcessError && charges == []
        else if i.amount > m.Authorized() then kind == DataError && charges == []
        else |charges| == 1
             && (kind == DataError <==> !slot && m.cfg.env.sign(i.addressN, m.cfg.env.hash(charges[0].preimage)).Some?)
             && (kind == DataError || kind == ProcessError)
  {
    hide FpAll, CompileInput, Bip143Preimage, MultisigScriptSig, SingleScriptSig, Config.SighashByte;
  }

  /** In the BIP-143 pass a legacy input is refused unless the coin forces it. */
  lemma SegwitInputRefused(m: Model, a: Ack, ui: Choices)
    requires Shape(m) && m.alive && m.stage.RequestSegwitInput? && a.input.Legacy()
    ensures FpAll(m.cfg.env, m.p1.seen)
    ensures if !m.cfg.forceBip143 then Fails(Step(m, a, ui), DataError)
            else if Sign143(m, a.input).Refused? then Fails(Step(m, a, ui), Sign143(m, a.input).kind)
            else Step(m, a, ui).m.alive
  {
    hide FpAll, Sign143, InputChunk, WireHeader, ShapeOfStage, Sums;
    Live(m);
  }

  /** An input that is not segwit has an empty witness, and no signature comes with it. */
  lemma EmptyWitness(m: Model, a: Ack, ui: Choices)
    requires Shape(m) && m.alive && m.stage.RequestSegwitWitness?
    ensures FpAll(m.cfg.env, m.p1.seen)
    ensures a.input.scriptType != 3 && a.input.scriptType != 4 ==>
      && SignatureOf(Step(m, a, ui)).None? && Step(m, a, ui).m.log == m.log
      && Step(m, a, ui).m.wire.witnesses == m.wire.witnesses + [[0]]
    ensures a.input.scriptType == 3 || a.input.scriptType == 4 ==>
      if Sign143(m, a.input).Refused? then Fails(Step(m, a, ui), Sign143(m, a.input).kind)
      else SignatureOf(Step(m, a, ui)) == Some((m.idx1, Sign143(m, a.input).sig))
  {
    hide FpAll, Sign143, WireHead, Witness, ShapeOfStage, Sums;
    Live(m);
  }
}

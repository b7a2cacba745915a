/**
 What the replies of a signing session say to a host that sees nothing else: which part of
 which transaction is asked for next, and the pieces of the serialized transaction.
 */
module SigningRequests {
  import opened Bytes
  import opened Transaction
  import opened SigningModel
  import opened SigningTheorems

  /** The part of which transaction that a live session is waiting for. */
  function Wanted(m: Model): Request
    requires InPrev(m) ==> m.idx1 < |m.p1.seen|
  {
    match m.stage
    case Request1Input => ReqInput(m.idx1)
    case Request2PrevMeta => ReqPrevMeta(m.p1.seen[m.idx1].prevHash)
    case Request2PrevInput => ReqPrevInput(m.idx2, m.p1.seen[m.idx1].prevHash)
    case Request2PrevOutput => ReqPrevOutput(m.idx2, m.p1.seen[m.idx1].prevHash)
    case Request2PrevExtraData =>
      var got := m.prev.Received();
      ReqPrevExtraData(got, if m.prev.extraLen < got then 0 else Min(1024, m.prev.extraLen - got),
                       m.p1.seen[m.idx1].prevHash)
    case Request3Output => ReqOutput(m.idx1)
    case Request4Input => ReqInput(m.idx2)
    case Request4Output => ReqOutput(m.idx2)
    case RequestSegwitInput => ReqInput(m.idx1)
    case Request5Output => ReqOutput(m.idx1)
    case RequestSegwitWitness => ReqInput(m.idx1)
  }

  lemma ShapeKnowsInput(m: Model)
    requires Shape(m) && m.alive
    ensures FpAll(m.cfg.env, m.p1.seen)
    ensures InPrev(m) ==> |m.p1.seen| == m.idx1 + 1
    ensures m.stage.Request2PrevOutput? ==>
      |m.prev.outs| == m.idx2 < m.prev.head.outputsLen && m.p1.seen[m.idx1].prevIndex < m.prev.head.outputsLen
    ensures m.stage.Request2PrevExtraData? ==> m.p1.seen[m.idx1].prevIndex < |m.prev.outs|
    ensures m.stage.Request4Output? ==> m.idx1 < |m.pass.ins|
  {
    hide FpAll, Total, TotalShown, TotalClaimed, TotalCharged;
  }

  /** A session that goes on has asked for one thing, and that is what it waits for. */
  ghost predicate AsksWanted(c: Outcome)
  {
    c.m.alive ==>
      && (InPrev(c.m) ==> c.m.idx1 < |c.m.p1.seen|)
      && |c.replies| == 1 && c.replies[0].TxRequest? && c.replies[0].request == Wanted(c.m)
  }

  lemma AsksIn1Input(m: Model, i: TxInput)
    requires FpAll(m.cfg.env, m.p1.seen) && m.alive && m.stage.Request1Input? && |m.p1.seen| == m.idx1
    ensures AsksWanted(Step1Input(m, i))
  {
    hide FpAll, FpOf, FpAccepts, Total, CheckPreimage, PrevoutsPreimage, SequencesPreimage, WeightWithInput;
  }

  lemma AsksIn3Output(m: Model, o: TxOutput, ui: Choices)
    requires FpAll(m.cfg.env, m.p1.seen) && m.alive
    ensures AsksWanted(Step3Output(m, o, ui))
  {
    hide FpAll, Total, TotalShown, IsChange, PrintOuts, Bins, MaxFee, Add32;
  }

  lemma AsksInPrevMeta(m: Model, a: Ack)
    requires m.alive && |m.p1.seen| == m.idx1 + 1
    ensures AsksWanted(Step2PrevMeta(m, a))
    ensures m.stage.Request2PrevInput? ==> AsksWanted(Step2PrevInput(m, a.input))
  {
  }

  lemma AsksOnCheck(m: Model)
    requires m.alive && |m.p1.seen| == m.idx1 + 1 && m.p1.seen[m.idx1].prevIndex < |m.prev.outs|
    ensures AsksWanted(CheckPrevTx(m))
  {
    hide PrevTx.Stream, Reverse, CheckPreimage, PrevoutsPreimage, SequencesPreimage;
  }

  lemma AsksInPrevOutput(m: Model, o: TxOut)
    requires m.alive && |m.p1.seen| == m.idx1 + 1 && m.stage.Request2PrevOutput? && m.prev.extra == []
    requires |m.prev.outs| == m.idx2 < m.prev.head.outputsLen && m.p1.seen[m.idx1].prevIndex < m.prev.head.outputsLen
    ensures AsksWanted(Step2PrevOutput(m, o))
  {
    hide CheckPrevTx, Total;
    var m' := m.(prev := m.prev.(outs := m.prev.outs + [o]));
    if m.idx2 == m.prev.head.outputsLen - 1 {
      AsksOnCheck(m');
    }
  }

  lemma AsksInPrevExtraData(m: Model, data: Chunk)
    requires m.alive && |m.p1.seen| == m.idx1 + 1 && m.stage.Request2PrevExtraData?
    requires m.p1.seen[m.idx1].prevIndex < |m.prev.outs|
    ensures AsksWanted(Step2PrevExtraData(m, data))
  {
    hide CheckPrevTx;
    AsksOnCheck(m.(prev := m.prev.(extra := m.prev.extra + data)));
  }

  lemma AsksIn4Input(m: Model, i: TxInput)
    requires FpAll(m.cfg.env, m.p1.seen) && m.alive && m.stage.Request4Input?
    ensures AsksWanted(Step4Input(m, i))
  {
    hide FpAll, CompileInput, CheckPreimage;
  }

  lemma AsksOnEmitInput(m: Model, i: TxInput, signature: Option<(nat, Signature)>)
    requires m.alive
    ensures AsksWanted(EmitInput(m, i, signature))
  {
    hide InputChunk, WireHeader, WireHead;
  }

  lemma AsksOnSignLegacy(m: Model)
    requires m.alive && m.idx1 < |m.pass.ins|
    ensures AsksWanted(SignLegacy(m))
  {
    hide EmitInput, PrintOuts, Bins, FillSignature, LegacyPreimage, AsksWanted;
    forall i, signature ensures AsksWanted(EmitInput(Recorded(m), i, signature)) {
      AsksOnEmitInput(Recorded(m), i, signature);
    }
    DeadAsksNothing();
  }

  lemma DeadAsksNothing()
    ensures forall c: Outcome :: !c.m.alive ==> AsksWanted(c)
  {
  }

  lemma AsksIn4Output(m: Model, o: TxOutput)
    requires m.alive && m.idx1 < |m.pass.ins| && m.stage.Request4Output?
    ensures AsksWanted(Step4Output(m, o))
  {
    hide SignLegacy;
    match m.cfg.env.compileOutput(o)
    case None =>
    case Some(script) => AsksOnSignLegacy(m.(pass := m.pass.(outs := m.pass.outs + [TxOut(o.amount, script)])));
  }

  lemma AsksInEmission(m: Model, a: Ack)
    requires FpAll(m.cfg.env, m.p1.seen) && m.alive
    ensures AsksWanted(StepSegwitInput(m, a.input))
    ensures m.stage.Request5Output? ==> AsksWanted(Step5Output(m, a.output))
    ensures m.stage.RequestSegwitWitness? ==> AsksWanted(StepSegwitWitness(m, a.input))
  {
    hide FpAll, Sign143, P2shWitnessScript, InputChunk, OutputChunk, WireHeader, WireFooter, Witness;
  }

  /** Whatever the host sends: a session that is still alive has asked exactly for what it waits for. */
  lemma StepAsks(m: Model, a: Ack, ui: Choices)
    requires Shape(m) && m.alive
    ensures AsksWanted(Step(m, a, ui))
  {
    ShapeKnowsInput(m);
    NothingExtraYet(m);
    hide Shape, Step1Input, Step2PrevMeta, Step2PrevInput, Step2PrevOutput, Step2PrevExtraData, Step3Output, Step4Input,
         Step4Output, StepSegwitInput, Step5Output, StepSegwitWitness, FpAll, AsksWanted;
    match m.stage
    case Request1Input => AsksIn1Input(m, a.input);
    case Request2PrevMeta => AsksInPrevMeta(m, a);
    case Request2PrevInput => AsksInPrevMeta(m, a);
    case Request2PrevOutput => AsksInPrevOutput(m, a.binOutput);
    case Request2PrevExtraData => AsksInPrevExtraData(m, a.extraData);
    case Request3Output => AsksIn3Output(m, a.output, ui);
    case Request4Input => AsksIn4Input(m, a.input);
    case Request4Output => AsksIn4Output(m, a.output);
    case _ => AsksInEmission(m, a);
  }

  lemma NothingExtraYet(m: Model)
    requires Shape(m) && m.alive
    ensures m.stage.Request1Input? ==> |m.p1.seen| == m.idx1
    ensures m.stage.Request2PrevOutput? ==> m.prev.extra == []
  {
    hide FpAll, Total, TotalShown, TotalClaimed, TotalCharged;
  }

  // ------------------------------------------------------------------ pieces

  function ChunkOf(r: Reply): Bytes
  {
    if r.TxRequest? && r.serialized.chunk.Some? then r.serialized.chunk.value else []
  }

  /** The pieces of the transaction in a list of replies, one behind the other. */
  function Pieces(replies: seq<Reply>): Bytes
  {
    if |replies| == 0 then [] else Pieces(replies[..|replies| - 1]) + ChunkOf(replies[|replies| - 1])
  }

  lemma PiecesOne(r: Reply)
    ensures Pieces([r]) == ChunkOf(r)
  {
    assert [r][..0] == [];
  }

  lemma {:induction false} PiecesAppend(a: seq<Reply>, b: seq<Reply>)
    ensures Pieces(a + b) == Pieces(a) + Pieces(b)
  {
    if |b| == 0 {
      assert a + b == a;
    } else {
      assert (a + b)[..|a + b| - 1] == a + b[..|b| - 1];
      PiecesAppend(a, b[..|b| - 1]);
    }
  }

  /** A reply carries exactly the bytes that the step has serialized. */
  ghost predicate Sends(m: Model, c: Outcome)
  {
    c.m.wire.emitted == m.wire.emitted + Pieces(c.replies)
  }

  lemma OneReplySends(m: Model, c: Outcome)
    requires |c.replies| == 1 && c.m.wire.emitted == m.wire.emitted + ChunkOf(c.replies[0])
    ensures Sends(m, c)
  {
    PiecesOne(c.replies[0]);
    assert c.replies == [c.replies[0]];
  }

  lemma SendsNothing(m: Model, c: Outcome)
    requires |c.replies| == 1 && c.m.wire == m.wire && ChunkOf(c.replies[0]) == []
    ensures Sends(m, c)
  {
    OneReplySends(m, c);
  }

  lemma Silent1Input(m: Model, i: TxInput)
    requires FpAll(m.cfg.env, m.p1.seen)
    ensures Sends(m, Step1Input(m, i))
  {
    hide Pieces, FpAll, FpOf, FpAccepts, Total, CheckPreimage, PrevoutsPreimage, SequencesPreimage, WeightWithInput,
         Sends;
    var c := Step1Input(m, i);
    if |c.replies| == 2 {
      SendsTwice(m, c);
    } else {
      SendsNothing(m, c);
    }
  }

  lemma Silent3Output(m: Model, o: TxOutput, ui: Choices)
    requires FpAll(m.cfg.env, m.p1.seen)
    ensures Sends(m, Step3Output(m, o, ui))
  {
    hide Pieces, FpAll, Total, TotalShown, IsChange, PrintOuts, Bins, MaxFee, Add32, Sends;
    SendsNothing(m, Step3Output(m, o, ui));
  }

  lemma SendsTwice(m: Model, c: Outcome)
    requires |c.replies| == 2 && c.m.wire == m.wire && ChunkOf(c.replies[0]) == ChunkOf(c.replies[1]) == []
    ensures Sends(m, c)
  {
    PiecesOne(c.replies[0]);
    assert c.replies[..1] == [c.replies[0]];
  }

  lemma SilentPrev(m: Model, a: Ack)
    requires |m.p1.seen| == m.idx1 + 1
    ensures Sends(m, Step2PrevMeta(m, a)) && Sends(m, Step2PrevInput(m, a.input))
    ensures |m.prev.outs| == m.idx2 < m.prev.head.outputsLen && m.p1.seen[m.idx1].prevIndex < m.prev.head.outputsLen
      ==> Sends(m, Step2PrevOutput(m, a.binOutput))
    ensures m.p1.seen[m.idx1].prevIndex < |m.prev.outs| ==> Sends(m, Step2PrevExtraData(m, a.extraData))
  {
    hide Pieces, PrevTx.Stream, Reverse, Total, CheckPreimage, PrevoutsPreimage, SequencesPreimage, Sends;
    SendsNothing(m, Step2PrevMeta(m, a));
    SendsNothing(m, Step2PrevInput(m, a.input));
    if |m.prev.outs| == m.idx2 < m.prev.head.outputsLen && m.p1.seen[m.idx1].prevIndex < m.prev.head.outputsLen {
      SendsNothing(m, Step2PrevOutput(m, a.binOutput));
    }
    if m.p1.seen[m.idx1].prevIndex < |m.prev.outs| {
      SendsNothing(m, Step2PrevExtraData(m, a.extraData));
    }
  }

  lemma Sends4Input(m: Model, i: TxInput)
    requires FpAll(m.cfg.env, m.p1.seen)
    ensures Sends(m, Step4Input(m, i))
  {
    hide Pieces, FpAll, CompileInput, CheckPreimage, Sends;
    SendsNothing(m, Step4Input(m, i));
  }

  lemma SendsOnSignLegacy(m: Model)
    requires m.idx1 < |m.pass.ins|
    ensures |SignLegacy(m).replies| == 1
    ensures SignLegacy(m).m.wire.emitted == m.wire.emitted + ChunkOf(SignLegacy(m).replies[0])
  {
    hide PrintOuts, Bins, FillSignature, LegacyPreimage, InputChunk, WireHeader, WireHead;
  }

  lemma Sends4Output(m: Model, o: TxOutput)
    requires m.idx1 < |m.pass.ins|
    ensures Sends(m, Step4Output(m, o))
  {
    hide Pieces, Sends, SignLegacy;
    match m.cfg.env.compileOutput(o)
    case None => SendsNothing(m, Step4Output(m, o));
    case Some(script) =>
      var m' := m.(pass := m.pass.(outs := m.pass.outs + [TxOut(o.amount, script)]));
      SendsOnSignLegacy(m');
      OneReplySends(m, Step4Output(m, o));
  }

  lemma SendsInEmission(m: Model, a: Ack)
    requires FpAll(m.cfg.env, m.p1.seen)
    ensures Sends(m, StepSegwitInput(m, a.input)) && Sends(m, Step5Output(m, a.output))
    ensures Sends(m, StepSegwitWitness(m, a.input))
  {
    hide Pieces, FpAll, Sign143, P2shWitnessScript, InputChunk, OutputChunk, WireHeader, WireFooter, Witness, Sends;
    OneReplySends(m, StepSegwitInput(m, a.input));
    OneReplySends(m, Step5Output(m, a.output));
    OneReplySends(m, StepSegwitWitness(m, a.input));
  }

  /** Whatever the host sends: the replies carry exactly what is serialized. */
  lemma StepSends(m: Model, a: Ack, ui: Choices)
    requires Shape(m)
    ensures Sends(m, Step(m, a, ui))
  {
    if m.alive {
      ShapeKnowsInput(m);
      hide Shape, Step1Input, Step2PrevMeta, Step2PrevInput, Step2PrevOutput, Step2PrevExtraData, Step3Output,
           Step4Input, Step4Output, StepSegwitInput, Step5Output, StepSegwitWitness, FpAll, Sends;
      match m.stage
      case Request1Input => Silent1Input(m, a.input);
      case Request3Output => Silent3Output(m, a.output, ui);
      case Request4Input => Sends4Input(m, a.input);
      case Request4Output => Sends4Output(m, a.output);
      case RequestSegwitInput => SendsInEmission(m, a);
      case Request5Output => SendsInEmission(m, a);
      case RequestSegwitWitness => SendsInEmission(m, a);
      case _ => SilentPrev(m, a);
    } else {
      SendsNothing(m, Step(m, a, ui));
    }
  }
}

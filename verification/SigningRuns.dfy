/**
 Runs of the signing protocol: every step keeps the shape of a live session,
 so the protocol is defined over any sequence of host messages.
 */
module SigningRuns {
  import opened Bytes
  import opened Transaction
  import opened SigningModel

  // ------------------------------------------------------ lists grow by one

  lemma SnocCredit(credits: seq<Credit>, c: Credit)
    ensures Total(credits + [c]) == Total(credits) + c.amount
    ensures TotalClaimed(credits + [c]) == TotalClaimed(credits) + (if c.Claimed? then c.amount else 0)
  {
    assert (credits + [c])[..|credits|] == credits;
  }

  lemma SnocCharge(charges: seq<Charge>, c: Charge)
    ensures TotalCharged(charges + [c]) == TotalCharged(charges) + c.amount
  {
    assert (charges + [c])[..|charges|] == charges;
  }

  lemma SnocShown(shown: seq<Shown>, s: Shown, confirmed: bool)
    ensures TotalShown(shown + [s], confirmed)
         == TotalShown(shown, confirmed) + (if s.confirmed == confirmed then s.bin.amount else 0)
  {
    assert (shown + [s])[..|shown|] == shown;
  }

  lemma SnocFp(env: Env, ins: seq<TxInput>, i: TxInput)
    requires FpAll(env, ins) && FpAccepts(env, FpOf(env, ins), i)
    ensures FpAll(env, ins + [i])
    ensures FpOf(env, ins + [i]) == FpNext(env, FpOf(env, ins), i)
  {
    assert (ins + [i])[..|ins|] == ins;
  }

  lemma {:induction false} ClaimedWithinTotal(credits: seq<Credit>)
    ensures TotalClaimed(credits) <= Total(credits)
  {
    if |credits| > 0 {
      ClaimedWithinTotal(credits[..|credits| - 1]);
    }
  }

  // ---------------------------------------------------- shape is preserved

  lemma ShapePhase1NextInput(m: Model)
    requires m.cfg.Valid() && m.alive && FpAll(m.cfg.env, m.p1.seen) && Unsigned(m) && m.p1.shown == []
    requires |m.p1.seen| == |m.p1.credits| == m.idx1 + 1 && m.idx1 < m.cfg.inputsCount
    requires Total(m.p1.credits) < TWO64
    requires m.next == NO_LEGACY || m.next < m.cfg.inputsCount
    ensures Shape(Phase1NextInput(m).m)
  {
  }

  lemma Shape1Input(m: Model, i: TxInput)
    requires Shape(m) && m.alive && m.stage.Request1Input?
    ensures Shape(Step1Input(m, i).m)
  {
    if FpAccepts(m.cfg.env, FpOf(m.cfg.env, m.p1.seen), i) {
      SnocFp(m.cfg.env, m.p1.seen, i);
      ShapeCredit1(WithInput(m, i), i);
    }
  }

  lemma ShapeCredit1(m: Model, i: TxInput)
    requires m.cfg.Valid() && m.alive && FpAll(m.cfg.env, m.p1.seen) && Unsigned(m) && m.p1.shown == []
    requires |m.p1.seen| == m.idx1 + 1 && |m.p1.credits| == m.idx1 < m.cfg.inputsCount && m.p1.seen[m.idx1] == i
    requires m.stage.Request1Input? && Total(m.p1.credits) < TWO64
    requires m.next == NO_LEGACY || m.next < m.cfg.inputsCount
    ensures Shape(Credit1(m, i).m)
  {
    hide FpAll, FpOf, PathOf, Phase1NextInput;
    SnocCredit(m.p1.credits, Claimed(i.amount));
    if Total(m.p1.credits) + i.amount < TWO64 {
      ShapePhase1NextInput(m.Credited(Claimed(i.amount)));
    }
  }

  lemma ShapeCheckPrevTx(m: Model)
    requires m.cfg.Valid() && m.alive && FpAll(m.cfg.env, m.p1.seen) && Crediting(m) && Sums(m)
    requires m.next == NO_LEGACY || m.next < m.cfg.inputsCount
    requires m.stage.Request2PrevOutput? || m.stage.Request2PrevExtraData?
    requires m.p1.seen[m.idx1].prevIndex < |m.prev.outs|
    ensures Shape(CheckPrevTx(m).m)
  {
    var c := Proven(m.prev.outs[m.p1.seen[m.idx1].prevIndex].amount, m.prev);
    SnocCredit(m.p1.credits, c);
    ShapePhase1NextInput(m.Hashing({m.prev.Stream()}).Credited(c));
  }

  lemma ShapePrevOutput(m: Model, o: TxOut)
    requires Shape(m) && m.alive && m.stage.Request2PrevOutput?
    ensures Shape(Step2PrevOutput(m, o).m)
  {
    hide FpAll, Total, TotalClaimed, TotalCharged, TotalShown;
    var m' := m.(prev := m.prev.(outs := m.prev.outs + [o]));
    var i := m.p1.seen[m.idx1];
    if m.idx2 == i.prevIndex && Total(m.p1.credits) + o.amount >= TWO64 {
    } else {
      assert m'.Pending() == if m.idx2 == i.prevIndex then o.amount else m.Pending();
      assert Sums(m');
      if !(m.idx2 < m.prev.head.outputsLen - 1) && m.prev.extraLen == 0 {
        ShapeCheckPrevTx(m');
      }
    }
  }

  lemma ShapePrevExtraData(m: Model, data: Chunk)
    requires Shape(m) && m.alive && m.stage.Request2PrevExtraData?
    ensures Shape(Step2PrevExtraData(m, data).m)
  {
    var m' := m.(prev := m.prev.(extra := m.prev.extra + data));
    assert m'.Pending() == m.Pending();
    assert Sums(m');
    if m'.prev.Received() >= m.prev.extraLen {
      ShapeCheckPrevTx(m');
    }
  }

  lemma ShapeCheckFee(m: Model, ui: Choices)
    requires m.cfg.Valid() && m.alive && FpAll(m.cfg.env, m.p1.seen) && Unsigned(m) && m.stage.Request3Output?
    requires |m.p1.seen| == |m.p1.credits| == m.cfg.inputsCount && |m.p1.shown| == m.cfg.outputsCount
    requires Sums(m) && (m.next == NO_LEGACY || m.next < m.cfg.inputsCount)
    ensures Shape(CheckFee(m, ui).m)
  {
    hide FpAll, Total, TotalClaimed, TotalCharged, TotalShown;
  }

  lemma ShapePhase1NextOutput(m: Model, ui: Choices)
    requires m.cfg.Valid() && m.alive && FpAll(m.cfg.env, m.p1.seen) && Unsigned(m) && m.stage.Request3Output?
    requires |m.p1.seen| == |m.p1.credits| == m.cfg.inputsCount && |m.p1.shown| == m.idx1 + 1 <= m.cfg.outputsCount
    requires Sums(m) && (m.next == NO_LEGACY || m.next < m.cfg.inputsCount)
    ensures Shape(Phase1NextOutput(m, ui).m)
  {
    if m.idx1 == m.cfg.outputsCount - 1 {
      ShapeCheckFee(m.Hashing({PrintOuts(Bins(m.p1.shown))}), ui);
    }
  }

  lemma SumsAddShown(m: Model, s: Shown)
    requires Sums(m) && Spending(m.p1.shown) + s.bin.amount < TWO64
    ensures Sums(AddShown(m, s))
  {
    SnocShown(m.p1.shown, s, true);
    SnocShown(m.p1.shown, s, false);
  }

  lemma Shape3Output(m: Model, o: TxOutput, ui: Choices)
    requires Shape(m) && m.alive && m.stage.Request3Output?
    ensures Shape(Step3Output(m, o, ui).m)
  {
    hide FpAll, FpOf, PathOf, Total, TotalClaimed, TotalCharged, TotalShown, Phase1NextOutput;
    match m.cfg.env.compileOutput(o)
    case None =>
    case Some(script) =>
      if Spending(m.p1.shown) + o.amount < TWO64 {
        var s := Shown(o, TxOut(o.amount, script), !IsChange(m, o));
        SumsAddShown(m, s);
        ShapePhase1NextOutput(AddShown(m, s), ui);
      }
  }

  lemma ShapePhase2NextPassInput(m: Model)
    requires m.cfg.Valid() && m.alive && FpAll(m.cfg.env, m.p1.seen) && Signing(m) && Sums(m)
    requires m.stage.Request4Input? && m.idx1 <= m.next < m.cfg.inputsCount
    requires |m.pass.ins| == m.idx2 + 1 <= m.cfg.inputsCount && m.pass.outs == []
    ensures Shape(Phase2NextPassInput(m).m)
  {
    hide FpAll, Total, TotalClaimed, TotalCharged, TotalShown;
  }

  lemma Shape4Input(m: Model, i: TxInput)
    requires Shape(m) && m.alive && m.stage.Request4Input?
    ensures Shape(Step4Input(m, i).m)
  {
    if m.idx2 == m.idx1 {
      match CompileInput(m, i)
      case None =>
      case Some(script) => ShapePhase2NextPassInput(Passed(m, i.(scriptSig := script), m.next));
    } else {
      ShapePhase2NextPassInput(Passed(m, i.(scriptSig := []), NextTarget(m, i)));
    }
  }

  lemma ShapeEmitInput(m: Model, i: TxInput, signature: Option<(nat, Signature)>)
    requires m.cfg.Valid() && m.alive && FpAll(m.cfg.env, m.p1.seen) && Signing(m) && Sums(m)
    requires m.stage.Request4Output? || m.stage.RequestSegwitInput?
    requires m.next == NO_LEGACY || m.next < m.cfg.inputsCount
    ensures Shape(EmitInput(m, i, signature).m)
  {
    hide FpAll, Total, TotalClaimed, TotalCharged, TotalShown;
  }

  lemma ShapeSignLegacy(m: Model)
    requires m.cfg.Valid() && m.alive && FpAll(m.cfg.env, m.p1.seen) && Signing(m) && Sums(m)
    requires m.stage.Request4Output? && |m.pass.ins| == m.cfg.inputsCount
    requires m.next == NO_LEGACY || m.next < m.cfg.inputsCount
    ensures Shape(SignLegacy(m).m)
  {
    hide FpAll, Total, TotalClaimed, TotalCharged, TotalShown;
    var i := m.pass.ins[m.idx1];
    match m.cfg.env.sign(i.addressN, m.cfg.env.hash(LegacyPreimage(m)))
    case None =>
    case Some(sig) =>
      match FillSignature(m.cfg, i, sig)
      case None =>
      case Some(i') =>
        ShapeEmitInput(Recorded(m), i', Some((m.idx1, sig)));
  }

  lemma Shape4Output(m: Model, o: TxOutput)
    requires Shape(m) && m.alive && m.stage.Request4Output?
    ensures Shape(Step4Output(m, o).m)
  {
    match m.cfg.env.compileOutput(o)
    case None =>
    case Some(script) =>
      if m.idx2 == m.cfg.outputsCount - 1 {
        ShapeSignLegacy(m.(pass := m.pass.(outs := m.pass.outs + [TxOut(o.amount, script)])));
      }
  }

  lemma ShapeCharged(m: Model, charge: Charge)
    requires 0 <= m.Authorized() && charge.amount <= m.Authorized()
    ensures 0 <= Charged(m, [charge]).Authorized()
    ensures Charged(m, [charge]).ToSpend() == m.ToSpend()
  {
    SnocCharge(m.log.charges, charge);
  }

  lemma ShapeSegwitInput(m: Model, i: TxInput)
    requires Shape(m) && m.alive && m.stage.RequestSegwitInput?
    ensures Shape(StepSegwitInput(m, i).m)
  {
    if i.Legacy() {
      match Sign143(m, i)
      case Refused(_, _) =>
      case Signed143(charge, i', sig) =>
        ShapeCharged(m, charge);
        ShapeEmitInput(Charged(m, [charge]), i', Some((m.idx1, sig)));
    } else if i.scriptType == SPENDP2SHWITNESS {
      match P2shWitnessScript(m, i)
      case None =>
      case Some(script) => ShapeEmitInput(m, i.(scriptSig := script), None);
    } else {
      ShapeEmitInput(m, i.(scriptSig := []), None);
    }
  }

  lemma ShapeEmitWitness(m: Model, field: Bytes, signature: Option<(nat, Signature)>)
    requires m.cfg.Valid() && m.alive && FpAll(m.cfg.env, m.p1.seen) && Sums(m)
    requires m.stage.RequestSegwitWitness? && ShapeOfStage(m)
    requires m.next == NO_LEGACY || m.next < m.cfg.inputsCount
    ensures Shape(EmitWitness(m, field, signature).m)
  {
  }

  lemma ShapeSegwitWitness(m: Model, i: TxInput)
    requires Shape(m) && m.alive && m.stage.RequestSegwitWitness?
    ensures Shape(StepSegwitWitness(m, i).m)
  {
    hide FpAll, Total, TotalClaimed, TotalCharged, TotalShown;
    if i.Segwit() {
      match Sign143(m, i)
      case Refused(_, _) =>
      case Signed143(charge, i', sig) =>
        ShapeCharged(m, charge);
        ShapeEmitWitness(Charged(m, [charge]), Witness(m.cfg, i', sig), Some((m.idx1, sig)));
    } else {
      ShapeEmitWitness(m, [0], None);
    }
  }

  lemma ShapePrevMeta(m: Model, a: Ack)
    requires Shape(m) && m.alive && m.stage.Request2PrevMeta?
    ensures Shape(Step2PrevMeta(m, a).m)
  {
    hide FpAll, Total, TotalClaimed, TotalCharged, TotalShown;
  }

  lemma ShapePrevInput(m: Model, i: TxInput)
    requires Shape(m) && m.alive && m.stage.Request2PrevInput?
    ensures Shape(Step2PrevInput(m, i).m)
  {
  }

  lemma ShapeEmitOutput(m: Model, bin: TxOut)
    requires m.cfg.Valid() && m.alive && FpAll(m.cfg.env, m.p1.seen) && Sums(m) && Confirmed(m)
    requires m.stage.Request5Output? && |m.wire.ins| == m.cfg.inputsCount
    requires |m.wire.outs| == m.idx1 < m.cfg.outputsCount && m.wire.witnesses == []
    requires m.next == NO_LEGACY || m.next < m.cfg.inputsCount
    ensures Shape(EmitOutput(m, bin).m)
  {
    hide FpAll, Total, TotalClaimed, TotalCharged, TotalShown;
  }

  lemma Shape5Output(m: Model, o: TxOutput)
    requires Shape(m) && m.alive && m.stage.Request5Output?
    ensures Shape(Step5Output(m, o).m)
  {
    match m.cfg.env.compileOutput(o)
    case None =>
    case Some(script) => ShapeEmitOutput(m, TxOut(o.amount, script));
  }

  /** Every message leaves a live session well shaped. */
  lemma StepKeepsShape(m: Model, a: Ack, ui: Choices)
    requires Shape(m)
    ensures Shape(Step(m, a, ui).m)
  {
    if m.alive {
      if m.stage.Request1Input? {
        Shape1Input(m, a.input);
      } else if m.stage.Request2PrevMeta? {
        ShapePrevMeta(m, a);
      } else if m.stage.Request2PrevInput? {
        ShapePrevInput(m, a.input);
      } else if m.stage.Request2PrevOutput? {
        ShapePrevOutput(m, a.binOutput);
      } else if m.stage.Request2PrevExtraData? {
        ShapePrevExtraData(m, a.extraData);
      } else if m.stage.Request3Output? {
        Shape3Output(m, a.output, ui);
      } else if m.stage.Request4Input? {
        Shape4Input(m, a.input);
      } else if m.stage.Request4Output? {
        Shape4Output(m, a.output);
      } else if m.stage.RequestSegwitInput? {
        ShapeSegwitInput(m, a.input);
      } else if m.stage.Request5Output? {
        Shape5Output(m, a.output);
      } else {
        ShapeSegwitWitness(m, a.input);
      }
    }
  }
}

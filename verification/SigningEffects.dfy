/**
 What one message can add to the logs of a signing session: at most one input,
 credit, output, signature or serialized piece, under the conditions the code checked.
 */
module SigningEffects {
  import opened Bytes
  import opened Transaction
  import opened SigningModel

  /** Only positions and hash comparisons changed. */
  ghost predicate Quiet(m: Model, m': Model)
  {
    && m'.cfg == m.cfg && m'.p1 == m.p1 && m'.wire == m.wire
    && m'.log.legacy == m.log.legacy && m'.log.charges == m.log.charges
    && m.log.hashed <= m'.log.hashed
  }

  // -------------------------------------- how each log can change in one step

  ghost predicate ClaimAllowed(cfg: Config, i: TxInput)
  {
    i.hasAmount && (if i.Legacy() then cfg.forceBip143 else i.Segwit() && cfg.hasSegwit)
  }

  /** The streamed transaction proves the amount of an input. */
  ghost predicate Proves(cfg: Config, i: TxInput, tx: PrevTx)
  {
    && WholeTx(tx.head, tx.ins, tx.outs) && !tx.head.segwit
    && i.prevIndex < |tx.outs|
    && Reverse(cfg.env.hash(tx.Stream())) == i.prevHash
  }

  /** A credit proved by a transaction whose bytes were hashed. */
  ghost predicate ProofOk(cfg: Config, i: TxInput, c: Credit, hashed: set<Bytes>)
  {
    && c.Proven? && Proves(cfg, i, c.tx)
    && c.amount == c.tx.outs[i.prevIndex].amount
    && c.tx.Stream() in hashed
  }

  /** An output as Phase 1 accepts it: compiled from what the host sent, unconfirmed only as change. */
  ghost predicate ShownOk(m: Model, s: Shown)
    requires FpAll(m.cfg.env, m.p1.seen)
  {
    && s.bin.amount == s.output.amount
    && m.cfg.env.compileOutput(s.output) == Some(s.bin.script)
    && (s.confirmed <==> !IsChange(m, s.output))
  }

  ghost predicate Phase1Effect(m: Model, m': Model)
  {
    || m'.p1 == m.p1
    || (m.stage.Request1Input? && exists i :: m'.p1 == m.p1.(seen := m.p1.seen + [i]))
    || (m.stage.Request1Input?
        && exists i :: ClaimAllowed(m.cfg, i)
                    && m'.p1 == Phase1Log(m.p1.seen + [i], m.p1.credits + [Claimed(i.amount)], m.p1.shown))
    || ((m.stage.Request2PrevOutput? || m.stage.Request2PrevExtraData?) && |m.p1.seen| == m.idx1 + 1
        && exists c :: ProofOk(m.cfg, m.p1.seen[m.idx1], c, m'.log.hashed)
                    && m'.p1 == m.p1.(credits := m.p1.credits + [c]))
    || (m.stage.Request3Output? && FpAll(m.cfg.env, m.p1.seen)
        && exists s :: ShownOk(m, s) && m'.p1 == m.p1.(shown := m.p1.shown + [s]))
  }

  /** A BIP-143 charge as the code allows it. */
  ghost predicate ChargeOk(m: Model, c: Charge)
  {
    && c.amount <= m.Authorized()
    && exists i: TxInput :: c.amount == i.amount && c.preimage == Bip143Preimage(m, i)
  }

  ghost predicate ChargeEffect(m: Model, m': Model)
  {
    || m'.log.charges == m.log.charges
    || ((m.stage.RequestSegwitInput? || m.stage.RequestSegwitWitness?)
        && exists c :: ChargeOk(m, c) && m'.log.charges == m.log.charges + [c])
  }

  function WireInput(m: Model, i: TxIn): WireLog
  {
    m.wire.(ins := m.wire.ins + [i],
            emitted := m.wire.emitted + InputChunk(WireHeader(WireHead(m)), |m.wire.ins|, i))
  }

  function WireOutput(m: Model, o: TxOut): WireLog
  {
    m.wire.(outs := m.wire.outs + [o],
            emitted := m.wire.emitted + OutputChunk(WireHead(m), |m.wire.outs|, o, WireFooter(WireHead(m))))
  }

  function WireWitness(m: Model, field: Bytes): WireLog
  {
    m.wire.(witnesses := m.wire.witnesses + [field],
            emitted := m.wire.emitted
                     + (field + if m.idx1 == m.cfg.inputsCount - 1 then WireFooter(WireHead(m)) else []))
  }

  ghost predicate WireEffect(m: Model, m': Model)
  {
    || m'.wire == m.wire
    || ((m.stage.Request4Output? || m.stage.RequestSegwitInput?) && exists i :: m'.wire == WireInput(m, i))
    || (m.stage.Request5Output? && exists bin :: m'.wire == WireOutput(m, bin))
    || (m.stage.RequestSegwitWitness? && exists field :: m'.wire == WireWitness(m, field))
  }

  /** Phase 1 touches its own lists only; afterwards they are fixed. */
  ghost predicate Effect(m: Model, m': Model)
  {
    && m'.cfg == m.cfg && m.log.hashed <= m'.log.hashed
    && if Phase1(m)
       then m'.log.legacy == m.log.legacy && m'.log.charges == m.log.charges && m'.wire == m.wire && Phase1Effect(m, m')
       else m'.p1 == m.p1 && ChargeEffect(m, m') && WireEffect(m, m')
            && (m.stage.Request4Output? || m'.log.legacy == m.log.legacy)
  }

  // ------------------------------------------------------------- the stages

  lemma QuietIsEffect(m: Model, m': Model)
    requires Quiet(m, m')
    ensures Effect(m, m')
  {
  }

  /** In the signing stages: an optional charge, an optional input. */
  lemma SignedInputIsEffect(m: Model, s: Model, i: TxIn, m': Model)
    requires m.stage.Request4Output? || m.stage.RequestSegwitInput?
    requires s.cfg == m.cfg && s.p1 == m.p1 && s.wire == m.wire && m.log.hashed <= s.log.hashed && ChargeEffect(m, s)
    requires m.stage.Request4Output? || s.log.legacy == m.log.legacy
    requires Quiet(WithWire(s, WireInput(s, i)), m')
    ensures Effect(m, m')
  {
    assert WireInput(s, i) == WireInput(m, i);
    assert m'.log.charges == s.log.charges;
  }

  lemma QuietPhase1NextInput(m: Model)
    ensures Quiet(m, Phase1NextInput(m).m)
  {
  }

  lemma EffectCredit1(m: Model, i: TxInput)
    ensures var m' := Credit1(m, i).m;
      || Quiet(m, m')
      || (Quiet(m.Credited(Claimed(i.amount)), m') && ClaimAllowed(m.cfg, i))
  {
    QuietPhase1NextInput(m.Credited(Claimed(i.amount)));
  }

  lemma Effect1Input(m: Model, i: TxInput)
    requires FpAll(m.cfg.env, m.p1.seen) && m.stage.Request1Input?
    ensures Effect(m, Step1Input(m, i).m)
  {
    EffectCredit1(WithInput(m, i), i);
  }

  lemma EffectCheckPrevTx(m: Model)
    requires |m.p1.seen| == m.idx1 + 1 && m.p1.seen[m.idx1].prevIndex < |m.prev.outs|
    requires WholeTx(m.prev.head, m.prev.ins, m.prev.outs) && !m.prev.head.segwit
    ensures var c := Proven(m.prev.outs[m.p1.seen[m.idx1].prevIndex].amount, m.prev);
      var m' := CheckPrevTx(m).m;
      || Quiet(m, m')
      || (ProofOk(m.cfg, m.p1.seen[m.idx1], c, m'.log.hashed) && Quiet(m.Credited(c), m'))
  {
    var c := Proven(m.prev.outs[m.p1.seen[m.idx1].prevIndex].amount, m.prev);
    QuietPhase1NextInput(m.Hashing({m.prev.Stream()}).Credited(c));
  }

  lemma EffectPrevOutput(m: Model, o: TxOut)
    requires Shape(m) && m.alive && m.stage.Request2PrevOutput?
    ensures Effect(m, Step2PrevOutput(m, o).m)
  {
    var m' := m.(prev := m.prev.(outs := m.prev.outs + [o]));
    if m.idx2 == m.prev.head.outputsLen - 1 && m.prev.extraLen == 0 {
      EffectCheckPrevTx(m');
    }
  }

  lemma EffectPrevExtraData(m: Model, data: Chunk)
    requires Shape(m) && m.alive && m.stage.Request2PrevExtraData?
    ensures Effect(m, Step2PrevExtraData(m, data).m)
  {
    var m' := m.(prev := m.prev.(extra := m.prev.extra + data));
    if m'.prev.Received() >= m.prev.extraLen {
      EffectCheckPrevTx(m');
    }
  }

  lemma QuietCheckFee(m: Model, ui: Choices)
    ensures Quiet(m, CheckFee(m, ui).m)
  {
  }

  lemma QuietPhase1NextOutput(m: Model, ui: Choices)
    ensures Quiet(m, Phase1NextOutput(m, ui).m)
  {
    QuietCheckFee(m.Hashing({PrintOuts(Bins(m.p1.shown))}), ui);
  }

  lemma Effect3Output(m: Model, o: TxOutput, ui: Choices)
    requires FpAll(m.cfg.env, m.p1.seen) && m.stage.Request3Output?
    ensures Effect(m, Step3Output(m, o, ui).m)
  {
    hide FpAll, FpOf, PathOf, Total, TotalClaimed, TotalCharged, TotalShown;
    match m.cfg.env.compileOutput(o)
    case None =>
    case Some(script) =>
      var s := Shown(o, TxOut(o.amount, script), !IsChange(m, o));
      QuietPhase1NextOutput(AddShown(m, s), ui);
      ShownIsEffect(m, s, Phase1NextOutput(AddShown(m, s), ui).m);
  }

  lemma ShownIsEffect(m: Model, s: Shown, m': Model)
    requires FpAll(m.cfg.env, m.p1.seen) && m.stage.Request3Output?
    requires ShownOk(m, s) && Quiet(AddShown(m, s), m')
    ensures Effect(m, m')
  {
  }

  lemma QuietPhase2NextPassInput(m: Model)
    ensures Quiet(m, Phase2NextPassInput(m).m)
  {
  }

  lemma Effect4Input(m: Model, i: TxInput)
    requires FpAll(m.cfg.env, m.p1.seen)
    ensures Quiet(m, Step4Input(m, i).m)
  {
    if m.idx2 == m.idx1 {
      match CompileInput(m, i)
      case None =>
      case Some(script) => QuietPhase2NextPassInput(Passed(m, i.(scriptSig := script), m.next));
    } else {
      QuietPhase2NextPassInput(Passed(m, i.(scriptSig := []), NextTarget(m, i)));
    }
  }

  function WithWire(m: Model, wire: WireLog): Model
  {
    m.(wire := wire)
  }

  lemma EffectEmitInput(m: Model, i: TxInput, signature: Option<(nat, Signature)>)
    ensures Quiet(WithWire(m, WireInput(m, i.Wire())), EmitInput(m, i, signature).m)
  {
  }

  lemma RecordedIsEffect(m: Model)
    requires m.stage.Request4Output?
    ensures forall kind :: Effect(m, Die(Recorded(m), kind).m)
  {
  }

  lemma EffectSignLegacy(m: Model)
    requires m.idx1 < |m.pass.ins| && m.stage.Request4Output?
    ensures Effect(m, SignLegacy(m).m)
  {
    var i := m.pass.ins[m.idx1];
    match m.cfg.env.sign(i.addressN, m.cfg.env.hash(LegacyPreimage(m)))
    case None =>
      assert Quiet(m, SignLegacy(m).m);
      QuietIsEffect(m, SignLegacy(m).m);
    case Some(sig) =>
      match FillSignature(m.cfg, i, sig)
      case None =>
        RecordedIsEffect(m);
      case Some(i') =>
        EffectEmitInput(Recorded(m), i', Some((m.idx1, sig)));
        SignedInputIsEffect(m, Recorded(m), i'.Wire(), EmitInput(Recorded(m), i', Some((m.idx1, sig))).m);
  }

  lemma Effect4Output(m: Model, o: TxOutput)
    requires m.idx1 < |m.pass.ins| && m.stage.Request4Output?
    ensures Effect(m, Step4Output(m, o).m)
  {
    match m.cfg.env.compileOutput(o)
    case None =>
    case Some(script) =>
      var m' := m.(pass := m.pass.(outs := m.pass.outs + [TxOut(o.amount, script)]));
      if !(m.idx2 < m.cfg.outputsCount - 1) {
        EffectSignLegacy(m');
        PassDoesNotMatter(m, m', Step4Output(m, o).m);
      }
  }

  lemma PassDoesNotMatter(m: Model, m': Model, r: Model)
    requires m' == m.(pass := m'.pass) && Effect(m', r) && m.stage.Request4Output?
    ensures Effect(m, r)
  {
    if r.wire != m.wire {
      var i :| r.wire == WireInput(m', i);
      assert r.wire == WireInput(m, i);
    }
  }

  lemma EffectSign143(m: Model, i: TxInput)
    requires FpAll(m.cfg.env, m.p1.seen)
    ensures match Sign143(m, i)
      case Refused(charges, _) => |charges| <= 1 && (charges != [] ==> ChargeOk(m, charges[0]))
      case Signed143(charge, _, _) => ChargeOk(m, charge)
  {
  }

  lemma EffectRefused(m: Model, charges: seq<Charge>, kind: FailureKind)
    requires m.stage.RequestSegwitInput? || m.stage.RequestSegwitWitness?
    requires |charges| <= 1 && (charges != [] ==> ChargeOk(m, charges[0]))
    ensures Effect(m, Die(Charged(m, charges), kind).m)
  {
    assert charges == [] ==> m.log.charges + charges == m.log.charges;
    assert charges != [] ==> charges == [charges[0]];
  }

  lemma EffectSegwitLegacyInput(m: Model, i: TxInput)
    requires FpAll(m.cfg.env, m.p1.seen) && m.stage.RequestSegwitInput? && i.Legacy()
    ensures Effect(m, StepSegwitInput(m, i).m)
  {
    EffectSign143(m, i);
    if m.cfg.forceBip143 {
      match Sign143(m, i)
      case Refused(charges, kind) => EffectRefused(m, charges, kind);
      case Signed143(charge, i', sig) =>
        var s := Charged(m, [charge]);
        EffectEmitInput(s, i', Some((m.idx1, sig)));
        SignedInputIsEffect(m, s, i'.Wire(), EmitInput(s, i', Some((m.idx1, sig))).m);
    }
  }

  lemma EffectSegwitInput(m: Model, i: TxInput)
    requires FpAll(m.cfg.env, m.p1.seen) && m.stage.RequestSegwitInput?
    ensures Effect(m, StepSegwitInput(m, i).m)
  {
    if i.Legacy() {
      EffectSegwitLegacyInput(m, i);
    } else if i.scriptType == SPENDP2SHWITNESS {
      match P2shWitnessScript(m, i)
      case None =>
      case Some(script) =>
        EffectEmitInput(m, i.(scriptSig := script), None);
        SignedInputIsEffect(m, m, i.(scriptSig := script).Wire(), StepSegwitInput(m, i).m);
    } else {
      EffectEmitInput(m, i.(scriptSig := []), None);
      SignedInputIsEffect(m, m, i.(scriptSig := []).Wire(), StepSegwitInput(m, i).m);
    }
  }

  lemma Effect5Output(m: Model, o: TxOutput)
    requires m.stage.Request5Output?
    ensures Effect(m, Step5Output(m, o).m)
  {
    match m.cfg.env.compileOutput(o)
    case None =>
    case Some(script) => assert Quiet(WithWire(m, WireOutput(m, TxOut(o.amount, script))), Step5Output(m, o).m);
  }

  lemma EffectEmitWitness(m: Model, field: Bytes, signature: Option<(nat, Signature)>)
    ensures Quiet(WithWire(m, WireWitness(m, field)), EmitWitness(m, field, signature).m)
  {
  }

  lemma WitnessIsEffect(m: Model, s: Model, field: Bytes, m': Model)
    requires m.stage.RequestSegwitWitness?
    requires s.cfg == m.cfg && s.p1 == m.p1 && s.wire == m.wire && s.idx1 == m.idx1
    requires m.log.hashed <= s.log.hashed && ChargeEffect(m, s) && s.log.legacy == m.log.legacy
    requires Quiet(WithWire(s, WireWitness(s, field)), m')
    ensures Effect(m, m')
  {
    assert WireWitness(s, field) == WireWitness(m, field);
    assert m'.log.charges == s.log.charges;
  }

  lemma EffectSegwitWitness(m: Model, i: TxInput)
    requires FpAll(m.cfg.env, m.p1.seen) && m.stage.RequestSegwitWitness?
    ensures Effect(m, StepSegwitWitness(m, i).m)
  {
    if i.Segwit() {
      EffectSign143(m, i);
      match Sign143(m, i)
      case Refused(charges, kind) => EffectRefused(m, charges, kind);
      case Signed143(charge, i', sig) =>
        var s := Charged(m, [charge]);
        EffectEmitWitness(s, Witness(m.cfg, i', sig), Some((m.idx1, sig)));
        WitnessIsEffect(m, s, Witness(m.cfg, i', sig), StepSegwitWitness(m, i).m);
    } else {
      EffectEmitWitness(m, [0], None);
      WitnessIsEffect(m, m, [0], StepSegwitWitness(m, i).m);
    }
  }

  lemma EffectPrevStart(m: Model, a: Ack)
    requires Shape(m) && m.alive
    ensures m.stage.Request2PrevMeta? ==> Quiet(m, Step2PrevMeta(m, a).m)
    ensures m.stage.Request2PrevInput? ==> Quiet(m, Step2PrevInput(m, a.input).m)
  {
  }

  /** One message changes each log in at most one way. */
  lemma StepEffect(m: Model, a: Ack, ui: Choices)
    requires Shape(m) && m.alive
    ensures Effect(m, Step(m, a, ui).m)
  {
    if m.stage.Request1Input? {
      Effect1Input(m, a.input);
    } else if m.stage.Request2PrevMeta? || m.stage.Request2PrevInput? {
      EffectPrevStart(m, a);
      QuietIsEffect(m, Step(m, a, ui).m);
    } else if m.stage.Request2PrevOutput? {
      EffectPrevOutput(m, a.binOutput);
    } else if m.stage.Request2PrevExtraData? {
      EffectPrevExtraData(m, a.extraData);
    } else if m.stage.Request3Output? {
      Effect3Output(m, a.output, ui);
    } else if m.stage.Request4Input? {
      Effect4Input(m, a.input);
      QuietIsEffect(m, Step4Input(m, a.input).m);
    } else if m.stage.Request4Output? {
      Effect4Output(m, a.output);
    } else if m.stage.RequestSegwitInput? {
      EffectSegwitInput(m, a.input);
    } else if m.stage.Request5Output? {
      Effect5Output(m, a.output);
    } else {
      EffectSegwitWitness(m, a.input);
    }
  }
}

/**
 The promises of the signing workflow, over every run and every host.
 */
module SigningTheorems {
  import opened Bytes
  import opened Transaction
  import opened SigningModel
  import opened SigningRuns
  import opened SigningEffects
  import opened SigningLedger
  import opened SigningAgreement

  // -------------------------------------------------------- legacy signatures

  /** At the end of a pass: no new signature, or one over the pass, its outputs compared with Phase 1. */
  ghost predicate MaySign(m: Model, m': Model)
  {
    || m'.log.legacy == m.log.legacy
    || (&& m'.log.legacy == m.log.legacy + [LegacySig(m.idx1, m.pass.ins, m.pass.outs, LegacyPreimage(m))]
        && m.cfg.env.hash(PrintOuts(m.pass.outs)) == m.cfg.env.hash(PrintOuts(Bins(m.p1.shown)))
        && PrintOuts(m.pass.outs) in m'.log.hashed)
  }

  lemma SignLegacyRecords(m: Model)
    requires m.idx1 < |m.pass.ins|
    ensures MaySign(m, SignLegacy(m).m)
  {
    var i := m.pass.ins[m.idx1];
    match m.cfg.env.sign(i.addressN, m.cfg.env.hash(LegacyPreimage(m)))
    case None =>
    case Some(sig) =>
      match FillSignature(m.cfg, i, sig)
      case None =>
      case Some(i') => EffectEmitInput(Recorded(m), i', Some((m.idx1, sig)));
  }

  lemma LegacyFixed(m: Model, m': Model, r: LegacySig)
    requires m'.cfg == m.cfg && m'.p1 == m.p1 && m.log.hashed <= m'.log.hashed
    requires LegacyOk(m.cfg, m.p1, m.log.hashed, r)
    ensures LegacyOk(m'.cfg, m'.p1, m'.log.hashed, r)
  {
  }

  lemma LegacyRecorded(m: Model, m': Model)
    requires m'.cfg == m.cfg && m'.p1 == m.p1 && m.log.hashed <= m'.log.hashed
    requires LegacyAll(m) && MaySign(m, m')
    requires Tickets(m) && Checked(m) && OneScript(m.pass.ins, m.idx1)
    requires m.idx1 < |m.pass.ins| == |m.p1.seen| && |m.pass.outs| == |m.p1.shown|
    ensures LegacyAll(m')
  {
    forall k | 0 <= k < |m'.log.legacy| ensures LegacyOk(m'.cfg, m'.p1, m'.log.hashed, m'.log.legacy[k]) {
      if k < |m.log.legacy| {
        LegacyFixed(m, m', m.log.legacy[k]);
      }
    }
  }

  lemma Legacy4Output(m: Model, o: TxOutput)
    requires Shape(m) && m.alive && m.stage.Request4Output? && Progress(m) && LegacyAll(m)
    ensures LegacyAll(Step4Output(m, o).m)
  {
    Effect4Output(m, o);
    match m.cfg.env.compileOutput(o)
    case None =>
    case Some(script) =>
      var p := m.(pass := m.pass.(outs := m.pass.outs + [TxOut(o.amount, script)]));
      if m.idx2 == m.cfg.outputsCount - 1 {
        SignLegacyRecords(p);
        LegacyRecorded(p, Step4Output(m, o).m);
      }
  }

  lemma LegacyKept(m: Model, m': Model)
    requires Effect(m, m') && LegacyAll(m) && !m.stage.Request4Output?
    requires Phase1(m) ==> m.log.legacy == []
    ensures LegacyAll(m')
  {
    forall k | 0 <= k < |m'.log.legacy| ensures LegacyOk(m'.cfg, m'.p1, m'.log.hashed, m'.log.legacy[k]) {
      LegacyFixed(m, m', m.log.legacy[k]);
    }
  }

  // ------------------------------------------------------------ emitted bytes

  function Concat(parts: seq<Bytes>): Bytes
  {
    if |parts| == 0 then [] else Concat(parts[..|parts| - 1]) + parts[|parts| - 1]
  }

  /** The bytes the host has been given so far, as one printer of what was serialized. */
  function Printed(h: Header, w: WireLog): Bytes
  {
    WireStream(h, w.ins, w.outs)
    + Concat(w.witnesses)
    + (if h.inputsLen > 0 && |w.witnesses| == h.inputsLen then WireFooter(h) else [])
  }

  ghost predicate WireOk(m: Model)
  {
    m.wire.emitted == Printed(WireHead(m), m.wire)
  }

  lemma PrintedWithoutWitnesses(h: Header, w: WireLog)
    requires w.witnesses == []
    ensures Printed(h, w) == WireStream(h, w.ins, w.outs)
  {
  }

  lemma PrintedInput(h: Header, w: WireLog, i: TxIn)
    requires w.outs == [] && w.witnesses == [] && |w.ins| < h.inputsLen && w.emitted == Printed(h, w)
    ensures w.emitted + InputChunk(WireHeader(h), |w.ins|, i) == Printed(h, w.(ins := w.ins + [i]))
  {
    PrintedWithoutWitnesses(h, w);
    PrintedWithoutWitnesses(h, w.(ins := w.ins + [i]));
    WireStreamInput(h, w.ins, i);
  }

  lemma PrintedOutput(h: Header, w: WireLog, o: TxOut)
    requires w.witnesses == [] && |w.outs| < h.outputsLen && w.emitted == Printed(h, w)
    ensures w.emitted + OutputChunk(h, |w.outs|, o, WireFooter(h)) == Printed(h, w.(outs := w.outs + [o]))
  {
    PrintedWithoutWitnesses(h, w);
    PrintedWithoutWitnesses(h, w.(outs := w.outs + [o]));
    WireStreamOutput(h, w.ins, w.outs, o);
  }

  lemma RegroupWitness(a: Bytes, b: Bytes, field: Bytes, footer: Bytes)
    ensures (a + b + []) + (field + footer) == a + (b + field) + footer
  {
  }

  lemma PrintedWitness(h: Header, w: WireLog, field: Bytes)
    requires |w.witnesses| < h.inputsLen && w.emitted == Printed(h, w)
    ensures w.emitted + (field + if |w.witnesses| == h.inputsLen - 1 then WireFooter(h) else [])
         == Printed(h, w.(witnesses := w.witnesses + [field]))
  {
    assert (w.witnesses + [field])[..|w.witnesses|] == w.witnesses;
    RegroupWitness(WireStream(h, w.ins, w.outs), Concat(w.witnesses), field,
                   if |w.witnesses| == h.inputsLen - 1 then WireFooter(h) else []);
  }

  /** What the emission needs of a live session's shape. */
  ghost predicate WireAligned(m: Model)
  {
    && 0 < m.cfg.inputsCount
    && (Phase1(m) ==> m.wire.ins == [] && m.wire.outs == [] && m.wire.witnesses == [])
    && (m.stage.Request4Output? || m.stage.RequestSegwitInput? ==>
          m.wire.outs == [] && m.wire.witnesses == [] && |m.wire.ins| < m.cfg.inputsCount)
    && (m.stage.Request5Output? ==> m.wire.witnesses == [] && |m.wire.outs| < m.cfg.outputsCount)
    && (m.stage.RequestSegwitWitness? ==> |m.wire.witnesses| == m.idx1 < m.cfg.inputsCount)
  }

  lemma ShapeWireAligned(m: Model)
    requires Shape(m) && m.alive
    ensures WireAligned(m)
  {
  }

  lemma PrintedNothing(h: Header, w: WireLog)
    requires w.ins == [] && w.outs == [] && w.witnesses == [] && h.inputsLen > 0
    ensures Printed(h, w) == []
  {
  }

  lemma PrintedIgnoresEmitted(h: Header, w: WireLog, emitted: Bytes)
    ensures Printed(h, w.(emitted := emitted)) == Printed(h, w)
  {
    hide WireStream, Concat, WireFooter;
  }

  lemma WireKept(m: Model, m': Model)
    requires WireAligned(m) && WireOk(m) && Effect(m, m')
    ensures WireOk(m')
  {
    hide Printed, InputChunk, OutputChunk, WireFooter, WireHeader, AnySegwit;
    if m'.wire == m.wire {
      if Phase1(m) {
        PrintedNothing(WireHead(m), m.wire);
        PrintedNothing(WireHead(m'), m'.wire);
      }
    } else if m.stage.Request5Output? {
      var bin :| m'.wire == WireOutput(m, bin);
      PrintedOutput(WireHead(m), m.wire, bin);
      PrintedIgnoresEmitted(WireHead(m), m.wire.(outs := m.wire.outs + [bin]), m'.wire.emitted);
    } else if m.stage.RequestSegwitWitness? {
      var field :| m'.wire == WireWitness(m, field);
      PrintedWitness(WireHead(m), m.wire, field);
      PrintedIgnoresEmitted(WireHead(m), m.wire.(witnesses := m.wire.witnesses + [field]), m'.wire.emitted);
    } else {
      var i :| m'.wire == WireInput(m, i);
      PrintedInput(WireHead(m), m.wire, i);
      PrintedIgnoresEmitted(WireHead(m), m.wire.(ins := m.wire.ins + [i]), m'.wire.emitted);
    }
  }

  // -------------------------------------------------------------- invariant

  ghost predicate Invariant(m: Model)
  {
    && Shape(m)
    && CreditsOk(m) && ShownAll(m) && Ledger(m) && LegacyAll(m) && WireOk(m)
    && (m.alive ==> Progress(m))
  }

  lemma InitialLogs(cfg: Config)
    ensures var m := Init(cfg);
      CreditsOk(m) && ShownAll(m) && Ledger(m) && LegacyAll(m) && WireOk(m) && Progress(m)
  {
  }

  lemma InitialInvariant(cfg: Config)
    requires cfg.Valid()
    ensures Invariant(Init(cfg))
  {
    InitialLogs(cfg);
  }

  /** The logs follow from the effect of a step alone. */
  lemma LogsKept(m: Model, m': Model)
    requires Shape(m) && m.alive && CreditsOk(m) && ShownAll(m) && Ledger(m) && WireOk(m) && Effect(m, m')
    ensures CreditsOk(m') && ShownAll(m') && Ledger(m') && WireOk(m')
  {
    ShapeAligned(m);
    ShapeWireAligned(m);
    CreditsKept(m, m');
    ShownKept(m, m');
    LedgerKept(m, m');
    WireKept(m, m');
  }

  lemma NothingSignedInPhase1(m: Model)
    requires Shape(m) && m.alive && Phase1(m)
    ensures m.log.legacy == []
  {
  }

  lemma StepInvariant(m: Model, a: Ack, ui: Choices)
    requires Invariant(m)
    ensures Invariant(Step(m, a, ui).m)
  {
    hide Shape, Progress, CreditsOk, ShownAll, Ledger, LegacyAll, WireOk;
    StepKeepsShape(m, a, ui);
    if m.alive {
      StepEffect(m, a, ui);
      LogsKept(m, Step(m, a, ui).m);
      if m.stage.Request4Output? {
        Legacy4Output(m, a.output);
      } else {
        if Phase1(m) {
          NothingSignedInPhase1(m);
        }
        LegacyKept(m, Step(m, a, ui).m);
      }
      StepKeepsProgress(m, a, ui);
    }
  }

  lemma StepConfig(m: Model, a: Ack, ui: Choices)
    requires Shape(m)
    ensures Step(m, a, ui).m.cfg == m.cfg
  {
    if m.alive {
      StepEffect(m, a, ui);
    }
  }

  lemma InitialShape(cfg: Config)
    requires cfg.Valid()
    ensures Shape(Init(cfg))
  {
  }

  /** The session after any messages from any host, with any user choices. */
  ghost function Run(cfg: Config, host: seq<(Ack, Choices)>): (m: Model)
    requires cfg.Valid()
    ensures Shape(m)
    ensures m.cfg == cfg
  {
    if |host| == 0 then
      InitialShape(cfg);
      Init(cfg)
    else
      var m := Run(cfg, host[..|host| - 1]);
      StepKeepsShape(m, host[|host| - 1].0, host[|host| - 1].1);
      StepConfig(m, host[|host| - 1].0, host[|host| - 1].1);
      Step(m, host[|host| - 1].0, host[|host| - 1].1).m
  }

  lemma RunStarts(cfg: Config)
    requires cfg.Valid()
    ensures Run(cfg, []) == Init(cfg)
  {
  }

  lemma RunGrows(cfg: Config, host: seq<(Ack, Choices)>, a: Ack, ui: Choices)
    requires cfg.Valid()
    ensures Run(cfg, host + [(a, ui)]) == Step(Run(cfg, host), a, ui).m
  {
    assert (host + [(a, ui)])[..|host|] == host;
  }

  /** Every reachable session satisfies the invariant. */
  lemma {:induction false} RunInvariant(cfg: Config, host: seq<(Ack, Choices)>)
    requires cfg.Valid()
    ensures Invariant(Run(cfg, host))
  {
    if |host| == 0 {
      InitialInvariant(cfg);
    } else {
      var front, last := host[..|host| - 1], host[|host| - 1];
      RunInvariant(cfg, front);
      StepInvariant(Run(cfg, front), last.0, last.1);
    }
  }

  // ------------------------------------------------------------- agreement

  /**
   Whatever the host sends, a legacy signature covers the inputs and outputs of Phase 1:
   position by position the same outpoints and script types, the same amounts and scripts,
   in the signature preimage of the transaction with one script filled in.
   */
  lemma LegacyAgreement(cfg: Config, host: seq<(Ack, Choices)>, k: nat)
    requires cfg.Valid() && k < |Run(cfg, host).log.legacy|
    requires CollisionFree(cfg.env, Run(cfg, host).log.hashed)
    ensures var m := Run(cfg, host); var r := m.log.legacy[k];
      && SameInputs(r.inputs, m.p1.seen)
      && r.outputs == Bins(m.p1.shown)
      && OneScript(r.inputs, r.index)
      && r.preimage == HashStream(cfg.Head(false), Wires(r.inputs), Bins(m.p1.shown), []) + Le32(cfg.HashType())
  {
    RunInvariant(cfg, host);
    var m := Run(cfg, host);
    var r := m.log.legacy[k];
    assert LegacyOk(m.cfg, m.p1, m.log.hashed, r);
    CheckInjective(r.inputs, m.p1.seen);
    OutputsInjective(r.outputs, Bins(m.p1.shown));
  }

  /** `LegacyBelow` lists exactly the legacy inputs, in strictly increasing order. */
  lemma {:induction false} LegacyBelowSorted(ins: seq<TxInput>, k: nat)
    requires k <= |ins|
    ensures forall i :: i in LegacyBelow(ins, k) <==> 0 <= i < k && ins[i].Legacy()
    ensures forall a, b :: 0 <= a < b < |LegacyBelow(ins, k)| ==> LegacyBelow(ins, k)[a] < LegacyBelow(ins, k)[b]
  {
    if k > 0 {
      LegacyBelowSorted(ins, k - 1);
      var rest := LegacyBelow(ins, k - 1);
      forall a | 0 <= a < |rest| ensures rest[a] < k - 1 {
        assert rest[a] in rest;
      }
    }
  }

  /**
   Without forced BIP-143, a run that reaches the outputs of Phase 2 has made exactly one
   pass and signature for each legacy input of Phase 1, in increasing order.
   */
  lemma LegacySignedExactlyOnce(cfg: Config, host: seq<(Ack, Choices)>)
    requires cfg.Valid() && !cfg.forceBip143
    requires var m := Run(cfg, host);
      m.alive && (m.stage.Request5Output? || m.stage.RequestSegwitWitness?) && CollisionFree(cfg.env, m.log.hashed)
    ensures var m := Run(cfg, host);
      && |m.p1.seen| == cfg.inputsCount
      && Indices(m.log.legacy) == LegacyBelow(m.p1.seen, |m.p1.seen|)
      && forall i :: i in Indices(m.log.legacy) <==> 0 <= i < |m.p1.seen| && m.p1.seen[i].Legacy()
  {
    RunInvariant(cfg, host);
    var m := Run(cfg, host);
    ReachedOutputs(m);
    LegacyBelowSorted(m.p1.seen, |m.p1.seen|);
  }

  lemma ReachedOutputs(m: Model)
    requires Shape(m) && m.alive && Progress(m) && (m.stage.Request5Output? || m.stage.RequestSegwitWitness?)
    ensures |m.p1.seen| == m.cfg.inputsCount
    ensures Ordered(m) ==> SignedBelow(m, |m.p1.seen|)
  {
  }

  // ----------------------------------------------------------- input amounts

  /**
   The amount counted for a legacy input is that of output `prev_index` of the only
   transaction whose bytes hash to its previous hash: any such bytes parse to it.
   */
  lemma PreviousTransactionSoundness(cfg: Config, host: seq<(Ack, Choices)>, k: nat, bytes: Bytes)
    requires cfg.Valid() && k < |Run(cfg, host).p1.credits| && Run(cfg, host).p1.credits[k].Proven?
    requires k < |Run(cfg, host).p1.seen|
    requires Reverse(cfg.env.hash(bytes)) == Run(cfg, host).p1.seen[k].prevHash
    requires CollisionFree(cfg.env, Run(cfg, host).log.hashed + {bytes})
    ensures var m := Run(cfg, host);
      && Parse(false, bytes).Some?
      && m.p1.seen[k].prevIndex < |Parse(false, bytes).value.outs|
      && Parse(false, bytes).value.outs[m.p1.seen[k].prevIndex].amount == m.p1.credits[k].amount
  {
    RunInvariant(cfg, host);
    var m := Run(cfg, host);
    var c := m.p1.credits[k];
    assert CreditOk(m.cfg, m.p1.seen[k], c, m.log.hashed);
    var stream := c.tx.Stream();
    ReverseInvolutive(cfg.env.hash(bytes));
    ReverseInvolutive(cfg.env.hash(stream));
    assert stream in m.log.hashed + {bytes} && bytes in m.log.hashed + {bytes};
    assert bytes == stream;
    ParseHashStream(c.tx.head, c.tx.ins, c.tx.outs, c.tx.extra);
  }

  /** Every finished input has exactly one credit, of the kind its type and the coin allow. */
  lemma OneCreditPerInput(cfg: Config, host: seq<(Ack, Choices)>, k: nat)
    requires cfg.Valid() && k < |Run(cfg, host).p1.credits|
    ensures var m := Run(cfg, host);
      && k < |m.p1.seen|
      && (m.p1.credits[k].Claimed? ==> m.p1.seen[k].hasAmount && m.p1.credits[k].amount == m.p1.seen[k].amount)
      && (m.p1.credits[k].Claimed? ==> m.p1.seen[k].Segwit() || cfg.forceBip143)
  {
    RunInvariant(cfg, host);
    var m := Run(cfg, host);
    assert CreditOk(m.cfg, m.p1.seen[k], m.p1.credits[k], m.log.hashed);
  }

  // -------------------------------------------------------- value conservation

  lemma {:induction false} AllZero(shown: seq<Shown>)
    requires forall k :: 0 <= k < |shown| && !shown[k].confirmed ==> shown[k].bin.amount == 0
    ensures TotalShown(shown, false) == 0
  {
    if |shown| > 0 {
      AllZero(shown[..|shown| - 1]);
    }
  }

  /** With at most one positive unconfirmed output, their sum is zero or the amount of one of them. */
  lemma {:induction false} OnePositiveIsTheSum(shown: seq<Shown>)
    requires AtMostOnePositive(shown)
    ensures TotalShown(shown, false) == 0
      || exists k :: 0 <= k < |shown| && !shown[k].confirmed && shown[k].bin.amount == TotalShown(shown, false)
  {
    if |shown| > 0 {
      var front := shown[..|shown| - 1];
      var last := shown[|shown| - 1];
      if !last.confirmed && last.bin.amount > 0 {
        AllZero(front);
      } else {
        OnePositiveIsTheSum(front);
        if TotalShown(front, false) > 0 {
          var k :| 0 <= k < |front| && !front[k].confirmed && front[k].bin.amount == TotalShown(front, false);
          assert shown[k] == front[k];
        }
      }
    }
  }

  function Fee(m: Model): int
  {
    Total(m.p1.credits) - Spending(m.p1.shown)
  }

  /**
   Once the fee check has passed: inputs are confirmed outputs plus change plus fee, without
   wrap-around in 64 bits, and the change is the amount of a single output or zero.
   */
  lemma ValueConservation(cfg: Config, host: seq<(Ack, Choices)>)
    requires cfg.Valid() && Run(cfg, host).alive && !Phase1(Run(cfg, host))
    ensures Conserved(Run(cfg, host))
  {
    RunInvariant(cfg, host);
    var m := Run(cfg, host);
    ShapeConfirmed(m);
    Conservation(m);
  }

  ghost predicate Conserved(m: Model)
  {
    && |m.p1.credits| == |m.p1.seen| == m.cfg.inputsCount && |m.p1.shown| == m.cfg.outputsCount
    && Fee(m) >= 0
    && Total(m.p1.credits) == TotalShown(m.p1.shown, true) + TotalShown(m.p1.shown, false) + Fee(m)
    && Total(m.p1.credits) < TWO64
    && (TotalShown(m.p1.shown, false) == 0
        || exists k :: 0 <= k < |m.p1.shown| && !m.p1.shown[k].confirmed
                    && m.p1.shown[k].bin.amount == TotalShown(m.p1.shown, false))
  }

  lemma ShapeConfirmed(m: Model)
    requires Shape(m) && m.alive && !Phase1(m)
    ensures Confirmed(m) && Total(m.p1.credits) < TWO64
  {
  }

  lemma Conservation(m: Model)
    requires Confirmed(m) && Total(m.p1.credits) < TWO64 && AtMostOnePositive(m.p1.shown)
    ensures Conserved(m)
  {
    OnePositiveIsTheSum(m.p1.shown);
  }

  /** Same account, same fingerprint, and a change chain and index within bounds. */
  ghost predicate ChangeOf(env: Env, o: TxOutput, i: TxInput)
  {
    && |i.addressN| == |o.addressN| >= WALLET_DEPTH
    && Account(i.addressN) == Account(o.addressN)
    && o.addressN[|o.addressN| - 2] <= CHANGE_CHAIN && o.addressN[|o.addressN| - 1] <= MAX_LAST_ELEMENT
    && (o.multisig.Some? ==>
          i.multisig.Some? && env.fingerprint(i.multisig.value) == env.fingerprint(o.multisig.value))
  }

  /** An output that was not confirmed pays to a path all inputs share up to the account. */
  lemma ChangeBelongsToEveryInput(cfg: Config, host: seq<(Ack, Choices)>, k: nat, j: nat)
    requires cfg.Valid()
    requires k < |Run(cfg, host).p1.shown| && !Run(cfg, host).p1.shown[k].confirmed
    requires j < |Run(cfg, host).p1.seen|
    ensures ChangeOf(cfg.env, Run(cfg, host).p1.shown[k].output, Run(cfg, host).p1.seen[j])
  {
    RunInvariant(cfg, host);
    var m := Run(cfg, host);
    assert OutputOk(m, m.p1.shown[k]);
    ChangeOkOf(m, m.p1.shown[k].output, j);
  }

  lemma ChangeOkOf(m: Model, o: TxOutput, j: nat)
    requires ChangeOk(m, o) && j < |m.p1.seen|
    ensures ChangeOf(m.cfg.env, o, m.p1.seen[j])
  {
    PathOfAll(m.p1.seen);
    if o.multisig.Some? {
      FpOfAll(m.cfg.env, m.p1.seen);
    }
  }

  // ------------------------------------------------------------------ ledger

  /** BIP-143 signatures never spend more than Phase 1 claimed, and sign the Phase 1 lists. */
  lemma AuthorizedAmount(cfg: Config, host: seq<(Ack, Choices)>)
    requires cfg.Valid()
    ensures var m := Run(cfg, host);
      && TotalCharged(m.log.charges) <= TotalClaimed(m.p1.credits) <= Total(m.p1.credits)
      && forall k :: 0 <= k < |m.log.charges| ==>
           exists i: TxInput :: m.log.charges[k].amount == i.amount && m.log.charges[k].preimage == Bip143Preimage(m, i)
  {
    hide Step, Shape, Ledger, CreditsOk, ShownAll, LegacyAll, WireOk, Progress, Bip143Preimage;
    RunInvariant(cfg, host);
    ChargesAreSigned(Run(cfg, host));
    ClaimedWithinTotal(Run(cfg, host).p1.credits);
  }

  lemma ChargesAreSigned(m: Model)
    requires Ledger(m)
    ensures TotalCharged(m.log.charges) <= TotalClaimed(m.p1.credits)
    ensures forall k :: 0 <= k < |m.log.charges| ==>
              exists i: TxInput :: m.log.charges[k].amount == i.amount
                  && m.log.charges[k].preimage == Bip143Preimage(m, i)
  {
    forall k | 0 <= k < |m.log.charges|
      ensures exists i: TxInput ::
        m.log.charges[k].amount == i.amount && m.log.charges[k].preimage == Bip143Preimage(m, i)
    {
      assert ChargeSignsPhase1(m, m.log.charges[k]);
    }
  }

  // ------------------------------------------------------------ what is emitted

  predicate Finishes(o: Outcome)
  {
    exists k :: 0 <= k < |o.replies| && o.replies[k].TxRequest? && o.replies[k].request == ReqFinished
  }

  /** Only the last output or the last witness finishes a session. */
  lemma FinishingStep(m: Model, a: Ack, ui: Choices)
    requires Shape(m) && m.alive && (m.stage.Request5Output? || m.stage.RequestSegwitWitness?)
    requires Finishes(Step(m, a, ui))
    ensures var m' := Step(m, a, ui).m;
      && m'.p1 == m.p1 && m'.cfg == m.cfg
      && |m'.wire.ins| == m.cfg.inputsCount && |m'.wire.outs| == m.cfg.outputsCount
      && |m'.wire.witnesses| == if AnySegwit(m.p1.seen) then m.cfg.inputsCount else 0
  {
  }

  /**
   A finished session has serialized one whole transaction: without the marker it parses back
   with the lock time and 01 00 00 00 behind the outputs; with the marker, one witness per
   input stands between the outputs and that footer.
   */
  lemma FinishedTransaction(m: Model, a: Ack, ui: Choices)
    requires Invariant(m) && m.alive && (m.stage.Request5Output? || m.stage.RequestSegwitWitness?)
    requires Finishes(Step(m, a, ui))
    ensures var m' := Step(m, a, ui).m; var h := WireHead(m);
      && |m'.wire.ins| == m.cfg.inputsCount && |m'.wire.outs| == m.cfg.outputsCount
      && (h.segwit ==> |m'.wire.witnesses| == m.cfg.inputsCount)
      && Parse(h.segwit, m'.wire.emitted)
         == Some(Parsed(h.version, h.preblock, m'.wire.ins, m'.wire.outs, Concat(m'.wire.witnesses) + WireFooter(h)))
  {
    FinishingStep(m, a, ui);
    StepInvariant(m, a, ui);
    FinishedBytes(WireHead(m), Step(m, a, ui).m.wire);
  }

  lemma FinishedBytes(h: Header, w: WireLog)
    requires WholeTx(h, w.ins, w.outs) && w.ins != [] && w.emitted == Printed(h, w)
    requires |w.witnesses| == if h.segwit then h.inputsLen else 0
    ensures Parse(h.segwit, w.emitted)
         == Some(Parsed(h.version, h.preblock, w.ins, w.outs, Concat(w.witnesses) + WireFooter(h)))
  {
    var tail := Concat(w.witnesses) + (if h.segwit then WireFooter(h) else []);
    ParseWireStream(h, w.ins, w.outs, tail);
    AppendAssoc(WireStream(h, w.ins, w.outs), Concat(w.witnesses), if h.segwit then WireFooter(h) else []);
    if h.segwit {
      assert [] + tail == tail;
    } else {
      assert WireFooter(h) + tail == [] + WireFooter(h);
    }
  }
}

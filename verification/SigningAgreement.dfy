/**
 Agreement of the signing passes with Phase 1, and the order in which legacy
 inputs are signed. Where the code compares hashes, the statements assume that
 no two byte strings hashed in the run collide.
 */
module SigningAgreement {
  import opened Bytes
  import Varint
  import opened Transaction
  import opened SigningModel
  import opened SigningEffects

  /** Among the byte strings hashed in a run, equal digests mean equal strings. */
  ghost predicate CollisionFree(env: Env, hashed: set<Bytes>)
  {
    forall x, y :: x in hashed && y in hashed && env.hash(x) == env.hash(y) ==> x == y
  }

  // --------------------------------------------- preimages are self-delimiting

  /** Same outpoint and script type: what the checksum of Phase 1 fixes of an input. */
  predicate SameInput(a: TxInput, b: TxInput)
  {
    a.prevHash == b.prevHash && a.prevIndex == b.prevIndex && a.scriptType == b.scriptType
  }

  predicate SameInputs(a: seq<TxInput>, b: seq<TxInput>)
  {
    |a| == |b| && forall k :: 0 <= k < |a| ==> SameInput(a[k], b[k])
  }

  lemma CheckChunkInjective(a: TxInput, b: TxInput)
    requires CheckChunk(a) == CheckChunk(b)
    ensures SameInput(a, b)
  {
    DropPrefix(PrintOutpoint(a.prevHash, a.prevIndex), Le32(a.scriptType));
    DropPrefix(PrintOutpoint(b.prevHash, b.prevIndex), Le32(b.scriptType));
    Le32RoundTrip(a.scriptType);
    Le32RoundTrip(b.scriptType);
    DropPrefix(Reverse(a.prevHash), Le32(a.prevIndex));
    DropPrefix(Reverse(b.prevHash), Le32(b.prevIndex));
    Le32RoundTrip(a.prevIndex);
    Le32RoundTrip(b.prevIndex);
    ReverseInvolutive(a.prevHash);
    ReverseInvolutive(b.prevHash);
  }

  lemma CutLast(a: Bytes, x: Bytes, b: Bytes, y: Bytes)
    requires |x| == |y| && a + x == b + y
    ensures a == b && x == y
  {
    assert |a| == |b|;
    DropPrefix(a, x);
    DropPrefix(b, y);
  }

  /** Equal checksums preimages of equally many inputs: the inputs agree one by one. */
  lemma {:induction false} CheckInjective(a: seq<TxInput>, b: seq<TxInput>)
    requires |a| == |b| && CheckPreimage(a) == CheckPreimage(b)
    ensures SameInputs(a, b)
  {
    if |a| > 0 {
      var n := |a| - 1;
      CutLast(CheckPreimage(a[..n]), CheckChunk(a[n]), CheckPreimage(b[..n]), CheckChunk(b[n]));
      CheckChunkInjective(a[n], b[n]);
      CheckInjective(a[..n], b[..n]);
      forall k | 0 <= k < |a| ensures SameInput(a[k], b[k]) {
        if k < n {
          assert a[..n][k] == a[k] && b[..n][k] == b[k];
        }
      }
    }
  }

  /** Equal outputs preimages of equally many outputs: the outputs are the same. */
  lemma OutputsInjective(a: seq<TxOut>, b: seq<TxOut>)
    requires |a| == |b| && PrintOuts(a) == PrintOuts(b)
    ensures a == b
  {
    ParsePrintOuts(a, []);
    ParsePrintOuts(b, []);
  }

  // ------------------------------------------------- the order of signatures

  /** Indices below `k` of the legacy inputs, in increasing order. */
  function LegacyBelow(ins: seq<TxInput>, k: nat): seq<nat>
    requires k <= |ins|
  {
    if k == 0 then [] else LegacyBelow(ins, k - 1) + (if ins[k - 1].Legacy() then [k - 1] else [])
  }

  function Indices(legacy: seq<LegacySig>): (r: seq<nat>)
    ensures |r| == |legacy|
  {
    seq(|legacy|, k requires 0 <= k < |legacy| => legacy[k].index)
  }

  /** `next` is the first legacy input from `from` on, or lies outside when there is none. */
  predicate NextIs(ins: seq<TxInput>, from: nat, next: nat)
  {
    if from <= next < |ins|
    then ins[next].Legacy() && forall k :: from <= k < next ==> !ins[k].Legacy()
    else forall k :: from <= k < |ins| ==> !ins[k].Legacy()
  }

  /** `next` during Phase 1: the first legacy input so far, or the marker for none. */
  predicate FirstLegacy(ins: seq<TxInput>, next: nat)
  {
    NextIs(ins, 0, next) && (next < |ins| || next == NO_LEGACY)
  }

  /** What a signing pass has found behind the input `at` among its first inputs. */
  predicate Rediscovered(ins: seq<TxInput>, at: nat, next: nat)
  {
    && at <= next
    && (next == at ==> forall k :: at < k < |ins| ==> !ins[k].Legacy())
    && (next > at ==> next < |ins| && ins[next].Legacy() && forall k :: at < k < next ==> !ins[k].Legacy())
  }

  lemma RediscoveredNext(ins: seq<TxInput>, seen: seq<TxInput>, at: nat, next: nat)
    requires Rediscovered(ins, at, next) && SameInputs(ins, seen)
    ensures NextIs(seen, at + 1, next)
  {
    forall k | 0 <= k < |ins| ensures ins[k].Legacy() == seen[k].Legacy() {
      assert SameInput(ins[k], seen[k]);
    }
  }

  lemma LegacyBelowGrows(seen: seq<TxInput>, k: nat)
    requires k < |seen|
    ensures LegacyBelow(seen, k + 1) == LegacyBelow(seen, k) + (if seen[k].Legacy() then [k] else [])
  {
  }

  /** All signatures for the legacy inputs before `k` have been made, in order, and nothing else. */
  ghost predicate SignedBelow(m: Model, k: nat)
  {
    k <= |m.p1.seen| && Indices(m.log.legacy) == LegacyBelow(m.p1.seen, k)
  }

  /** The order is a property of coins without forced BIP-143, as long as no hashes collide. */
  ghost predicate Ordered(m: Model)
  {
    !m.cfg.forceBip143 && CollisionFree(m.cfg.env, m.log.hashed)
  }

  // -------------------------------------------------------------- invariant

  /** The hashes of Phase 1 that later passes are compared with have been recorded. */
  ghost predicate Tickets(m: Model)
  {
    CheckPreimage(m.p1.seen) in m.log.hashed && PrintOuts(Bins(m.p1.shown)) in m.log.hashed
  }

  /** Only the input being signed has a script. */
  ghost predicate OneScript(ins: seq<TxInput>, at: nat)
  {
    forall k :: 0 <= k < |ins| && k != at ==> ins[k].scriptSig == []
  }

  ghost predicate Checked(m: Model)
  {
    && m.cfg.env.hash(CheckPreimage(m.pass.ins)) == m.cfg.env.hash(CheckPreimage(m.p1.seen))
    && CheckPreimage(m.pass.ins) in m.log.hashed
  }

  /** A legacy signature covers exactly what Phase 1 has established, up to collisions. */
  ghost predicate LegacyOk(cfg: Config, p1: Phase1Log, hashed: set<Bytes>, r: LegacySig)
  {
    && r.index < |r.inputs| == |p1.seen| && |r.outputs| == |p1.shown|
    && CheckPreimage(r.inputs) in hashed && CheckPreimage(p1.seen) in hashed
    && cfg.env.hash(CheckPreimage(r.inputs)) == cfg.env.hash(CheckPreimage(p1.seen))
    && PrintOuts(r.outputs) in hashed && PrintOuts(Bins(p1.shown)) in hashed
    && cfg.env.hash(PrintOuts(r.outputs)) == cfg.env.hash(PrintOuts(Bins(p1.shown)))
    && OneScript(r.inputs, r.index)
    && r.preimage == HashStream(cfg.Head(false), Wires(r.inputs), r.outputs, []) + Le32(cfg.HashType())
  }

  ghost predicate LegacyAll(m: Model)
  {
    forall k :: 0 <= k < |m.log.legacy| ==> LegacyOk(m.cfg, m.p1, m.log.hashed, m.log.legacy[k])
  }

  ghost predicate Target(m: Model)
  {
    m.idx1 < |m.p1.seen| && m.p1.seen[m.idx1].Legacy() && SignedBelow(m, m.idx1)
  }

  ghost predicate Progress(m: Model)
  {
    match m.stage
    case Request1Input => m.cfg.forceBip143 || FirstLegacy(m.p1.seen, m.next)
    case Request2PrevMeta => FirstLegacy(m.p1.seen, m.next)
    case Request2PrevInput => FirstLegacy(m.p1.seen, m.next)
    case Request2PrevOutput => FirstLegacy(m.p1.seen, m.next)
    case Request2PrevExtraData => FirstLegacy(m.p1.seen, m.next)
    case Request3Output =>
      && (m.cfg.forceBip143 || FirstLegacy(m.p1.seen, m.next))
      && CheckPreimage(m.p1.seen) in m.log.hashed
    case Request4Input =>
      && Tickets(m) && (Ordered(m) ==> Target(m))
      && (if m.idx2 == 0 then m.next == m.idx1
          else OneScript(m.pass.ins, m.idx1) && Rediscovered(m.pass.ins, m.idx1, m.next))
    case Request4Output =>
      && Tickets(m) && (Ordered(m) ==> Target(m))
      && OneScript(m.pass.ins, m.idx1) && Rediscovered(m.pass.ins, m.idx1, m.next) && Checked(m)
    case RequestSegwitInput =>
      && Tickets(m) && m.idx1 != m.next
      && (Ordered(m) ==> SignedBelow(m, m.idx1) && NextIs(m.p1.seen, m.idx1, m.next))
    case Request5Output => Tickets(m) && (Ordered(m) ==> SignedBelow(m, |m.p1.seen|))
    case RequestSegwitWitness => Tickets(m) && (Ordered(m) ==> SignedBelow(m, |m.p1.seen|))
  }

  lemma OrderedBefore(m: Model, m': Model)
    requires m'.cfg == m.cfg && m.log.hashed <= m'.log.hashed && Ordered(m')
    ensures Ordered(m)
  {
  }

  // ----------------------------------------------------------- Phase 1 stages

  lemma ProgressPhase1NextInput(m: Model)
    requires m.cfg.forceBip143 || FirstLegacy(m.p1.seen, m.next)
    ensures Progress(Phase1NextInput(m).m)
  {
  }

  lemma Progress1Input(m: Model, i: TxInput)
    requires Shape(m) && m.alive && m.stage.Request1Input? && Progress(m)
    ensures var m' := Step1Input(m, i).m; m'.alive ==> Progress(m')
  {
    var w := WithInput(m, i);
    if !i.Legacy() {
      ProgressPhase1NextInput(w.Credited(Claimed(i.amount)));
    } else if m.cfg.forceBip143 {
      ProgressPhase1NextInput(w.Credited(Claimed(i.amount)));
    } else {
      assert w.p1.seen[|m.p1.seen|] == i;
      assert FirstLegacy(w.p1.seen, if m.next == NO_LEGACY then m.idx1 else m.next);
    }
  }

  lemma ProgressCheckPrevTx(m: Model)
    requires |m.p1.seen| == m.idx1 + 1 && m.p1.seen[m.idx1].prevIndex < |m.prev.outs|
    requires FirstLegacy(m.p1.seen, m.next)
    ensures var m' := CheckPrevTx(m).m; m'.alive ==> Progress(m')
  {
    var c := Proven(m.prev.outs[m.p1.seen[m.idx1].prevIndex].amount, m.prev);
    ProgressPhase1NextInput(m.Hashing({m.prev.Stream()}).Credited(c));
  }

  lemma ProgressPrevMeta(m: Model, a: Ack)
    requires Shape(m) && m.alive && m.stage.Request2PrevMeta? && Progress(m)
    ensures var m' := Step2PrevMeta(m, a).m; m'.alive ==> Progress(m')
  {
  }

  lemma ProgressPrevInput(m: Model, i: TxInput)
    requires Shape(m) && m.alive && m.stage.Request2PrevInput? && Progress(m)
    ensures var m' := Step2PrevInput(m, i).m; m'.alive ==> Progress(m')
  {
  }

  lemma ProgressPrevOutput(m: Model, o: TxOut)
    requires Shape(m) && m.alive && m.stage.Request2PrevOutput? && Progress(m)
    ensures var m' := Step2PrevOutput(m, o).m; m'.alive ==> Progress(m')
  {
    if m.idx2 == m.prev.head.outputsLen - 1 && m.prev.extraLen == 0 {
      ProgressCheckPrevTx(m.(prev := m.prev.(outs := m.prev.outs + [o])));
    }
  }

  lemma ProgressPrevExtraData(m: Model, data: Chunk)
    requires Shape(m) && m.alive && m.stage.Request2PrevExtraData? && Progress(m)
    ensures var m' := Step2PrevExtraData(m, data).m; m'.alive ==> Progress(m')
  {
    var m' := m.(prev := m.prev.(extra := m.prev.extra + data));
    if m'.prev.Received() >= m.prev.extraLen {
      ProgressCheckPrevTx(m');
    }
  }

  lemma ProgressPhase2NextInput(m: Model, s: Serialized)
    requires Tickets(m)
    requires Ordered(m) ==> SignedBelow(m, m.idx1) && NextIs(m.p1.seen, m.idx1, m.next)
    requires m.next < |m.p1.seen| || m.next == NO_LEGACY
    requires m.idx1 < |m.p1.seen| < NO_LEGACY
    ensures Progress(Phase2NextInput(m, s).m)
  {
  }

  lemma ProgressCheckFee(m: Model, ui: Choices)
    requires Tickets(m) && m.log.legacy == []
    requires Ordered(m) ==> NextIs(m.p1.seen, 0, m.next)
    requires m.next < |m.p1.seen| || m.next == NO_LEGACY
    requires 0 < |m.p1.seen| < NO_LEGACY
    ensures var m' := CheckFee(m, ui).m; m'.alive ==> Progress(m')
  {
    assert Indices([]) == LegacyBelow(m.p1.seen, 0);
    ProgressPhase2NextInput(m.(idx1 := 0), NOTHING);
  }

  lemma ProgressPhase1NextOutput(m: Model, ui: Choices)
    requires m.stage.Request3Output? && Progress(m) && m.log.legacy == []
    requires m.next < |m.p1.seen| || m.next == NO_LEGACY
    requires 0 < |m.p1.seen| < NO_LEGACY
    ensures var m' := Phase1NextOutput(m, ui).m; m'.alive ==> Progress(m')
  {
    if !(m.idx1 < m.cfg.outputsCount - 1) {
      ProgressCheckFee(m.Hashing({PrintOuts(Bins(m.p1.shown))}), ui);
    }
  }

  lemma Progress3Output(m: Model, o: TxOutput, ui: Choices)
    requires Shape(m) && m.alive && m.stage.Request3Output? && Progress(m)
    ensures var m' := Step3Output(m, o, ui).m; m'.alive ==> Progress(m')
  {
    match m.cfg.env.compileOutput(o)
    case None =>
    case Some(script) =>
      ProgressPhase1NextOutput(AddShown(m, Shown(o, TxOut(o.amount, script), !IsChange(m, o))), ui);
  }

  // ----------------------------------------------------------- Phase 2 stages

  lemma ProgressNextPassInput(m: Model)
    requires m.stage.Request4Input? && Tickets(m) && (Ordered(m) ==> Target(m))
    requires OneScript(m.pass.ins, m.idx1) && Rediscovered(m.pass.ins, m.idx1, m.next)
    ensures var m' := Phase2NextPassInput(m).m; m'.alive ==> Progress(m')
  {
    hide FpAll, Total, TotalClaimed, TotalCharged, TotalShown;
  }

  lemma Progress4Input(m: Model, i: TxInput)
    requires Shape(m) && m.alive && m.stage.Request4Input? && Progress(m)
    ensures var m' := Step4Input(m, i).m; m'.alive ==> Progress(m')
  {
    hide FpAll, Total, TotalClaimed, TotalCharged, TotalShown;
    if m.idx2 == m.idx1 {
      match CompileInput(m, i)
      case None =>
      case Some(script) => ProgressNextPassInput(Passed(m, i.(scriptSig := script), m.next));
    } else {
      ProgressNextPassInput(Passed(m, i.(scriptSig := []), NextTarget(m, i)));
    }
  }

  lemma ProgressEmitInput(m: Model, i: TxInput, signature: Option<(nat, Signature)>)
    requires Tickets(m) && m.idx1 < |m.p1.seen| == m.cfg.inputsCount < NO_LEGACY
    requires m.next < |m.p1.seen| || m.next == NO_LEGACY
    requires Ordered(m) ==> SignedBelow(m, m.idx1 + 1) && NextIs(m.p1.seen, m.idx1 + 1, m.next)
    ensures Progress(EmitInput(m, i, signature).m)
  {
    hide CheckPreimage, PrintOuts, Bins, InputChunk, WireHeader, AnySegwit;
    var w := WithWire(m, WireInput(m, i.Wire())).(idx1 := m.idx1 + 1);
    if m.idx1 < m.cfg.inputsCount - 1 {
      ProgressPhase2NextInput(w, Serialized(signature,
          Some(InputChunk(WireHeader(WireHead(m)), |m.wire.ins|, i.Wire()))));
    }
  }

  /** At the end of a pass that agrees with Phase 1, one more legacy input is signed. */
  lemma RecordedProgress(m: Model)
    requires Tickets(m) && m.idx1 < |m.pass.ins| == |m.p1.seen|
    requires (Ordered(m) ==> Target(m)) && Rediscovered(m.pass.ins, m.idx1, m.next) && Checked(m)
    ensures var r := Recorded(m);
      Tickets(r) && (Ordered(r) ==> SignedBelow(r, m.idx1 + 1) && NextIs(m.p1.seen, m.idx1 + 1, m.next))
  {
    var r := Recorded(m);
    if Ordered(r) {
      OrderedBefore(m, r);
      assert CheckPreimage(m.pass.ins) == CheckPreimage(m.p1.seen);
      CheckInjective(m.pass.ins, m.p1.seen);
      RediscoveredNext(m.pass.ins, m.p1.seen, m.idx1, m.next);
      assert Indices(r.log.legacy) == Indices(m.log.legacy) + [m.idx1];
      LegacyBelowGrows(m.p1.seen, m.idx1);
    }
  }

  lemma ProgressSignLegacy(m: Model)
    requires Tickets(m) && m.idx1 < |m.pass.ins| == |m.p1.seen| == m.cfg.inputsCount < NO_LEGACY
    requires m.next < |m.p1.seen| || m.next == NO_LEGACY
    requires (Ordered(m) ==> Target(m)) && Rediscovered(m.pass.ins, m.idx1, m.next) && Checked(m)
    ensures var m' := SignLegacy(m).m; m'.alive ==> !m.alive || Progress(m')
  {
    var i := m.pass.ins[m.idx1];
    match m.cfg.env.sign(i.addressN, m.cfg.env.hash(LegacyPreimage(m)))
    case None =>
    case Some(sig) =>
      match FillSignature(m.cfg, i, sig)
      case None =>
      case Some(i') =>
        RecordedProgress(m);
        ProgressEmitInput(Recorded(m), i', Some((m.idx1, sig)));
  }

  lemma Progress4Output(m: Model, o: TxOutput)
    requires Shape(m) && m.alive && m.stage.Request4Output? && Progress(m)
    ensures var m' := Step4Output(m, o).m; m'.alive ==> Progress(m')
  {
    match m.cfg.env.compileOutput(o)
    case None =>
    case Some(script) =>
      if m.idx2 == m.cfg.outputsCount - 1 {
        ProgressSignLegacy(m.(pass := m.pass.(outs := m.pass.outs + [TxOut(o.amount, script)])));
      }
  }

  lemma ProgressSegwitInput(m: Model, i: TxInput)
    requires Shape(m) && m.alive && m.stage.RequestSegwitInput? && Progress(m)
    ensures var m' := StepSegwitInput(m, i).m; m'.alive ==> Progress(m')
  {
    LegacyBelowGrows(m.p1.seen, m.idx1);
    if i.Legacy() {
      if m.cfg.forceBip143 {
        match Sign143(m, i)
        case Refused(_, _) =>
        case Signed143(charge, i', sig) => ProgressEmitInput(Charged(m, [charge]), i', Some((m.idx1, sig)));
      }
    } else if i.scriptType == SPENDP2SHWITNESS {
      match P2shWitnessScript(m, i)
      case None =>
      case Some(script) => ProgressEmitInput(m, i.(scriptSig := script), None);
    } else {
      ProgressEmitInput(m, i.(scriptSig := []), None);
    }
  }

  lemma Progress5Output(m: Model, o: TxOutput)
    requires Shape(m) && m.alive && m.stage.Request5Output? && Progress(m)
    ensures var m' := Step5Output(m, o).m; m'.alive ==> Progress(m')
  {
    hide FpAll, Total, TotalClaimed, TotalCharged, TotalShown;
  }

  lemma ProgressEmitWitness(m: Model, field: Bytes, signature: Option<(nat, Signature)>)
    requires m.stage.RequestSegwitWitness? && Progress(m)
    ensures var m' := EmitWitness(m, field, signature).m; m'.alive ==> Progress(m')
  {
  }

  lemma ProgressSegwitWitness(m: Model, i: TxInput)
    requires Shape(m) && m.alive && m.stage.RequestSegwitWitness? && Progress(m)
    ensures var m' := StepSegwitWitness(m, i).m; m'.alive ==> Progress(m')
  {
    if i.Segwit() {
      match Sign143(m, i)
      case Refused(_, _) =>
      case Signed143(charge, i', sig) =>
        ProgressEmitWitness(Charged(m, [charge]), Witness(m.cfg, i', sig), Some((m.idx1, sig)));
    } else {
      ProgressEmitWitness(m, [0], None);
    }
  }

  /** Every message keeps a live session on course. */
  lemma StepKeepsProgress(m: Model, a: Ack, ui: Choices)
    requires Shape(m) && m.alive && Progress(m)
    ensures var m' := Step(m, a, ui).m; m'.alive ==> Progress(m')
  {
    hide Progress, FpAll, Total, TotalClaimed, TotalCharged, TotalShown;
    if m.stage.Request1Input? {
      Progress1Input(m, a.input);
    } else if m.stage.Request2PrevMeta? {
      ProgressPrevMeta(m, a);
    } else if m.stage.Request2PrevInput? {
      ProgressPrevInput(m, a.input);
    } else if m.stage.Request2PrevOutput? {
      ProgressPrevOutput(m, a.binOutput);
    } else if m.stage.Request2PrevExtraData? {
      ProgressPrevExtraData(m, a.extraData);
    } else if m.stage.Request3Output? {
      Progress3Output(m, a.output, ui);
    } else if m.stage.Request4Input? {
      Progress4Input(m, a.input);
    } else if m.stage.Request4Output? {
      Progress4Output(m, a.output);
    } else if m.stage.RequestSegwitInput? {
      ProgressSegwitInput(m, a.input);
    } else if m.stage.Request5Output? {
      Progress5Output(m, a.output);
    } else {
      ProgressSegwitWitness(m, a.input);
    }
  }
}

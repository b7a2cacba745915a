/**
 Signing sessions end: a lexicographic measure over phase, outer index, stage and
 inner index drops with every message, except where the 32-bit counter of received
 extra data wraps around.
 */
module SigningTermination {
  import opened Bytes
  import opened Transaction
  import opened SigningModel
  import opened SigningRuns
  import opened SigningTheorems

  datatype Rank = Rank(phase: nat, outer: nat, stage: nat, inner: nat)

  predicate Below(a: Rank, b: Rank)
  {
    || a.phase < b.phase
    || (a.phase == b.phase
        && (|| a.outer < b.outer
            || (a.outer == b.outer && (a.stage < b.stage || (a.stage == b.stage && a.inner < b.inner)))))
  }

  function Left(count: nat, done: nat): nat
  {
    if done <= count then count - done else 0
  }

  function RankOf(m: Model): Rank
  {
    var inputs := Left(m.cfg.inputsCount, m.idx1);
    var outputs := Left(m.cfg.outputsCount, m.idx1);
    if !m.alive then Rank(0, 0, 0, 0) else
    match m.stage
    case Request1Input => Rank(5, inputs, 4, 0)
    case Request2PrevMeta => Rank(5, inputs, 3, 0)
    case Request2PrevInput => Rank(5, inputs, 2, Left(m.prev.head.inputsLen, m.idx2))
    case Request2PrevOutput => Rank(5, inputs, 1, Left(m.prev.head.outputsLen, m.idx2))
    case Request2PrevExtraData => Rank(5, inputs, 0, Left(m.prev.extraLen, m.prev.Received()))
    case Request3Output => Rank(4, outputs, 0, 0)
    case Request4Input => Rank(3, inputs, 1, Left(m.cfg.inputsCount, m.idx2))
    case Request4Output => Rank(3, inputs, 0, Left(m.cfg.outputsCount, m.idx2))
    case RequestSegwitInput => Rank(3, inputs, 0, 0)
    case Request5Output => Rank(2, outputs, 0, 0)
    case RequestSegwitWitness => Rank(1, inputs, 0, 0)
  }

  /** The counter of received extra data does not wrap around on this message. */
  predicate NoWrap(m: Model, a: Ack)
  {
    m.stage.Request2PrevExtraData? ==> m.prev.Received() as int + |a.extraData| < TWO32
  }

  /** A step down, and what it may do to the announced length of extra data. */
  ghost predicate Drops(m: Model, m': Model)
  {
    Below(RankOf(m'), RankOf(m)) && m'.prev.extraLen == m.prev.extraLen
  }

  // -------------------------------------------------------------- the stages

  lemma DropPhase1NextInput(m: Model)
    requires m.idx1 < m.cfg.inputsCount && m.alive
    ensures var m' := Phase1NextInput(m).m;
      && m'.prev == m.prev && m'.cfg == m.cfg
      && (|| RankOf(m').phase == 4
          || (RankOf(m').phase == 5 && RankOf(m').outer < Left(m.cfg.inputsCount, m.idx1)))
  {
  }

  lemma Drop1Input(m: Model, i: TxInput)
    requires m.alive && m.stage.Request1Input? && m.idx1 < m.cfg.inputsCount && FpAll(m.cfg.env, m.p1.seen)
    ensures Drops(m, Step1Input(m, i).m)
  {
    DropPhase1NextInput(WithInput(m, i).Credited(Claimed(i.amount)));
  }

  lemma DropCheckPrevTx(m: Model)
    requires m.alive && m.idx1 < m.cfg.inputsCount
    requires m.stage.Request2PrevOutput? || m.stage.Request2PrevExtraData?
    requires |m.p1.seen| == m.idx1 + 1 && m.p1.seen[m.idx1].prevIndex < |m.prev.outs|
    ensures Drops(m, CheckPrevTx(m).m)
  {
    DropPhase1NextInput(m.Hashing({m.prev.Stream()})
                         .Credited(Proven(m.prev.outs[m.p1.seen[m.idx1].prevIndex].amount, m.prev)));
  }

  lemma DropPrevMeta(m: Model, a: Ack)
    requires m.alive && m.stage.Request2PrevMeta? && |m.p1.seen| == m.idx1 + 1
    ensures var m' := Step2PrevMeta(m, a).m;
      Below(RankOf(m'), RankOf(m)) && (m'.prev.extraLen == a.extraDataLen || m'.prev.extraLen == m.prev.extraLen)
  {
  }

  lemma DropPrevInput(m: Model, i: TxInput)
    requires m.alive && m.stage.Request2PrevInput? && |m.p1.seen| == m.idx1 + 1 && m.idx2 < m.prev.head.inputsLen
    ensures Drops(m, Step2PrevInput(m, i).m)
  {
  }

  lemma DropPrevOutput(m: Model, o: TxOut)
    requires m.alive && m.stage.Request2PrevOutput? && |m.p1.seen| == m.idx1 + 1 && m.idx1 < m.cfg.inputsCount
    requires |m.prev.outs| == m.idx2 < m.prev.head.outputsLen
    requires m.p1.seen[m.idx1].prevIndex < m.prev.head.outputsLen
    ensures Drops(m, Step2PrevOutput(m, o).m)
  {
    var m' := m.(prev := m.prev.(outs := m.prev.outs + [o]));
    if m.idx2 == m.prev.head.outputsLen - 1 && m.prev.extraLen == 0 {
      DropCheckPrevTx(m');
    }
  }

  /** The counter of `total` bytes received, modulo 2^32, after `d` more. */
  lemma CounterGrows(total: nat, d: nat, len: uint32)
    requires 0 < d < TWO32 && total % TWO32 < len
    ensures (total + d) % TWO32 == (total % TWO32 + d) % TWO32
    ensures (total + d) % TWO32 < len ==>
              (Left(len, (total + d) % TWO32) < Left(len, total % TWO32) <==> total % TWO32 + d < TWO32)
    ensures (total + d) % TWO32 >= len ==> total % TWO32 + d < TWO32
  {
    ModuloStep(total, d);
    if total % TWO32 + d >= TWO32 {
      assert (total % TWO32 + d) % TWO32 == total % TWO32 + d - TWO32;
    }
  }

  lemma ModuloStep(a: nat, d: nat)
    ensures (a + d) % TWO32 == (a % TWO32 + d) % TWO32
  {
  }

  /** The one stage where a message can be accepted without coming closer to the end. */
  lemma DropPrevExtraData(m: Model, data: Chunk)
    requires m.alive && m.stage.Request2PrevExtraData? && |m.p1.seen| == m.idx1 + 1 && m.idx1 < m.cfg.inputsCount
    requires m.p1.seen[m.idx1].prevIndex < |m.prev.outs| && m.prev.Received() < m.prev.extraLen
    ensures var m' := Step2PrevExtraData(m, data).m;
      && m'.prev.extraLen == m.prev.extraLen
      && (Below(RankOf(m'), RankOf(m)) <==> !m'.alive || m.prev.Received() as int + |data| < TWO32)
  {
    hide HashStream, CheckPrevTx;
    if |data| != 0 {
      CounterGrows(|m.prev.extra|, |data|, m.prev.extraLen);
      if (m.prev.Received() as int + |data|) % TWO32 <= m.prev.extraLen {
        var m' := m.(prev := m.prev.(extra := m.prev.extra + data));
        if m'.prev.Received() >= m.prev.extraLen {
          DropCheckPrevTx(m');
        }
      }
    }
  }

  lemma DropPhase2NextInput(m: Model, s: Serialized)
    requires m.alive
    ensures var m' := Phase2NextInput(m, s).m;
      m'.prev == m.prev && RankOf(m').phase == 3 && RankOf(m').outer == Left(m.cfg.inputsCount, m.idx1)
  {
  }

  lemma DropPhase1NextOutput(m: Model, ui: Choices)
    requires m.alive && m.stage.Request3Output? && m.idx1 < m.cfg.outputsCount
    ensures Drops(m, Phase1NextOutput(m, ui).m)
  {
    DropPhase2NextInput(m.Hashing({PrintOuts(Bins(m.p1.shown))}).(idx1 := 0), NOTHING);
  }

  lemma Drop3Output(m: Model, o: TxOutput, ui: Choices)
    requires m.alive && m.stage.Request3Output? && m.idx1 < m.cfg.outputsCount && FpAll(m.cfg.env, m.p1.seen)
    ensures Drops(m, Step3Output(m, o, ui).m)
  {
    hide FpAll, FpOf, PathOf, Total, TotalClaimed, TotalCharged, TotalShown;
    match m.cfg.env.compileOutput(o)
    case None =>
    case Some(script) => DropPhase1NextOutput(AddShown(m, Shown(o, TxOut(o.amount, script), !IsChange(m, o))), ui);
  }

  lemma DropNextPassInput(m: Model)
    requires m.alive && m.stage.Request4Input? && m.idx2 < m.cfg.inputsCount
    ensures Drops(m, Phase2NextPassInput(m).m)
  {
  }

  lemma Drop4Input(m: Model, i: TxInput)
    requires m.alive && m.stage.Request4Input? && m.idx2 < m.cfg.inputsCount && FpAll(m.cfg.env, m.p1.seen)
    ensures Drops(m, Step4Input(m, i).m)
  {
    if m.idx2 == m.idx1 {
      match CompileInput(m, i)
      case None =>
      case Some(script) => DropNextPassInput(Passed(m, i.(scriptSig := script), m.next));
    } else {
      DropNextPassInput(Passed(m, i.(scriptSig := []), NextTarget(m, i)));
    }
  }

  lemma DropEmitInput(m: Model, i: TxInput, signature: Option<(nat, Signature)>)
    requires m.alive && (m.stage.Request4Output? || m.stage.RequestSegwitInput?) && m.idx1 < m.cfg.inputsCount
    ensures Drops(m, EmitInput(m, i, signature).m)
  {
  }

  lemma SameRank(m: Model, w: Model, m': Model)
    requires w == m.(log := w.log) && Drops(w, m')
    ensures Drops(m, m')
  {
  }

  /** Signing ends the session or goes on to serialize the signed input. */
  lemma SignLegacyCases(m: Model) returns (i: TxInput, signature: Option<(nat, Signature)>)
    requires m.idx1 < |m.pass.ins|
    ensures var m' := SignLegacy(m).m;
      (!m'.alive && m'.prev == m.prev) || m' == EmitInput(Recorded(m), i, signature).m
  {
    i, signature := m.pass.ins[m.idx1], None;
    match m.cfg.env.sign(i.addressN, m.cfg.env.hash(LegacyPreimage(m)))
    case None =>
    case Some(sig) =>
      match FillSignature(m.cfg, i, sig)
      case None =>
      case Some(i') => i, signature := i', Some((m.idx1, sig));
  }

  lemma DropSignLegacy(m: Model)
    requires m.alive && m.stage.Request4Output? && m.idx1 < m.cfg.inputsCount && m.idx1 < |m.pass.ins|
    ensures Drops(m, SignLegacy(m).m)
  {
    var i, signature := SignLegacyCases(m);
    DropEmitInput(Recorded(m), i, signature);
    SameRank(m, Recorded(m), EmitInput(Recorded(m), i, signature).m);
    DeadDrops(m);
  }

  lemma DeadDrops(m: Model)
    requires m.alive
    ensures forall m': Model :: !m'.alive && m'.prev == m.prev ==> Drops(m, m')
  {
  }

  lemma Drop4Output(m: Model, o: TxOutput)
    requires m.alive && m.stage.Request4Output? && m.idx1 < m.cfg.inputsCount && m.idx1 < |m.pass.ins|
    requires m.idx2 < m.cfg.outputsCount
    ensures Drops(m, Step4Output(m, o).m)
  {
    match m.cfg.env.compileOutput(o)
    case None =>
    case Some(script) =>
      if m.idx2 == m.cfg.outputsCount - 1 {
        DropSignLegacy(m.(pass := m.pass.(outs := m.pass.outs + [TxOut(o.amount, script)])));
      }
  }

  lemma DropSegwitInput(m: Model, i: TxInput)
    requires m.alive && m.stage.RequestSegwitInput? && m.idx1 < m.cfg.inputsCount && FpAll(m.cfg.env, m.p1.seen)
    ensures Drops(m, StepSegwitInput(m, i).m)
  {
    hide FpAll, FpOf, PathOf, Total, TotalClaimed, TotalCharged, TotalShown;
    if i.Legacy() {
      match Sign143(m, i)
      case Refused(_, _) =>
      case Signed143(charge, i', sig) => DropEmitInput(Charged(m, [charge]), i', Some((m.idx1, sig)));
    } else if i.scriptType == SPENDP2SHWITNESS {
      match P2shWitnessScript(m, i)
      case None =>
      case Some(script) => DropEmitInput(m, i.(scriptSig := script), None);
    } else {
      DropEmitInput(m, i.(scriptSig := []), None);
    }
  }

  lemma Drop5Output(m: Model, o: TxOutput)
    requires m.alive && m.stage.Request5Output? && m.idx1 < m.cfg.outputsCount
    ensures Drops(m, Step5Output(m, o).m)
  {
  }

  lemma DropEmitWitness(m: Model, field: Bytes, signature: Option<(nat, Signature)>)
    requires m.alive && m.stage.RequestSegwitWitness? && m.idx1 < m.cfg.inputsCount
    ensures Drops(m, EmitWitness(m, field, signature).m)
  {
  }

  lemma DropSegwitWitness(m: Model, i: TxInput)
    requires m.alive && m.stage.RequestSegwitWitness? && m.idx1 < m.cfg.inputsCount && FpAll(m.cfg.env, m.p1.seen)
    ensures Drops(m, StepSegwitWitness(m, i).m)
  {
    hide FpAll, FpOf, PathOf, Total, TotalClaimed, TotalCharged, TotalShown;
    if i.Segwit() {
      match Sign143(m, i)
      case Refused(_, _) =>
      case Signed143(charge, i', sig) =>
        DropEmitWitness(Charged(m, [charge]), Witness(m.cfg, i', sig), Some((m.idx1, sig)));
    } else {
      DropEmitWitness(m, [0], None);
    }
  }

  /** Every message brings a live session closer to its end, unless the 32-bit counter wraps. */
  lemma StepDescends(m: Model, a: Ack, ui: Choices)
    requires Shape(m) && m.alive && NoWrap(m, a)
    ensures var m' := Step(m, a, ui).m;
      Below(RankOf(m'), RankOf(m)) && (m'.prev.extraLen == m.prev.extraLen || m'.prev.extraLen == a.extraDataLen)
  {
    if m.stage.Request1Input? {
      Drop1Input(m, a.input);
    } else if m.stage.Request2PrevMeta? {
      DropPrevMeta(m, a);
    } else if m.stage.Request2PrevInput? {
      DropPrevInput(m, a.input);
    } else if m.stage.Request2PrevOutput? {
      DropPrevOutput(m, a.binOutput);
    } else if m.stage.Request2PrevExtraData? {
      DropPrevExtraData(m, a.extraData);
    } else if m.stage.Request3Output? {
      Drop3Output(m, a.output, ui);
    } else if m.stage.Request4Input? {
      Drop4Input(m, a.input);
    } else if m.stage.Request4Output? {
      Drop4Output(m, a.output);
    } else if m.stage.RequestSegwitInput? {
      DropSegwitInput(m, a.input);
    } else if m.stage.Request5Output? {
      Drop5Output(m, a.output);
    } else {
      DropSegwitWitness(m, a.input);
    }
  }

  // -------------------------------------------------------------- whole runs

  /** The longest extra data whose received length cannot wrap around in chunks of up to 1024 bytes. */
  const MAX_EXTRA: int := TWO32 - 1024

  function First(host: nat -> (Ack, Choices), n: nat): (r: seq<(Ack, Choices)>)
    ensures |r| == n
  {
    seq(n, k requires 0 <= k < n => host(k))
  }

  /**
   No host that announces at most MAX_EXTRA bytes can keep a session going, and under forced BIP-143
   no host at all.
   */
  lemma SessionEnds(cfg: Config, host: nat -> (Ack, Choices)) returns (n: nat)
    requires cfg.Valid() && (cfg.forceBip143 || forall k :: host(k).0.extraDataLen <= MAX_EXTRA)
    ensures !Run(cfg, First(host, n)).alive
  {
    n := SessionEndsFrom(cfg, host, 0, RankOf(Run(cfg, First(host, 0))));
  }

  lemma {:induction false} SessionEndsFrom(cfg: Config, host: nat -> (Ack, Choices), at: nat, r: Rank) returns (n: nat)
    requires cfg.Valid() && (cfg.forceBip143 || forall k :: host(k).0.extraDataLen <= MAX_EXTRA)
    requires (cfg.forceBip143 || Run(cfg, First(host, at)).prev.extraLen <= MAX_EXTRA)
      && r == RankOf(Run(cfg, First(host, at)))
    ensures !Run(cfg, First(host, n)).alive
    decreases r.phase, r.outer, r.stage, r.inner
  {
    if !Run(cfg, First(host, at)).alive {
      n := at;
    } else {
      MessageDescends(cfg, host, at);
      n := SessionEndsFrom(cfg, host, at + 1, RankOf(Run(cfg, First(host, at + 1))));
    }
  }

  lemma MessageDescends(cfg: Config, host: nat -> (Ack, Choices), at: nat)
    requires cfg.Valid() && (cfg.forceBip143 || host(at).0.extraDataLen <= MAX_EXTRA)
    requires (cfg.forceBip143 || Run(cfg, First(host, at)).prev.extraLen <= MAX_EXTRA)
      && Run(cfg, First(host, at)).alive
    ensures Below(RankOf(Run(cfg, First(host, at + 1))), RankOf(Run(cfg, First(host, at))))
    ensures cfg.forceBip143 || Run(cfg, First(host, at + 1)).prev.extraLen <= MAX_EXTRA
  {
    hide Run, Shape, RankOf, Below, NoWrap;
    var (a, ui) := host(at);
    var m := Run(cfg, First(host, at));
    assert First(host, at + 1) == First(host, at) + [(a, ui)];
    RunGrows(cfg, First(host, at), a, ui);
    BoundedNeverWraps(m, a);
    StepDescends(m, a, ui);
  }

  lemma BoundedNeverWraps(m: Model, a: Ack)
    requires Shape(m) && m.alive && (m.cfg.forceBip143 || m.prev.extraLen <= MAX_EXTRA)
    ensures NoWrap(m, a)
  {
  }

  /** One byte at a time, and 1024 where that carries the counter past 2^32. */
  function EndlessSize(received: nat, len: nat): (n: nat)
    ensures 0 < n <= 1024
  {
    if received + 1 < len then 1 else 1024
  }

  function EndlessMessage(m: Model, a: Ack): Ack
  {
    a.(extraData := seq(EndlessSize(m.prev.Received(), m.prev.extraLen), _ => 0))
  }

  lemma EndlessCounter(total: nat, len: uint32)
    requires total % TWO32 < len && len > MAX_EXTRA
    ensures (total + EndlessSize(total % TWO32, len)) % TWO32
         == (total % TWO32 + EndlessSize(total % TWO32, len)) % TWO32
    ensures (total + EndlessSize(total % TWO32, len)) % TWO32 < len
  {
    ModuloStep(total, EndlessSize(total % TWO32, len));
  }

  /** Above MAX_EXTRA a host can keep the session waiting for extra data for ever. */
  lemma EndlessExtraData(m: Model, data: Chunk)
    requires m.alive && m.stage.Request2PrevExtraData? && |m.p1.seen| == m.idx1 + 1
    requires m.p1.seen[m.idx1].prevIndex < |m.prev.outs| && m.prev.Received() < m.prev.extraLen
    requires m.prev.extraLen > MAX_EXTRA && |data| == EndlessSize(m.prev.Received(), m.prev.extraLen)
    ensures Endless(Step2PrevExtraData(m, data).m) && Step2PrevExtraData(m, data).m.prev.extraLen == m.prev.extraLen
  {
    hide HashStream, CheckPrevTx;
    EndlessCounter(|m.prev.extra|, m.prev.extraLen);
  }

  lemma EndlessStep(cfg: Config, host: seq<(Ack, Choices)>, a: Ack, ui: Choices)
    requires cfg.Valid() && Endless(Run(cfg, host))
    ensures var m := Run(cfg, host + [(EndlessMessage(Run(cfg, host), a), ui)]);
      Endless(m) && m.prev.extraLen == Run(cfg, host).prev.extraLen
  {
    var next := EndlessMessage(Run(cfg, host), a);
    RunGrows(cfg, host, next, ui);
    EndlessExtraData(Run(cfg, host), next.extraData);
  }

  /** A session that waits for extra data longer than the bound. */
  ghost predicate Endless(m: Model)
  {
    m.alive && m.stage.Request2PrevExtraData? && m.prev.extraLen > MAX_EXTRA
  }

  lemma ConsAfter<T>(a: seq<T>, x: T, b: seq<T>)
    ensures a + ([x] + b) == a + [x] + b
    ensures a + [] == a
  {
  }

  /** The bound is exact: past it, every partial session can be prolonged by any number of messages. */
  lemma {:induction false} EndlessSession(cfg: Config, host: seq<(Ack, Choices)>, a: Ack, ui: Choices, n: nat)
    returns (more: seq<(Ack, Choices)>)
    requires cfg.Valid() && Endless(Run(cfg, host))
    ensures |more| == n && Endless(Run(cfg, host + more))
    ensures Run(cfg, host + more).prev.extraLen == Run(cfg, host).prev.extraLen
    decreases n
  {
    more := [];
    ConsAfter(host, (a, ui), more);
    if n > 0 {
      var next := (EndlessMessage(Run(cfg, host), a), ui);
      EndlessStep(cfg, host, a, ui);
      var rest := EndlessSession(cfg, host + [next], a, ui, n - 1);
      ConsAfter(host, next, rest);
      more := [next] + rest;
    }
  }

  // ------------------------------------------------------- reaching the bound

  /**
   An input whose amount is asked for, and a previous transaction without inputs that announces
   `len` bytes of extra data.
   */
  function Opening(a: Ack, len: uint32): (r: seq<Ack>)
    ensures |r| == 3
  {
    [a.(input := TxInput(a.input.prevHash, 0, [], 0, SPENDADDRESS, false, 0, None, [])),
     a.(inputsCnt := 0, outputsCnt := 1, extraDataLen := len),
     a.(binOutput := TxOut(0, []))]
  }

  /** One more message, on the value of the run. */
  lemma OneMore(cfg: Config, host: seq<(Ack, Choices)>, a: Ack, ui: Choices, m: Model)
    requires cfg.Valid() && m == Run(cfg, host)
    ensures Shape(m) && Run(cfg, host + [(a, ui)]) == Step(m, a, ui).m
  {
    hide Run, Step, Shape;
    RunGrows(cfg, host, a, ui);
  }

  lemma OpeningSteps(cfg: Config, a: Ack, len: uint32, ui: Choices)
    requires cfg.Valid() && !cfg.forceBip143 && len > 0
    ensures var o := Opening(a, len);
      var m := Run(cfg, [(o[0], ui), (o[1], ui), (o[2], ui)]);
      m.alive && m.stage.Request2PrevExtraData? && m.prev.extraLen == len
  {
    var o := Opening(a, len);
    hide Run, Shape, CheckPreimage, PrevoutsPreimage, SequencesPreimage, WeightWithInput, InitialWeight, PrevTx.Stream;
    RunStarts(cfg);
    OneMore(cfg, [], o[0], ui, Init(cfg));
    assert [] + [(o[0], ui)] == [(o[0], ui)];
    var m1 := Step(Init(cfg), o[0], ui).m;
    OneMore(cfg, [(o[0], ui)], o[1], ui, m1);
    assert [(o[0], ui)] + [(o[1], ui)] == [(o[0], ui), (o[1], ui)];
    var m2 := Step(m1, o[1], ui).m;
    OneMore(cfg, [(o[0], ui), (o[1], ui)], o[2], ui, m2);
    assert [(o[0], ui), (o[1], ui)] + [(o[2], ui)] == [(o[0], ui), (o[1], ui), (o[2], ui)];
  }

  /**
   For a coin that does not force BIP-143 the bound of `SessionEnds` is exact: for any larger announcement some
   host is still being served after any number of messages.
   */
  lemma LongerAnnouncementIsEndless(cfg: Config, a: Ack, len: uint32, ui: Choices, n: nat)
    returns (host: seq<(Ack, Choices)>)
    requires cfg.Valid() && !cfg.forceBip143 && len > MAX_EXTRA
    ensures |host| >= n && Run(cfg, host).alive && Run(cfg, host).prev.extraLen == len
  {
    hide Run, Shape, Opening;
    var o := Opening(a, len);
    var start := [(o[0], ui), (o[1], ui), (o[2], ui)];
    OpeningSteps(cfg, a, len, ui);
    var more := EndlessSession(cfg, start, a, ui, n);
    host := start + more;
  }
}

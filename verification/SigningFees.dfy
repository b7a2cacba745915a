/**
 The fee threshold of a signing session: the weight it is computed from adds up over every run,
 and the user is asked exactly above it.
 */
module SigningFees {
  import opened Bytes
  import Varint
  import opened Transaction
  import opened SigningModel
  import opened SigningRuns
  import opened SigningEffects
  import opened SigningTheorems
  import opened SigningConsent

  /** Four times the bytes around the inputs and outputs of a transaction without marker. */
  function FrameWeight(cfg: Config): nat
  {
    4 * |Le32(cfg.version) + Varint.Encode(cfg.inputsCount) + Varint.Encode(cfg.outputsCount) + Le32(cfg.lockTime)|
  }

  function InputsWeight(env: Env, ins: seq<TxInput>): nat
  {
    if |ins| == 0 then 0 else InputsWeight(env, ins[..|ins| - 1]) + env.inputWeight(ins[|ins| - 1])
  }

  function OutputsWeight(env: Env, shown: seq<Shown>): nat
  {
    if |shown| == 0 then 0 else OutputsWeight(env, shown[..|shown| - 1]) + env.outputWeight(shown[|shown| - 1].output)
  }

  /** All of it, with the marker and one witness count for every input once an input is segwit. */
  function WholeWeight(m: Model): nat
  {
    FrameWeight(m.cfg) + InputsWeight(m.cfg.env, m.p1.seen) + OutputsWeight(m.cfg.env, m.p1.shown)
    + if AnySegwit(m.p1.seen) then 2 + m.cfg.inputsCount else 0
  }

  ghost predicate Weighed(m: Model)
  {
    m.weight == WholeWeight(m) % TWO32
  }

  lemma AddModulo(a: nat, b: nat, c: nat)
    ensures (a % TWO32 + b) % TWO32 == (a + b) % TWO32
    ensures ((a % TWO32 + b) % TWO32 + c) % TWO32 == (a + b + c) % TWO32
  {
  }

  /** One more input weighs itself, and the overhead if it is the first segwit input. */
  lemma OneMoreWeighs(m: Model, m': Model, i: TxInput)
    requires m'.p1.seen == m.p1.seen + [i] && m'.p1.shown == m.p1.shown && m'.cfg == m.cfg
    ensures WholeWeight(m') == WholeWeight(m) + m.cfg.env.inputWeight(i)
                               + if i.Segwit() && !AnySegwit(m.p1.seen) then 2 + m.cfg.inputsCount else 0
  {
    hide FrameWeight, OutputsWeight, AnySegwit, TxInput.Segwit;
    assert m'.p1.seen[..|m'.p1.seen| - 1] == m.p1.seen;
    MoreSegwit(m.p1.seen, i);
  }

  lemma WeighedInput(m: Model, i: TxInput)
    requires Weighed(m)
    ensures Weighed(WithInput(m, i))
  {
    hide WholeWeight, AnySegwit, TxInput.Segwit, PathNext, FpNext;
    var extra := if i.Segwit() && !AnySegwit(m.p1.seen) then 2 + m.cfg.inputsCount as int else 0;
    OneMoreWeighs(m, WithInput(m, i), i);
    AddModulo(WholeWeight(m), m.cfg.env.inputWeight(i), extra);
  }

  lemma MoreSegwit(ins: seq<TxInput>, i: TxInput)
    ensures AnySegwit(ins + [i]) <==> AnySegwit(ins) || i.Segwit()
  {
    if AnySegwit(ins) {
      var k :| 0 <= k < |ins| && ins[k].Segwit();
      assert (ins + [i])[k].Segwit();
    }
    assert (ins + [i])[|ins|] == i;
  }

  lemma WeighedOutput(m: Model, s: Shown)
    requires Weighed(m)
    ensures Weighed(AddShown(m, s))
  {
    hide FrameWeight, InputsWeight, AnySegwit;
    var shown := m.p1.shown + [s];
    assert shown[..|shown| - 1] == m.p1.shown;
    AddModulo(WholeWeight(m), m.cfg.env.outputWeight(s.output), 0);
  }

  /** Only credits have changed, or nothing that weighs. */
  lemma StillWeighed(m: Model, m': Model)
    requires Weighed(m) && m'.cfg == m.cfg && m'.weight == m.weight
    requires m'.p1.seen == m.p1.seen && m'.p1.shown == m.p1.shown
    ensures Weighed(m')
  {
    hide FrameWeight, InputsWeight, OutputsWeight, AnySegwit;
  }

  lemma CreditKeepsLists(m: Model, i: TxInput)
    ensures var m' := Credit1(m, i).m;
      m'.cfg == m.cfg && m'.weight == m.weight && m'.p1.seen == m.p1.seen && m'.p1.shown == m.p1.shown
  {
    hide Total, CheckPreimage, PrevoutsPreimage, SequencesPreimage;
  }

  lemma Weighed1Input(m: Model, i: TxInput)
    requires FpAll(m.cfg.env, m.p1.seen) && Weighed(m)
    ensures Weighed(Step1Input(m, i).m)
  {
    hide FpAll, FpOf, FpAccepts, Credit1, WithInput, Weighed;
    WeighedInput(m, i);
    CreditKeepsLists(WithInput(m, i), i);
    StillWeighed(WithInput(m, i), Credit1(WithInput(m, i), i).m);
    StillWeighed(m, m.(alive := false));
  }

  lemma PrevKeepsLists(m: Model, a: Ack)
    requires |m.p1.seen| == m.idx1 + 1
    ensures Same(m, Step2PrevMeta(m, a).m) && Same(m, Step2PrevInput(m, a.input).m)
    ensures |m.prev.outs| == m.idx2 < m.prev.head.outputsLen && m.p1.seen[m.idx1].prevIndex < m.prev.head.outputsLen
      ==> Same(m, Step2PrevOutput(m, a.binOutput).m)
    ensures m.p1.seen[m.idx1].prevIndex < |m.prev.outs| ==> Same(m, Step2PrevExtraData(m, a.extraData).m)
  {
    hide PrevTx.Stream, Reverse, Total, CheckPreimage, PrevoutsPreimage, SequencesPreimage;
  }

  ghost predicate Same(m: Model, m': Model)
  {
    m'.cfg == m.cfg && m'.weight == m.weight && m'.p1.seen == m.p1.seen && m'.p1.shown == m.p1.shown
  }

  lemma OutputKeepsLists(m: Model, ui: Choices)
    ensures Same(m, Phase1NextOutput(m, ui).m)
  {
    hide Total, TotalShown, PrintOuts, Bins, MaxFee;
  }

  lemma Weighed3Output(m: Model, o: TxOutput, ui: Choices)
    requires FpAll(m.cfg.env, m.p1.seen) && Weighed(m)
    ensures Weighed(Step3Output(m, o, ui).m)
  {
    hide FpAll, IsChange, Phase1NextOutput, AddShown, Weighed, TotalShown;
    forall s ensures Weighed(Phase1NextOutput(AddShown(m, s), ui).m) {
      WeighedOutput(m, s);
      OutputKeepsLists(AddShown(m, s), ui);
      StillWeighed(AddShown(m, s), Phase1NextOutput(AddShown(m, s), ui).m);
    }
    DeadIsWeighed(m);
  }

  lemma DeadIsWeighed(m: Model)
    requires Weighed(m)
    ensures Weighed(m.(alive := false))
  {
    StillWeighed(m, m.(alive := false));
  }

  lemma LaterKeepsLists(m: Model, a: Ack, ui: Choices)
    requires Shape(m) && m.alive && !Phase1(m)
    ensures Same(m, Step(m, a, ui).m)
  {
    hide Shape, Step4Input, Step4Output, StepSegwitInput, Step5Output, StepSegwitWitness, FpAll, Phase1Effect,
         ChargeEffect, WireEffect;
    ShapeGivesFp(m);
    PassIndex(m);
    StepEffect(m, a, ui);
    SegwitWeight(m, a.input);
    PassWeight(m, a.input, a.output);
    if m.stage.Request4Output? {
      LegacyWeight(m, a.output);
    }
  }

  lemma PrevFacts(m: Model)
    requires Shape(m) && m.alive
    ensures FpAll(m.cfg.env, m.p1.seen)
    ensures InPrev(m) ==> |m.p1.seen| == m.idx1 + 1
    ensures m.stage.Request2PrevOutput? ==>
      |m.prev.outs| == m.idx2 < m.prev.head.outputsLen && m.p1.seen[m.idx1].prevIndex < m.prev.head.outputsLen
    ensures m.stage.Request2PrevExtraData? ==> m.p1.seen[m.idx1].prevIndex < |m.prev.outs|
  {
    hide FpAll, Total, TotalShown, TotalClaimed, TotalCharged;
  }

  lemma StepWeighed(m: Model, a: Ack, ui: Choices)
    requires Shape(m) && Weighed(m)
    ensures Weighed(Step(m, a, ui).m)
  {
    hide Shape, FpAll, Weighed, Step1Input, Step2PrevMeta, Step2PrevInput, Step2PrevOutput, Step2PrevExtraData,
         Step3Output;
    if m.alive {
      PrevFacts(m);
      if m.stage.Request1Input? {
        Weighed1Input(m, a.input);
      } else if m.stage.Request3Output? {
        Weighed3Output(m, a.output, ui);
      } else {
        if Phase1(m) {
          PrevKeepsLists(m, a);
        } else {
          LaterKeepsLists(m, a, ui);
        }
        StillWeighed(m, Step(m, a, ui).m);
      }
    }
  }

  /** In every run the weight is that of the frame, of the inputs and of the outputs so far, in 32 bits. */
  lemma {:induction false} WeightAddsUp(cfg: Config, host: seq<(Ack, Choices)>)
    requires cfg.Valid()
    ensures Run(cfg, host).weight == WholeWeight(Run(cfg, host)) % TWO32
  {
    hide Step, Shape, Weighed;
    if |host| == 0 {
      RunStarts(cfg);
      InitWeighed(cfg);
    } else {
      var front, last := host[..|host| - 1], host[|host| - 1];
      WeightAddsUp(cfg, front);
      WeighedIs(Run(cfg, front));
      StepWeighed(Run(cfg, front), last.0, last.1);
      RunGrows(cfg, front, last.0, last.1);
      assert front + [last] == host;
    }
    WeighedIs(Run(cfg, host));
  }

  lemma WeighedIs(m: Model)
    ensures Weighed(m) <==> m.weight == WholeWeight(m) % TWO32
  {
  }

  lemma InitWeighed(cfg: Config)
    ensures Weighed(Init(cfg))
  {
  }

  /** A fee is above the threshold exactly when it is more than the highest fee per 4000 units of weight, in 64 bits. */
  lemma Threshold(m: Model, fee: nat)
    ensures fee > MaxFee(m) <==> 4000 * fee > m.weight * m.cfg.maxfeeKb % TWO64
  {
    var x := m.weight * m.cfg.maxfeeKb % TWO64;
    assert x == 4000 * (x / 4000) + x % 4000;
  }

  /**
   A session in Phase 2 has a fee that the user accepted expressly if 4000 times the fee is more
   than the weight times the highest fee of the coin.
   */
  lemma HighFeeIsAccepted(cfg: Config, host: seq<(Ack, Choices)>)
    requires cfg.Valid() && Run(cfg, host).alive && !Phase1(Run(cfg, host))
    requires var m := Run(cfg, host);
      4000 * Fee(m) > WholeWeight(m) % TWO32 * cfg.maxfeeKb % TWO64
    ensures exists k :: 0 <= k < |host| && host[k].1.confirmTx && host[k].1.acceptHighFee
  {
    hide Run, WholeWeight, Phase1, MaxFee;
    var m := Run(cfg, host);
    UserAgreed(cfg, host);
    WeightAddsUp(cfg, host);
    FeeIsPositive(cfg, host);
    Threshold(m, Fee(m));
    assert AcceptsTotal(host, m);
  }

  lemma FeeIsPositive(cfg: Config, host: seq<(Ack, Choices)>)
    requires cfg.Valid() && Run(cfg, host).alive && !Phase1(Run(cfg, host))
    ensures Fee(Run(cfg, host)) >= 0
  {
    ValueConservation(cfg, host);
  }

  /** Below it a user who agrees to the total is not asked anything else. */
  lemma LowFeeIsNotAsked(m: Model, ui: Choices)
    requires m.alive && Fee(m) >= 0 && ui.confirmTx && 4000 * Fee(m) <= m.weight * m.cfg.maxfeeKb % TWO64
    ensures CheckFee(m, ui).m.alive && CheckFee(m, ui) == CheckFee(m, ui.(acceptHighFee := !ui.acceptHighFee))
  {
    hide MaxFee, Total, TotalShown;
    Threshold(m, Fee(m));
  }
}

/**
 What the user has agreed to in a signing session, over every run and every host: nothing
 is signed before the outputs, an unusual fee and the total have been confirmed.
 */
module SigningConsent {
  import opened Bytes
  import opened Transaction
  import opened SigningModel
  import opened SigningRuns
  import opened SigningEffects
  import opened SigningTheorems

  /**
   What one message may add: an output that was confirmed if it had to be, and the step to Phase 2
   after the total.
   */
  ghost predicate Asked(m: Model, a: Ack, ui: Choices, r: Model)
  {
    && (r.p1.shown == m.p1.shown
        || (|r.p1.shown| == |m.p1.shown| + 1 && r.p1.shown[..|m.p1.shown|] == m.p1.shown
            && var s := r.p1.shown[|m.p1.shown|]; s.output == a.output && (s.confirmed ==> ui.confirmOutput)))
    && (r.alive && !Phase1(r) && Phase1(m) ==> ui.confirmTx && (Fee(r) > MaxFee(r) ==> ui.acceptHighFee))
    && (r.alive && !Phase1(r) && !Phase1(m) ==> m.alive && Fee(r) == Fee(m) && MaxFee(r) == MaxFee(m))
  }

  lemma FirstStages(m: Model, a: Ack, ui: Choices)
    requires Shape(m) && m.alive && Phase1(m) && !m.stage.Request3Output?
    ensures var r := Step(m, a, ui).m; r.alive ==> Phase1(r)
  {
    hide FpAll, FpOf, Total, TotalShown, TotalClaimed, TotalCharged, WithInput, CheckPreimage, PrevoutsPreimage,
         SequencesPreimage, PrevTx.Stream, Reverse, FpAccepts, Shape;
    ShapeGivesFp(m);
  }

  lemma ShapeGivesFp(m: Model)
    requires Shape(m) && m.alive
    ensures FpAll(m.cfg.env, m.p1.seen)
    ensures InPrev(m) ==> |m.p1.seen| == m.idx1 + 1
  {
    hide FpAll, Total, TotalShown, TotalClaimed, TotalCharged;
  }

  lemma SegwitWeight(m: Model, i: TxInput)
    requires FpAll(m.cfg.env, m.p1.seen)
    ensures StepSegwitInput(m, i).m.weight == m.weight && StepSegwitWitness(m, i).m.weight == m.weight
  {
    hide FpAll, Sign143, P2shWitnessScript, InputChunk, WireHeader, Witness;
  }

  lemma LegacyWeight(m: Model, o: TxOutput)
    requires m.idx1 < |m.pass.ins|
    ensures Step4Output(m, o).m.weight == m.weight
  {
    hide LegacyPreimage, FillSignature, InputChunk, WireHeader, PrintOuts, Bins;
  }

  lemma PassWeight(m: Model, i: TxInput, o: TxOutput)
    requires FpAll(m.cfg.env, m.p1.seen)
    ensures Step4Input(m, i).m.weight == m.weight && Step5Output(m, o).m.weight == m.weight
  {
    hide FpAll, CompileInput, CheckPreimage, OutputChunk;
  }

  /** Phase 2 neither changes what was shown nor the weight, and does not go back. */
  lemma LaterStages(m: Model, a: Ack, ui: Choices)
    requires Shape(m) && m.alive && !Phase1(m)
    ensures Asked(m, a, ui, Step(m, a, ui).m)
  {
    hide Shape, Step4Input, Step4Output, StepSegwitInput, Step5Output, StepSegwitWitness, FpAll, Total, TotalShown;
    ShapeGivesFp(m);
    PassIndex(m);
    StepEffect(m, a, ui);
    SegwitWeight(m, a.input);
    PassWeight(m, a.input, a.output);
    if m.stage.Request4Output? {
      LegacyWeight(m, a.output);
    }
  }

  lemma PassIndex(m: Model)
    requires Shape(m) && m.alive
    ensures m.stage.Request4Output? ==> m.idx1 < |m.pass.ins|
  {
    hide FpAll, Total, TotalShown, TotalClaimed, TotalCharged;
  }

  lemma OutputStage(m: Model, o: TxOutput, a: Ack, ui: Choices)
    requires FpAll(m.cfg.env, m.p1.seen) && m.alive && m.stage.Request3Output? && o == a.output
    ensures Asked(m, a, ui, Step3Output(m, o, ui).m)
  {
    hide FpAll, IsChange, PrintOuts, Bins, Total, TotalShown;
  }

  lemma StepAsks(m: Model, a: Ack, ui: Choices)
    requires Shape(m)
    ensures Asked(m, a, ui, Step(m, a, ui).m)
  {
    hide Shape, Asked, Effect, FpAll;
    if !m.alive {
      Idles(m, a, ui);
    } else if !Phase1(m) {
      LaterStages(m, a, ui);
    } else if m.stage.Request3Output? {
      ShapeGivesFp(m);
      OutputStage(m, a.output, a, ui);
    } else {
      FirstStages(m, a, ui);
      StepEffect(m, a, ui);
      NothingShown(m, a, ui, Step(m, a, ui).m);
    }
  }

  lemma Idles(m: Model, a: Ack, ui: Choices)
    requires !m.alive
    ensures Asked(m, a, ui, m)
  {
  }

  lemma NothingShown(m: Model, a: Ack, ui: Choices, r: Model)
    requires Phase1(m) && !m.stage.Request3Output? && Effect(m, r) && (r.alive ==> Phase1(r))
    ensures Asked(m, a, ui, r)
  {
  }

  /** Every confirmed output was answered by a confirmation, and Phase 2 by one of the total and of a high fee. */
  ghost predicate Agreed(host: seq<(Ack, Choices)>, m: Model)
  {
    && (forall j :: 0 <= j < |m.p1.shown| && m.p1.shown[j].confirmed ==> Confirms(host, m.p1.shown[j].output))
    && (m.alive && !Phase1(m) ==> AcceptsTotal(host, m))
  }

  ghost predicate Confirms(host: seq<(Ack, Choices)>, o: TxOutput)
  {
    exists k :: 0 <= k < |host| && host[k].0.output == o && host[k].1.confirmOutput
  }

  ghost predicate AcceptsTotal(host: seq<(Ack, Choices)>, m: Model)
  {
    exists k :: 0 <= k < |host| && host[k].1.confirmTx && (Fee(m) > MaxFee(m) ==> host[k].1.acceptHighFee)
  }

  lemma AgreedGrows(host: seq<(Ack, Choices)>, a: Ack, ui: Choices, m: Model, r: Model)
    requires Agreed(host, m) && Asked(m, a, ui, r)
    ensures Agreed(host + [(a, ui)], r)
  {
    hide Fee, MaxFee, Phase1;
    var more := host + [(a, ui)];
    assert more[|host|] == (a, ui);
    forall j | 0 <= j < |r.p1.shown| && r.p1.shown[j].confirmed ensures Confirms(more, r.p1.shown[j].output) {
      if j < |m.p1.shown| {
        assert r.p1.shown[j] == m.p1.shown[j];
        var k :| 0 <= k < |host| && host[k].0.output == m.p1.shown[j].output && host[k].1.confirmOutput;
        assert more[k] == host[k];
      }
    }
    if r.alive && !Phase1(r) && !Phase1(m) {
      var k :| 0 <= k < |host| && host[k].1.confirmTx && (Fee(m) > MaxFee(m) ==> host[k].1.acceptHighFee);
      assert more[k] == host[k];
    }
  }

  /**
   Whatever the host sends: each output that counts as confirmed was shown in answer to a message with that
   output and accepted, and a session in Phase 2, the only place where anything is signed, has had its total
   accepted, together with the warning if the fee is above the threshold.
   */
  lemma {:induction false} UserAgreed(cfg: Config, host: seq<(Ack, Choices)>)
    requires cfg.Valid()
    ensures Agreed(host, Run(cfg, host))
  {
    hide Agreed, Asked, Step, Shape, Init;
    if |host| == 0 {
      RunStarts(cfg);
      InitAgreed(cfg);
    } else {
      var front, last := host[..|host| - 1], host[|host| - 1];
      UserAgreed(cfg, front);
      StepAsks(Run(cfg, front), last.0, last.1);
      AgreedGrows(front, last.0, last.1, Run(cfg, front), Run(cfg, host));
      assert host == front + [(last.0, last.1)];
    }
  }

  lemma InitAgreed(cfg: Config)
    ensures Agreed([], Init(cfg))
  {
  }

  /** Every signature was made in a step that started in Phase 2, so after the user had agreed to all of it. */
  lemma SignedAfterConsent(cfg: Config, host: seq<(Ack, Choices)>, a: Ack, ui: Choices)
    requires cfg.Valid()
    requires var m, r := Run(cfg, host), Run(cfg, host + [(a, ui)]);
      r.log.legacy != m.log.legacy || r.log.charges != m.log.charges
    ensures var m := Run(cfg, host);
      && m.alive && !Phase1(m) && AcceptsTotal(host, m)
      && (forall j :: 0 <= j < |m.p1.shown| && m.p1.shown[j].confirmed ==> Confirms(host, m.p1.shown[j].output))
  {
    hide Run, Shape, Step, AcceptsTotal, Confirms;
    var m := Run(cfg, host);
    RunGrows(cfg, host, a, ui);
    UserAgreed(cfg, host);
    if m.alive {
      StepEffect(m, a, ui);
    } else {
      DeadStays(m, a, ui);
    }
  }

  lemma DeadStays(m: Model, a: Ack, ui: Choices)
    requires Shape(m) && !m.alive
    ensures Step(m, a, ui).m == m
  {
  }
}

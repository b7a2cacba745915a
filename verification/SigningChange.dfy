/**
 Which outputs are shown to the user: in every run exactly those that are not the first change
 with an amount, told by the inputs, not by the registers the device keeps of them.
 */
module SigningChange {
  import opened Bytes
  import opened Transaction
  import opened SigningModel
  import opened SigningRuns
  import opened SigningEffects
  import opened SigningLedger
  import opened SigningTheorems

  /** A path of this account with change chain 0 or 1 and an index up to a million. */
  predicate InAccount(path: seq<uint32>, i: TxInput)
  {
    && |path| >= 2 && |i.addressN| == |path| && i.addressN[..|path| - 2] == path[..|path| - 2]
    && path[|path| - 2] <= 1 && path[|path| - 1] <= 1000000
  }

  /** One more input of the account. */
  lemma {:induction false} PathOfAccount(ins: seq<TxInput>, path: seq<uint32>)
    requires ins != [] && |path| >= 2
    requires forall j :: 0 <= j < |ins| ==> |ins[j].addressN| == |path| && Account(ins[j].addressN) == Account(path)
    ensures PathOf(ins) == AccountPath(|path|, Account(path))
  {
    var front := ins[..|ins| - 1];
    assert ins[|ins| - 1].addressN[..|path| - 2] == Account(path);
    if front != [] {
      PathOfAccount(front, path);
    }
  }

  lemma PathExactly(ins: seq<TxInput>, path: seq<uint32>)
    requires ins != []
    ensures ChangePath(PathOf(ins), path) <==> forall j :: 0 <= j < |ins| ==> InAccount(path, ins[j])
  {
    hide PathOf;
    if ChangePath(PathOf(ins), path) {
      PathIsShared(ins, path);
    }
    if forall j :: 0 <= j < |ins| ==> InAccount(path, ins[j]) {
      assert InAccount(path, ins[0]);
      forall j | 0 <= j < |ins|
        ensures |ins[j].addressN| == |path| && Account(ins[j].addressN) == Account(path)
      {
        assert InAccount(path, ins[j]);
      }
      PathOfAccount(ins, path);
    }
  }

  lemma PathIsShared(ins: seq<TxInput>, path: seq<uint32>)
    requires ins != [] && ChangePath(PathOf(ins), path)
    ensures forall j :: 0 <= j < |ins| ==> InAccount(path, ins[j])
  {
    PathOfAll(ins);
    hide PathOf;
    forall j | 0 <= j < |ins| ensures InAccount(path, ins[j]) {
    }
  }

  predicate SharesKeys(env: Env, h: Hash32, i: TxInput)
  {
    i.multisig.Some? && env.fingerprint(i.multisig.value) == Some(h)
  }

  lemma {:induction false} FpOfShared(env: Env, ins: seq<TxInput>, h: Hash32)
    requires FpAll(env, ins) && ins != [] && forall j :: 0 <= j < |ins| ==> SharesKeys(env, h, ins[j])
    ensures FpOf(env, ins) == Fp(true, false, h)
  {
    var front := ins[..|ins| - 1];
    assert SharesKeys(env, h, ins[|ins| - 1]);
    if front != [] {
      FpOfShared(env, front, h);
    } else {
      assert ins[..0] == [];
    }
  }

  lemma FpExactly(env: Env, ins: seq<TxInput>, h: Hash32)
    requires FpAll(env, ins) && ins != []
    ensures FpOf(env, ins).isSet && !FpOf(env, ins).mismatch && FpOf(env, ins).value == h
       <==> forall j :: 0 <= j < |ins| ==> SharesKeys(env, h, ins[j])
  {
    FpOfAll(env, ins);
    hide FpAll, FpOf;
    if forall j :: 0 <= j < |ins| ==> SharesKeys(env, h, ins[j]) {
      FpOfShared(env, ins, h);
    }
  }

  lemma {:induction false} NoneIsZero(shown: seq<Shown>)
    ensures TotalShown(shown, false) == 0 <==>
      forall j :: 0 <= j < |shown| && !shown[j].confirmed ==> shown[j].bin.amount == 0
  {
    if |shown| > 0 {
      NoneIsZero(shown[..|shown| - 1]);
    }
  }

  /**
   What lets an output go by unshown: it lies in the account of every input; if it is multisig, every
   input is, with the same keys; if it is a witness output, the amount is covered by what the inputs
   claimed; and no earlier output with an amount went by.
   */
  ghost predicate GoesBy(env: Env, ins: seq<TxInput>, claimed: nat, before: seq<Shown>, o: TxOutput)
  {
    && |o.addressN| > 0
    && (forall j :: 0 <= j < |ins| ==> InAccount(o.addressN, ins[j]))
    && (o.multisig.Some? ==>
          env.fingerprint(o.multisig.value).Some?
          && forall j :: 0 <= j < |ins| ==> SharesKeys(env, env.fingerprint(o.multisig.value).value, ins[j]))
    && (o.scriptType == PAYTOWITNESS || o.scriptType == PAYTOP2SHWITNESS ==> o.amount <= claimed)
    && (forall j :: 0 <= j < |before| && !before[j].confirmed ==> before[j].bin.amount == 0)
  }

  lemma ChangeExactly(m: Model, o: TxOutput)
    requires FpAll(m.cfg.env, m.p1.seen) && m.p1.seen != [] && m.log.charges == []
    ensures IsChange(m, o) <==> GoesBy(m.cfg.env, m.p1.seen, TotalClaimed(m.p1.credits), m.p1.shown, o)
  {
    PathExactly(m.p1.seen, o.addressN);
    NoneIsZero(m.p1.shown);
    hide FpAll, FpOf, PathOf, TotalShown, TotalClaimed, ChangePath, InAccount, SharesKeys;
    if o.multisig.Some? && m.cfg.env.fingerprint(o.multisig.value).Some? {
      FpExactly(m.cfg.env, m.p1.seen, m.cfg.env.fingerprint(o.multisig.value).value);
    }
  }

  /** Every output so far was shown exactly if it could not go by. */
  ghost predicate ShownExactly(m: Model)
  {
    forall k :: 0 <= k < |m.p1.shown| ==>
      (m.p1.shown[k].confirmed
       <==> !GoesBy(m.cfg.env, m.p1.seen, TotalClaimed(m.p1.credits), m.p1.shown[..k], m.p1.shown[k].output))
  }

  lemma OneMoreShown(m: Model, m': Model, s: Shown)
    requires ShownExactly(m) && FpAll(m.cfg.env, m.p1.seen) && m.p1.seen != [] && m.log.charges == []
    requires ShownOk(m, s) && m'.p1 == m.p1.(shown := m.p1.shown + [s]) && m'.cfg == m.cfg
    ensures ShownExactly(m')
  {
    ChangeExactly(m, s.output);
    hide GoesBy, IsChange, FpAll;
    forall k | 0 <= k < |m'.p1.shown|
      ensures m'.p1.shown[k].confirmed
        <==> !GoesBy(m'.cfg.env, m'.p1.seen, TotalClaimed(m'.p1.credits), m'.p1.shown[..k], m'.p1.shown[k].output)
    {
      assert m'.p1.shown[..k] == m.p1.shown[..k];
      if k == |m.p1.shown| {
        assert m.p1.shown[..k] == m.p1.shown;
      }
    }
  }

  lemma ShapeOfLists(m: Model)
    requires Shape(m) && m.alive
    ensures m.stage.Request1Input? || InPrev(m) ==> m.p1.shown == []
    ensures m.stage.Request3Output? ==> FpAll(m.cfg.env, m.p1.seen) && m.p1.seen != [] && m.log.charges == []
  {
    hide FpAll, Total, TotalShown, TotalClaimed, TotalCharged;
  }

  lemma StepShows(m: Model, a: Ack, ui: Choices)
    requires Shape(m) && ShownExactly(m)
    ensures ShownExactly(Step(m, a, ui).m)
  {
    hide Shape, Step, GoesBy, ShownOk, ClaimAllowed, ProofOk, ChargeEffect, WireEffect, FpAll;
    if m.alive {
      ShapeOfLists(m);
      StepEffect(m, a, ui);
      var m' := Step(m, a, ui).m;
      if m.stage.Request3Output? && m'.p1 != m.p1 {
        var s :| ShownOk(m, s) && m'.p1 == m.p1.(shown := m.p1.shown + [s]);
        OneMoreShown(m, m', s);
      }
    } else {
      DeadStays(m, a, ui);
    }
  }

  lemma DeadStays(m: Model, a: Ack, ui: Choices)
    requires Shape(m) && !m.alive
    ensures Step(m, a, ui).m == m
  {
  }

  /** Whatever the host sends. */
  lemma {:induction false} ShownExactlyOverRuns(cfg: Config, host: seq<(Ack, Choices)>)
    requires cfg.Valid()
    ensures ShownExactly(Run(cfg, host))
  {
    hide Step, Shape, GoesBy;
    if |host| == 0 {
      RunStarts(cfg);
    } else {
      var front, last := host[..|host| - 1], host[|host| - 1];
      ShownExactlyOverRuns(cfg, front);
      StepShows(Run(cfg, front), last.0, last.1);
      RunGrows(cfg, front, last.0, last.1);
      assert front + [last] == host;
    }
  }
}

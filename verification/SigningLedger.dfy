/**
 The money of a signing session: where every input amount comes from, which
 outputs skipped confirmation, and what BIP-143 signatures may still spend.
 */
module SigningLedger {
  import opened Bytes
  import opened Transaction
  import opened SigningModel
  import opened SigningRuns
  import opened SigningEffects

  /** What the invariants below need of a live session's shape. */
  ghost predicate Aligned(m: Model)
  {
    && (m.stage.Request1Input? ==> |m.p1.seen| == |m.p1.credits|)
    && (InPrev(m) ==> |m.p1.credits| == m.idx1)
    && (m.stage.Request1Input? || InPrev(m) ==> m.p1.shown == [])
    && (Phase1(m) ==> m.log.charges == [])
  }

  lemma ShapeAligned(m: Model)
    requires Shape(m) && m.alive
    ensures Aligned(m)
  {
  }

  // ----------------------------------------------------------- input amounts

  /** The credit of an input: the claimed amount, or the output its previous hash commits to. */
  ghost predicate CreditOk(cfg: Config, i: TxInput, c: Credit, hashed: set<Bytes>)
  {
    match c
    case Claimed(amount) => ClaimAllowed(cfg, i) && amount == i.amount
    case Proven(_, _) => ProofOk(cfg, i, c, hashed)
  }

  ghost predicate CreditsOk(m: Model)
  {
    CreditsMatch(m.cfg, m.p1, m.log.hashed)
  }

  lemma CreditFixed(cfg: Config, i: TxInput, c: Credit, hashed: set<Bytes>, hashed': set<Bytes>)
    requires CreditOk(cfg, i, c, hashed) && hashed <= hashed'
    ensures CreditOk(cfg, i, c, hashed')
  {
  }

  ghost predicate CreditsMatch(cfg: Config, p1: Phase1Log, hashed: set<Bytes>)
  {
    && |p1.credits| <= |p1.seen|
    && forall k :: 0 <= k < |p1.credits| ==> CreditOk(cfg, p1.seen[k], p1.credits[k], hashed)
  }

  lemma CreditAt(cfg: Config, p1: Phase1Log, p1': Phase1Log, hashed: set<Bytes>, hashed': set<Bytes>, k: nat)
    requires CreditsMatch(cfg, p1, hashed) && hashed <= hashed' && k < |p1.credits|
    requires p1.seen <= p1'.seen && p1.credits <= p1'.credits
    ensures CreditOk(cfg, p1'.seen[k], p1'.credits[k], hashed')
  {
    CreditFixed(cfg, p1.seen[k], p1.credits[k], hashed, hashed');
  }

  /** Earlier credits keep their inputs when inputs or one good credit are appended. */
  lemma CreditsGrow(cfg: Config, p1: Phase1Log, p1': Phase1Log, hashed: set<Bytes>, hashed': set<Bytes>)
    requires CreditsMatch(cfg, p1, hashed) && hashed <= hashed'
    requires p1.seen <= p1'.seen && p1.credits <= p1'.credits && |p1.credits| <= |p1'.credits| <= |p1.credits| + 1
    requires |p1'.credits| == |p1.credits| + 1 ==>
      |p1.credits| < |p1'.seen| && CreditOk(cfg, p1'.seen[|p1.credits|], p1'.credits[|p1.credits|], hashed')
    ensures CreditsMatch(cfg, p1', hashed')
  {
    forall k | 0 <= k < |p1'.credits| ensures CreditOk(cfg, p1'.seen[k], p1'.credits[k], hashed') {
      if k < |p1.credits| {
        CreditAt(cfg, p1, p1', hashed, hashed', k);
      } else {
        assert k == |p1.credits|;
      }
    }
  }

  lemma CreditsKept(m: Model, m': Model)
    requires Aligned(m) && CreditsOk(m) && Effect(m, m')
    ensures CreditsOk(m')
  {
    CreditsGrow(m.cfg, m.p1, m'.p1, m.log.hashed, m'.log.hashed);
  }

  // ----------------------------------------------------------------- change

  /** An output that skipped confirmation has the change path of all inputs. */
  ghost predicate ChangeOk(m: Model, o: TxOutput)
  {
    && ChangePath(PathOf(m.p1.seen), o.addressN)
    && (o.multisig.Some? ==>
          && FpAll(m.cfg.env, m.p1.seen) && !FpOf(m.cfg.env, m.p1.seen).mismatch
          && m.cfg.env.fingerprint(o.multisig.value) == Some(FpOf(m.cfg.env, m.p1.seen).value))
  }

  ghost predicate OutputOk(m: Model, s: Shown)
  {
    && s.bin.amount == s.output.amount
    && m.cfg.env.compileOutput(s.output) == Some(s.bin.script)
    && (!s.confirmed ==> ChangeOk(m, s.output))
  }

  ghost predicate ShownAll(m: Model)
  {
    && (forall k :: 0 <= k < |m.p1.shown| ==> OutputOk(m, m.p1.shown[k]))
    && AtMostOnePositive(m.p1.shown)
  }

  /** No two unconfirmed outputs carry a positive amount. */
  ghost predicate AtMostOnePositive(shown: seq<Shown>)
  {
    forall j, k :: 0 <= j < k < |shown| && !shown[j].confirmed && !shown[k].confirmed ==>
      shown[j].bin.amount == 0 || shown[k].bin.amount == 0
  }

  lemma {:induction false} ZeroTotal(shown: seq<Shown>, k: nat)
    requires k < |shown| && TotalShown(shown, false) == 0 && !shown[k].confirmed
    ensures shown[k].bin.amount == 0
  {
    if k < |shown| - 1 {
      ZeroTotal(shown[..|shown| - 1], k);
    }
  }

  lemma AddUnconfirmed(shown: seq<Shown>, s: Shown)
    requires AtMostOnePositive(shown)
    requires !s.confirmed ==> TotalShown(shown, false) == 0
    ensures AtMostOnePositive(shown + [s])
  {
    if !s.confirmed {
      forall j | 0 <= j < |shown| && !shown[j].confirmed ensures shown[j].bin.amount == 0 {
        ZeroTotal(shown, j);
      }
    }
  }

  lemma ShownKept(m: Model, m': Model)
    requires Aligned(m) && ShownAll(m) && Effect(m, m')
    ensures ShownAll(m')
  {
    if m'.p1 != m.p1 && m.stage.Request3Output? {
      var s :| ShownOk(m, s) && m'.p1 == m.p1.(shown := m.p1.shown + [s]);
      AddUnconfirmed(m.p1.shown, s);
      assert OutputOk(m, s);
    }
  }

  /** If the account path is still usable, it is the account path of every input. */
  lemma {:induction false} PathOfAll(ins: seq<TxInput>)
    ensures PathOf(ins).count != NOCHANGEALLOWED ==>
              forall k :: 0 <= k < |ins| ==>
                && |ins[k].addressN| == PathOf(ins).count >= WALLET_DEPTH
                && Account(ins[k].addressN) == PathOf(ins).prefix
    ensures PathOf(ins).count == 0 <==> ins == []
  {
    if |ins| > 0 {
      PathOfAll(ins[..|ins| - 1]);
    }
  }

  /** The fingerprint without mismatch is that of every input, all of them multisig. */
  lemma {:induction false} FpOfAll(env: Env, ins: seq<TxInput>)
    requires FpAll(env, ins)
    ensures !FpOf(env, ins).mismatch && ins != [] ==> FpOf(env, ins).isSet
    ensures !FpOf(env, ins).mismatch ==>
              forall k :: 0 <= k < |ins| ==>
                ins[k].multisig.Some? && env.fingerprint(ins[k].multisig.value) == Some(FpOf(env, ins).value)
    ensures FpOf(env, ins).isSet ==> ins != []
  {
    if |ins| > 0 {
      FpOfAll(env, ins[..|ins| - 1]);
    }
  }

  // ----------------------------------------------------------- BIP-143 ledger

  /** What was charged never exceeds what was claimed, and every charge signs the Phase 1 lists. */
  ghost predicate Ledger(m: Model)
  {
    && TotalCharged(m.log.charges) <= TotalClaimed(m.p1.credits)
    && forall k :: 0 <= k < |m.log.charges| ==> ChargeSignsPhase1(m, m.log.charges[k])
  }

  ghost predicate ChargeSignsPhase1(m: Model, c: Charge)
  {
    exists i: TxInput :: c.amount == i.amount && c.preimage == Bip143Preimage(m, i)
  }

  lemma SamePhase1SameCharge(m: Model, m': Model, c: Charge)
    requires m'.cfg == m.cfg && m'.p1 == m.p1 && ChargeSignsPhase1(m, c)
    ensures ChargeSignsPhase1(m', c)
  {
    var i: TxInput :| c.amount == i.amount && c.preimage == Bip143Preimage(m, i);
    assert Bip143Preimage(m', i) == Bip143Preimage(m, i);
  }

  lemma LedgerKept(m: Model, m': Model)
    requires Aligned(m) && Ledger(m) && Effect(m, m')
    ensures Ledger(m')
  {
    if Phase1(m) {
      assert m'.log.charges == [];
    } else {
      forall c | ChargeSignsPhase1(m, c) ensures ChargeSignsPhase1(m', c) {
        SamePhase1SameCharge(m, m', c);
      }
      if m'.log.charges != m.log.charges {
        var c :| ChargeOk(m, c) && m'.log.charges == m.log.charges + [c];
        SnocCharge(m.log.charges, c);
        assert ChargeSignsPhase1(m, c);
      }
    }
  }
}

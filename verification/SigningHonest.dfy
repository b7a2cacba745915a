/**
 Honest hosts are served: if the inputs spend what their previous transactions pay, the keys
 can sign, the amounts add up and the user agrees, every correct answer leads on. This is the
 other side of the theorems about signed sessions, which hold of any host; `SigningHost` finds
 the answers by the requests.
 */
module SigningHonest {
  import opened Bytes
  import opened Transaction
  import opened SigningModel
  import opened SigningRuns
  import opened SigningLedger
  import opened SigningAgreement
  import opened SigningTheorems
  import opened SigningTermination

  const YES := Choices(true, true, true)

  /** The amount of an input is read from its previous transaction. */
  predicate FromPrevious(cfg: Config, i: TxInput)
  {
    i.Legacy() && !cfg.forceBip143
  }

  /** Keys, scripts and fingerprints can be computed for this input. */
  ghost predicate Signable(cfg: Config, i: TxInput)
  {
    && cfg.env.derives(i.addressN)
    && (forall digest: Hash32 :: cfg.env.sign(i.addressN, digest).Some?)
    && match i.multisig
       case None => cfg.addressTypeKnown
       case Some(ms) =>
         && cfg.env.fingerprint(ms).Some?
         && (forall filled: Signatures :: cfg.env.multisigScript(ms.(signatures := filled)) != [])
         && cfg.env.multisigScriptHash(ms).Some? && cfg.env.publicKeyIndex(ms, i.addressN).Some?
  }

  /** This input really spends an output of this transaction. */
  predicate Spends(cfg: Config, i: TxInput, prev: PrevTx)
  {
    && WholeTx(prev.head, prev.ins, prev.outs) && !prev.head.segwit && |prev.extra| == prev.extraLen
    && prev.head.inputsLen as int + prev.head.outputsLen as int < TWO32
    && i.prevIndex < |prev.outs| && i.prevHash == Reverse(cfg.env.hash(prev.Stream()))
  }

  /** What an honest host has to offer. */
  datatype Order = Order(ins: seq<TxInput>, prevs: seq<PrevTx>, outs: seq<TxOutput>, blank: Ack)
  {
    ghost predicate Honest(cfg: Config)
    {
      && cfg.Valid() && |ins| == |prevs| == cfg.inputsCount && |outs| == cfg.outputsCount
      && (forall k :: 0 <= k < |ins| ==> Signable(cfg, ins[k]) && Payable(cfg, k))
      && (forall k :: 0 <= k < |outs| ==> Compilable(cfg, outs[k]))
      && SumTo(cfg, |ins|) < TWO64 && PaidTo(|outs|) <= SumTo(cfg, |ins|)
    }

    predicate Payable(cfg: Config, k: nat)
      requires k < |ins| == |prevs|
    {
      if FromPrevious(cfg, ins[k]) then Spends(cfg, ins[k], prevs[k])
      else ins[k].hasAmount && (ins[k].Legacy() || (ins[k].Segwit() && cfg.hasSegwit))
    }

    predicate Compilable(cfg: Config, o: TxOutput)
    {
      cfg.env.compileOutput(o).Some? && !(|o.addressN| > 0 && o.hasAddress)
    }

    function Amount(cfg: Config, k: nat): nat
      requires k < |ins| == |prevs|
    {
      if !FromPrevious(cfg, ins[k]) then ins[k].amount
      else if ins[k].prevIndex < |prevs[k].outs| then prevs[k].outs[ins[k].prevIndex].amount else 0
    }

    /** The sum of the first inputs. */
    function SumTo(cfg: Config, n: nat): nat
      requires n <= |ins| == |prevs|
    {
      if n == 0 then 0 else SumTo(cfg, n - 1) + Amount(cfg, n - 1)
    }

    /** The part of it that BIP-143 signatures commit to, of segwit or of legacy inputs. */
    function ClaimedTo(cfg: Config, n: nat, segwit: bool): nat
      requires n <= |ins| == |prevs|
    {
      if n == 0 then 0
      else ClaimedTo(cfg, n - 1, segwit)
           + if !FromPrevious(cfg, ins[n - 1]) && ins[n - 1].Segwit() == segwit then ins[n - 1].amount else 0
    }

    function PaidTo(n: nat): nat
      requires n <= |outs|
    {
      if n == 0 then 0 else PaidTo(n - 1) + outs[n - 1].amount
    }

    function Bin(cfg: Config, k: nat): TxOut
      requires k < |outs|
    {
      TxOut(outs[k].amount, if cfg.env.compileOutput(outs[k]).Some? then cfg.env.compileOutput(outs[k]).value else [])
    }

    function BinsTo(cfg: Config, n: nat): seq<TxOut>
      requires n <= |outs|
    {
      seq(n, k requires 0 <= k < n => Bin(cfg, k))
    }

    /** The answer to the request of each stage. */
    function Answer(m: Model): Ack
    {
      match m.stage
      case Request1Input => Input(m.idx1)
      case Request2PrevMeta => if m.idx1 < |prevs| then Meta(prevs[m.idx1].head, prevs[m.idx1].extraLen) else blank
      case Request2PrevInput =>
        if m.idx1 < |prevs| && m.idx2 < |prevs[m.idx1].ins| then blank.(input := Plain(prevs[m.idx1].ins[m.idx2]))
        else blank
      case Request2PrevOutput =>
        if m.idx1 < |prevs| && m.idx2 < |prevs[m.idx1].outs| then blank.(binOutput := prevs[m.idx1].outs[m.idx2])
            else blank
      case Request2PrevExtraData =>
        if m.idx1 < |prevs| then blank.(extraData := Piece(prevs[m.idx1].extra, m.prev.Received())) else blank
      case Request3Output => Output(m.idx1)
      case Request4Input => Input(m.idx2)
      case Request4Output => Output(m.idx2)
      case RequestSegwitInput => Input(m.idx1)
      case Request5Output => Output(m.idx1)
      case RequestSegwitWitness => Input(m.idx1)
    }

    function Input(k: nat): Ack
    {
      if k < |ins| then blank.(input := ins[k]) else blank
    }

    function Output(k: nat): Ack
    {
      if k < |outs| then blank.(output := outs[k]) else blank
    }

    function Meta(h: Header, extraLen: uint32): Ack
    {
      blank.(inputsCnt := h.inputsLen, outputsCnt := h.outputsLen, version := h.version, lockTime := h.lockTime,
             preblock := if |h.preblock| == 32 then h.preblock else blank.preblock, extraDataLen := extraLen)
    }
  }

  function Plain(w: TxIn): TxInput
  {
    TxInput(w.prevHash, w.prevIndex, w.scriptSig, w.sequence, 0, false, 0, None, [])
  }

  /** The next 1024 bytes. */
  function Piece(extra: Bytes, from: nat): Chunk
  {
    if from > |extra| then [] else if |extra| <= from + 1024 then extra[from..] else extra[from..from + 1024]
  }

  // ---------------------------------------------------------------- the sums

  lemma {:induction false} SumsGrow(o: Order, cfg: Config, k: nat, n: nat)
    requires k <= n <= |o.ins| == |o.prevs|
    ensures o.SumTo(cfg, k) <= o.SumTo(cfg, n)
    ensures forall segwit :: o.ClaimedTo(cfg, k, segwit) <= o.ClaimedTo(cfg, n, segwit)
  {
    if k < n {
      SumsGrow(o, cfg, k, n - 1);
    }
  }

  lemma {:induction false} PaidGrows(o: Order, k: nat, n: nat)
    requires k <= n <= |o.outs|
    ensures o.PaidTo(k) <= o.PaidTo(n)
  {
    if k < n {
      PaidGrows(o, k, n - 1);
    }
  }

  // -------------------------------------------------------------- invariant

  /** Phase 1 has taken over the first inputs, credits and outputs of the order. */
  ghost predicate Knows(m: Model, cfg: Config, o: Order)
  {
    && |m.p1.credits| <= |m.p1.seen| <= |o.ins| == |o.prevs| && m.p1.seen == o.ins[..|m.p1.seen|]
    && Total(m.p1.credits) == o.SumTo(cfg, |m.p1.credits|)
    && TotalClaimed(m.p1.credits) == o.ClaimedTo(cfg, |m.p1.credits|, false) + o.ClaimedTo(cfg, |m.p1.credits|, true)
    && |m.p1.shown| <= |o.outs| && Bins(m.p1.shown) == o.BinsTo(cfg, |m.p1.shown|)
    && Spending(m.p1.shown) == o.PaidTo(|m.p1.shown|)
  }

  /** The previous transaction so far. */
  ghost predicate FollowsTx(m: Model, p: PrevTx)
  {
    match m.stage
    case Request2PrevInput => m.idx2 <= |p.ins| && m.prev == p.(ins := p.ins[..m.idx2], outs := [], extra := [])
    case Request2PrevOutput => m.idx2 <= |p.outs| && m.prev == p.(outs := p.outs[..m.idx2], extra := [])
    case Request2PrevExtraData => |m.prev.extra| <= |p.extra| && m.prev == p.(extra := p.extra[..|m.prev.extra|])
    case _ => true
  }

  ghost predicate Follows(m: Model, o: Order)
  {
    InPrev(m) ==> m.idx1 < |o.prevs| && FollowsTx(m, o.prevs[m.idx1])
  }

  /** The inputs of a pass are those of the order but for their scripts. */
  ghost predicate SameBut(pass: seq<TxInput>, ins: seq<TxInput>)
  {
    |pass| <= |ins| && forall k :: 0 <= k < |pass| ==> pass[k] == ins[k].(scriptSig := pass[k].scriptSig)
  }

  ghost predicate Passes(m: Model, cfg: Config, o: Order)
  {
    && (m.stage.Request4Input? && m.idx2 > 0 ==> SameBut(m.pass.ins, o.ins))
    && (m.stage.Request4Output? ==>
          SameBut(m.pass.ins, o.ins) && m.idx2 <= |o.outs| && m.pass.outs == o.BinsTo(cfg, m.idx2))
    && (cfg.forceBip143 ==> m.next == NO_LEGACY)
    && (m.stage.RequestSegwitInput? && !cfg.forceBip143 ==> NextIs(m.p1.seen, m.idx1, m.next))
  }

  /** What has been charged at each stage: legacy inputs first, segwit inputs with their witnesses. */
  function ChargedBy(m: Model, cfg: Config, o: Order): nat
    requires |o.ins| == |o.prevs|
  {
    var k := if m.idx1 <= |o.ins| then m.idx1 else 0;
    match m.stage
    case Request4Input => o.ClaimedTo(cfg, k, false)
    case Request4Output => o.ClaimedTo(cfg, k, false)
    case RequestSegwitInput => o.ClaimedTo(cfg, k, false)
    case Request5Output => o.ClaimedTo(cfg, |o.ins|, false)
    case RequestSegwitWitness => o.ClaimedTo(cfg, |o.ins|, false) + o.ClaimedTo(cfg, k, true)
    case _ => 0
  }

  /** Up to its script, this is the input as it was ordered. */
  predicate SameWire(w: TxIn, i: TxInput)
  {
    w == TxIn(i.prevHash, i.prevIndex, w.scriptSig, i.sequence)
  }

  /** What has been serialized is the order. */
  ghost predicate Writes(m: Model, cfg: Config, o: Order)
  {
    && |m.wire.ins| <= |o.ins| && (forall k :: 0 <= k < |m.wire.ins| ==> SameWire(m.wire.ins[k], o.ins[k]))
    && |m.wire.outs| <= |o.outs| && m.wire.outs == o.BinsTo(cfg, |m.wire.outs|)
  }

  ghost predicate Served(m: Model, cfg: Config, o: Order)
  {
    && o.Honest(cfg) && m.alive && m.cfg == cfg
    && Knows(m, cfg, o) && Follows(m, o) && Passes(m, cfg, o)
    && TotalCharged(m.log.charges) == ChargedBy(m, cfg, o)
    && (!Phase1(m) ==> Writes(m, cfg, o))
  }

  // -------------------------------------------------------------- the stages

  lemma KnowsInput(m: Model, cfg: Config, o: Order, i: TxInput)
    requires Knows(m, cfg, o) && |m.p1.seen| < |o.ins| && i == o.ins[|m.p1.seen|]
    ensures Knows(WithInput(m, i), cfg, o)
  {
    hide Total, TotalClaimed, TotalShown, Bins, WeightWithInput, Order.SumTo, Order.ClaimedTo, Order.PaidTo,
         Order.BinsTo;
    assert o.ins[..|m.p1.seen| + 1] == o.ins[..|m.p1.seen|] + [i];
  }

  lemma KnowsCredit(m: Model, cfg: Config, o: Order, c: Credit)
    requires Knows(m, cfg, o) && |m.p1.credits| < |m.p1.seen|
    requires var k := |m.p1.credits|;
      c.amount == o.Amount(cfg, k) && (c.Claimed? <==> !FromPrevious(cfg, o.ins[k]))
      && (c.Claimed? ==> o.ins[k].Legacy() || o.ins[k].Segwit())
    ensures Knows(m.Credited(c), cfg, o)
  {
    hide Total, TotalClaimed, TotalShown, Bins, Order.PaidTo, Order.BinsTo;
    SnocCredit(m.p1.credits, c);
  }

  lemma ServedNextInput(m: Model, cfg: Config, o: Order)
    requires o.Honest(cfg) && m.alive && m.cfg == cfg && Knows(m, cfg, o) && m.log.charges == []
    requires cfg.forceBip143 ==> m.next == NO_LEGACY
    ensures Served(Phase1NextInput(m).m, cfg, o)
  {
    hide Order.Honest, Total, TotalClaimed, TotalShown, Bins, Order.SumTo, Order.ClaimedTo, Order.PaidTo, Order.BinsTo,
         PrevoutsPreimage, SequencesPreimage, CheckPreimage;
  }

  lemma AcceptsFingerprint(m: Model, cfg: Config, i: TxInput)
    requires m.cfg == cfg && FpAll(cfg.env, m.p1.seen) && Signable(cfg, i)
    ensures FpAccepts(cfg.env, FpOf(cfg.env, m.p1.seen), i)
  {
    hide FpOf, FpAll;
  }

  /** Inputs, credits and fingerprints while Phase 1 takes inputs. */
  lemma TakingInputs(m: Model, cfg: Config, o: Order)
    requires Served(m, cfg, o) && Shape(m) && m.stage.Request1Input?
    ensures |m.p1.seen| == |m.p1.credits| == m.idx1 < |o.ins| == |o.prevs| && FpAll(cfg.env, m.p1.seen)
    ensures m.log.charges == [] && Signable(cfg, o.ins[m.idx1]) && o.Payable(cfg, m.idx1)
    ensures o.SumTo(cfg, m.idx1) + o.Amount(cfg, m.idx1) < TWO64 && m.idx1 < NO_LEGACY
  {
    hide FpAll, Total, TotalClaimed, TotalShown, Bins, Signable, Order.Compilable, Order.Payable;
    SumsGrow(o, cfg, m.idx1 + 1, |o.ins|);
  }

  /** The amount will come from the previous transaction. */
  lemma CreditLater(w: Model, cfg: Config, o: Order, i: TxInput)
    requires o.Honest(cfg) && w.alive && w.cfg == cfg && Knows(w, cfg, o) && w.log.charges == [] && FromPrevious(cfg, i)
    requires w.idx1 < |o.ins| == |o.prevs|
    ensures Served(Credit1(w, i).m, cfg, o)
  {
    hide Knows, Order.Honest;
    KnowsStays(w, Credit1(w, i).m, cfg, o);
  }

  /** The amount is taken from the host. */
  lemma CreditNow(w: Model, cfg: Config, o: Order, i: TxInput)
    requires o.Honest(cfg) && w.alive && w.cfg == cfg && Knows(w, cfg, o) && w.log.charges == []
      && !FromPrevious(cfg, i)
    requires |w.p1.credits| < |w.p1.seen| && i == o.ins[|w.p1.credits|] && o.Payable(cfg, |w.p1.credits|)
    requires o.SumTo(cfg, |w.p1.credits|) + o.Amount(cfg, |w.p1.credits|) < TWO64
    requires cfg.forceBip143 ==> w.next == NO_LEGACY
    ensures Served(Credit1(w, i).m, cfg, o)
  {
    hide Order.Honest, Served, Phase1NextInput, Total, TotalClaimed, TotalShown, Order.SumTo, Order.ClaimedTo,
         Order.PaidTo,
         Order.BinsTo, Bins;
    KnowsCredit(w, cfg, o, Claimed(i.amount));
    ServedNextInput(w.Credited(Claimed(i.amount)), cfg, o);
  }

  lemma Serves1Input(m: Model, cfg: Config, o: Order)
    requires Served(m, cfg, o) && Shape(m) && m.stage.Request1Input?
    ensures Served(Step1Input(m, o.Answer(m).input).m, cfg, o)
  {
    TakingInputs(m, cfg, o);
    hide FpAll, FpOf, Order.Honest, Shape, Signable, Order.Payable, Order.SumTo, Order.Amount;
    var i := o.ins[m.idx1];
    AcceptsFingerprint(m, cfg, i);
    KnowsInput(m, cfg, o, i);
    hide Knows, FpAccepts, Credit1;
    if FromPrevious(cfg, i) {
      CreditLater(WithInput(m, i), cfg, o, i);
    } else {
      CreditNow(WithInput(m, i), cfg, o, i);
    }
    hide Served;
  }

  lemma KnowsStays(m: Model, w: Model, cfg: Config, o: Order)
    requires Knows(m, cfg, o) && w.p1 == m.p1
    ensures Knows(w, cfg, o)
  {
    hide Total, TotalClaimed, TotalShown, Bins, Order.SumTo, Order.ClaimedTo, Order.PaidTo, Order.BinsTo;
  }

  /** The input whose previous transaction is being streamed. */
  lemma Spending1(m: Model, cfg: Config, o: Order)
    requires Served(m, cfg, o) && Shape(m) && InPrev(m)
    ensures |m.p1.seen| == m.idx1 + 1 && |m.p1.credits| == m.idx1 < |o.ins| == |o.prevs|
    ensures m.p1.seen[m.idx1] == o.ins[m.idx1] && FromPrevious(cfg, o.ins[m.idx1]) && m.log.charges == []
    ensures Spends(cfg, o.ins[m.idx1], o.prevs[m.idx1]) && FollowsTx(m, o.prevs[m.idx1]) && m.alive && m.cfg == cfg
    ensures Total(m.p1.credits) == o.SumTo(cfg, m.idx1) && o.SumTo(cfg, m.idx1) + o.Amount(cfg, m.idx1) < TWO64
  {
    hide FpAll, Total, TotalClaimed, TotalShown, Bins, Signable, Order.Compilable, Spends;
    assert o.Payable(cfg, m.idx1);
    SumsGrow(o, cfg, m.idx1 + 1, |o.ins|);
  }

  /** Phase 1 stays as it is and nothing is charged while a previous transaction is streamed. */
  lemma StillServed(m: Model, w: Model, cfg: Config, o: Order)
    requires Served(m, cfg, o) && InPrev(m) && InPrev(w) && Follows(w, o)
    requires w == m.(stage := w.stage, idx2 := w.idx2, prev := w.prev)
    ensures Served(w, cfg, o)
  {
    hide Order.Honest;
    KnowsStays(m, w, cfg, o);
    hide Knows;
  }

  lemma StartsPrev(m: Model, cfg: Config, o: Order, a: Ack)
    requires m.alive && m.stage.Request2PrevMeta? && |m.p1.seen| == m.idx1 + 1 && m.idx1 < |o.prevs|
    requires Spends(cfg, m.p1.seen[m.idx1], o.prevs[m.idx1])
      && a == o.Meta(o.prevs[m.idx1].head, o.prevs[m.idx1].extraLen)
    ensures var w := Step2PrevMeta(m, a).m;
      w == m.(stage := w.stage, idx2 := w.idx2, prev := w.prev) && InPrev(w) && FollowsTx(w, o.prevs[m.idx1])
  {
    hide PrevTx.Stream, Reverse;
    var p := o.prevs[m.idx1];
    assert p.ins[..0] == [] && p.outs[..0] == [] && p.extra[..0] == [];
  }

  lemma ServesPrevMeta(m: Model, cfg: Config, o: Order)
    requires Served(m, cfg, o) && Shape(m) && m.stage.Request2PrevMeta? && |m.p1.seen| == m.idx1 + 1
    ensures Served(Step2PrevMeta(m, o.Answer(m)).m, cfg, o)
  {
    Spending1(m, cfg, o);
    hide Shape, Served, Spends, Step2PrevMeta, FollowsTx;
    StartsPrev(m, cfg, o, o.Answer(m));
    StillServed(m, Step2PrevMeta(m, o.Answer(m)).m, cfg, o);
  }

  lemma TakesPrevInput(m: Model, p: PrevTx, i: TxInput)
    requires m.alive && m.stage.Request2PrevInput? && |m.p1.seen| == m.idx1 + 1 && FollowsTx(m, p)
    requires m.idx2 < m.prev.head.inputsLen == |p.ins| && i.Wire() == p.ins[m.idx2]
    ensures var w := Step2PrevInput(m, i).m;
      w == m.(stage := w.stage, idx2 := w.idx2, prev := w.prev) && InPrev(w) && FollowsTx(w, p)
  {
    assert p.ins[..m.idx2] + [p.ins[m.idx2]] == p.ins[..m.idx2 + 1];
    assert p.ins[..|p.ins|] == p.ins && p.outs[..0] == [];
  }

  lemma ServesPrevInput(m: Model, cfg: Config, o: Order)
    requires Served(m, cfg, o) && Shape(m) && m.stage.Request2PrevInput? && |m.p1.seen| == m.idx1 + 1
    requires m.idx2 < m.prev.head.inputsLen
    ensures Served(Step2PrevInput(m, o.Answer(m).input).m, cfg, o)
  {
    Spending1(m, cfg, o);
    hide Shape, Served, Step2PrevInput, PrevTx.Stream, Reverse;
    TakesPrevInput(m, o.prevs[m.idx1], o.Answer(m).input);
    hide FollowsTx, Spends;
    StillServed(m, Step2PrevInput(m, o.Answer(m).input).m, cfg, o);
  }

  /** The streamed transaction is the one the input spends, so its amount is counted. */
  lemma ServesCheckPrevTx(m: Model, cfg: Config, o: Order)
    requires o.Honest(cfg) && m.alive && m.cfg == cfg && Knows(m, cfg, o) && m.log.charges == []
    requires |m.p1.seen| == m.idx1 + 1 && |m.p1.credits| == m.idx1 && m.idx1 < |o.ins| == |o.prevs|
    requires m.p1.seen[m.idx1] == o.ins[m.idx1] && FromPrevious(cfg, o.ins[m.idx1])
    requires Spends(cfg, o.ins[m.idx1], o.prevs[m.idx1]) && m.prev == o.prevs[m.idx1]
    ensures Served(CheckPrevTx(m).m, cfg, o)
  {
    var c := Proven(m.prev.outs[m.p1.seen[m.idx1].prevIndex].amount, m.prev);
    KnowsCredit(m, cfg, o, c);
    var w := m.Hashing({m.prev.Stream()}).Credited(c);
    KnowsStays(m.Credited(c), w, cfg, o);
    ServedNextInput(w, cfg, o);
    hide Knows, Served, Phase1NextInput, PrevTx.Stream, Reverse, Order.Honest, Order.SumTo;
  }

  /** Goes on streaming, or has the whole transaction and checks it. */
  ghost predicate StreamsOn(m: Model, r: Model, p: PrevTx)
  {
    || (r == m.(stage := r.stage, idx2 := r.idx2, prev := r.prev) && InPrev(r) && FollowsTx(r, p))
    || (|m.p1.seen| == m.idx1 + 1 && m.p1.seen[m.idx1].prevIndex < |p.outs| && r == CheckPrevTx(m.(prev := p)).m)
  }

  lemma TakesPrevOutput(m: Model, p: PrevTx, out: TxOut)
    requires m.alive && m.stage.Request2PrevOutput? && |m.p1.seen| == m.idx1 + 1 && FollowsTx(m, p)
    requires m.idx2 < m.prev.head.outputsLen == |p.outs| && out == p.outs[m.idx2] && |p.extra| == p.extraLen
    requires m.p1.seen[m.idx1].prevIndex < |p.outs|
    requires Total(m.p1.credits) + p.outs[m.p1.seen[m.idx1].prevIndex].amount < TWO64
    ensures StreamsOn(m, Step2PrevOutput(m, out).m, p)
  {
    hide CheckPrevTx, Total;
    assert p.outs[..m.idx2] + [out] == p.outs[..m.idx2 + 1];
    assert p.outs[..|p.outs|] == p.outs && p.extra[..0] == [];
  }

  lemma TakesPrevExtraData(m: Model, p: PrevTx)
    requires m.alive && m.stage.Request2PrevExtraData? && |m.p1.seen| == m.idx1 + 1 && FollowsTx(m, p)
    requires |p.extra| == p.extraLen && m.p1.seen[m.idx1].prevIndex < |p.outs| && m.prev.Received() < m.prev.extraLen
    ensures StreamsOn(m, Step2PrevExtraData(m, Piece(p.extra, m.prev.Received())).m, p)
  {
    hide CheckPrevTx;
    var n := |m.prev.extra|;
    assert m.prev.Received() == n;
    var piece := Piece(p.extra, n);
    assert p.extra[..n] + piece == p.extra[..n + |piece|];
    assert p.extra[..|p.extra|] == p.extra;
  }

  lemma ServesStreaming(m: Model, r: Model, cfg: Config, o: Order)
    requires Served(m, cfg, o) && Shape(m) && InPrev(m) && m.idx1 < |o.prevs| && StreamsOn(m, r, o.prevs[m.idx1])
    ensures Served(r, cfg, o)
  {
    Spending1(m, cfg, o);
    hide Shape, FollowsTx, Spends, Order.SumTo, Total, CheckPrevTx;
    var w := m.(prev := o.prevs[m.idx1]);
    KnowsStays(m, w, cfg, o);
    assert o.Honest(cfg);
    hide Served, Order.Honest, Knows;
    if r == m.(stage := r.stage, idx2 := r.idx2, prev := r.prev) && InPrev(r) && FollowsTx(r, o.prevs[m.idx1]) {
      StillServed(m, r, cfg, o);
    } else {
      ServesCheckPrevTx(w, cfg, o);
    }
  }

  lemma PrevOutputsOf(m: Model, p: PrevTx)
    requires FollowsTx(m, p) && m.stage.Request2PrevOutput?
    ensures m.prev.head == p.head && m.prev.extraLen == p.extraLen
  {
  }

  lemma ServesPrevOutput(m: Model, cfg: Config, o: Order)
    requires Served(m, cfg, o) && Shape(m) && m.stage.Request2PrevOutput? && |m.p1.seen| == m.idx1 + 1
    requires |m.prev.outs| == m.idx2 < m.prev.head.outputsLen && m.p1.seen[m.idx1].prevIndex < m.prev.head.outputsLen
    ensures Served(Step2PrevOutput(m, o.Answer(m).binOutput).m, cfg, o)
  {
    hide Shape, Served, Step2PrevOutput, PrevTx.Stream, Reverse, StreamsOn, Total, Order.SumTo, FollowsTx;
    Spending1(m, cfg, o);
    PrevOutputsOf(m, o.prevs[m.idx1]);
    TakesPrevOutput(m, o.prevs[m.idx1], o.Answer(m).binOutput);
    ServesStreaming(m, Step2PrevOutput(m, o.Answer(m).binOutput).m, cfg, o);
  }

  lemma AnswersExtraData(m: Model, cfg: Config, o: Order)
    requires m.stage.Request2PrevExtraData? && m.idx1 < |o.ins| == |o.prevs|
      && Spends(cfg, o.ins[m.idx1], o.prevs[m.idx1])
    ensures o.Answer(m).extraData == Piece(o.prevs[m.idx1].extra, m.prev.Received())
    ensures |o.prevs[m.idx1].extra| == o.prevs[m.idx1].extraLen && o.ins[m.idx1].prevIndex < |o.prevs[m.idx1].outs|
  {
    hide PrevTx.Stream, Reverse;
  }

  lemma ServesPrevExtraData(m: Model, cfg: Config, o: Order)
    requires Served(m, cfg, o) && Shape(m) && m.stage.Request2PrevExtraData? && |m.p1.seen| == m.idx1 + 1
    requires m.p1.seen[m.idx1].prevIndex < |m.prev.outs| && m.prev.Received() < m.prev.extraLen
    ensures Served(Step2PrevExtraData(m, o.Answer(m).extraData).m, cfg, o)
  {
    Spending1(m, cfg, o);
    hide Shape, Served, PrevTx.Stream, Reverse;
    AnswersExtraData(m, cfg, o);
    hide Served, Step2PrevExtraData, PrevTx.Stream, Reverse, StreamsOn, Total, Order.SumTo, FollowsTx, Spends, Piece,
         Order.Answer, PrevTx.Received;
    TakesPrevExtraData(m, o.prevs[m.idx1]);
    ServesStreaming(m, Step2PrevExtraData(m, o.Answer(m).extraData).m, cfg, o);
  }

  /** Everything Phase 2 relies on. */
  ghost predicate Ready2(m: Model, cfg: Config, o: Order)
  {
    && o.Honest(cfg) && m.alive && m.cfg == cfg && Knows(m, cfg, o) && FpAll(cfg.env, m.p1.seen)
    && m.p1.seen == o.ins && |m.p1.credits| == |o.ins| == |o.prevs| == cfg.inputsCount
    && |m.p1.shown| == |o.outs| == cfg.outputsCount && (cfg.forceBip143 ==> m.next == NO_LEGACY)
    && Bins(m.p1.shown) == o.BinsTo(cfg, |o.outs|) && Writes(m, cfg, o)
  }

  lemma ServedPhase2(m: Model, cfg: Config, o: Order)
    requires Ready2(m, cfg, o) && !Phase1(m) && Passes(m, cfg, o) && TotalCharged(m.log.charges) == ChargedBy(m, cfg, o)
    ensures Served(m, cfg, o)
  {
    hide Knows, Order.Honest, Passes, ChargedBy, FpAll, Bins;
  }

  lemma Facts2(m: Model, cfg: Config, o: Order)
    requires Ready2(m, cfg, o)
    ensures m.alive && m.cfg == cfg && |o.ins| == |o.prevs| == cfg.inputsCount && |o.outs| == cfg.outputsCount
    ensures (cfg.forceBip143 ==> m.next == NO_LEGACY) && m.p1.seen == o.ins && Writes(m, cfg, o)
    ensures FpAll(m.cfg.env, m.p1.seen)
  {
    hide Order.Honest, Knows, FpAll, Bins, Writes;
  }

  lemma Ready2Stays(m: Model, w: Model, cfg: Config, o: Order)
    requires Ready2(m, cfg, o) && w.p1 == m.p1 && w.cfg == m.cfg && w.alive && (cfg.forceBip143 ==> w.next == NO_LEGACY)
    requires Writes(w, cfg, o) || (w.wire.ins == m.wire.ins && w.wire.outs == m.wire.outs)
    ensures Ready2(w, cfg, o)
  {
    hide Order.Honest, FpAll, Bins;
    KnowsStays(m, w, cfg, o);
    hide Knows;
  }

  // ----------------------------------------------------------- Phase 1, outputs

  lemma KnowsShown(m: Model, cfg: Config, o: Order, script: Script, confirmed: bool)
    requires Knows(m, cfg, o) && |m.p1.shown| < |o.outs|
    requires cfg.env.compileOutput(o.outs[|m.p1.shown|]) == Some(script)
    ensures var out := o.outs[|m.p1.shown|];
      Knows(AddShown(m, Shown(out, TxOut(out.amount, script), confirmed)), cfg, o)
  {
    hide Total, TotalClaimed, TotalShown, Order.SumTo, Order.ClaimedTo;
    var k := |m.p1.shown|;
    var s := Shown(o.outs[k], TxOut(o.outs[k].amount, script), confirmed);
    SnocShown(m.p1.shown, s, true);
    SnocShown(m.p1.shown, s, false);
    assert s.bin == o.Bin(cfg, k);
    assert Bins(m.p1.shown + [s]) == Bins(m.p1.shown) + [s.bin];
    assert o.BinsTo(cfg, k + 1) == o.BinsTo(cfg, k) + [s.bin];
  }

  lemma NothingYet(cfg: Config, o: Order)
    requires |o.ins| == |o.prevs|
    ensures o.ClaimedTo(cfg, 0, false) == o.ClaimedTo(cfg, 0, true) == 0 && o.BinsTo(cfg, 0) == []
  {
  }

  /** The start of Phase 2. */
  lemma StartsPhase2(m: Model, cfg: Config, o: Order)
    requires Ready2(m, cfg, o) && m.log.charges == [] && Spending(m.p1.shown) <= Total(m.p1.credits)
    requires |o.ins| > 0 && (cfg.forceBip143 || NextIs(m.p1.seen, 0, m.next))
    ensures Served(CheckFee(m, YES).m, cfg, o)
  {
    hide Order.ClaimedTo, Order.Honest, Knows, FpAll, Bins, NextIs, Total, TotalShown, MaxFee, Served;
    var r := CheckFee(m, YES).m;
    NothingYet(cfg, o);
    Ready2Stays(m, r, cfg, o);
    assert m.cfg == cfg && |o.ins| == |o.prevs| && m.alive && |o.ins| == cfg.inputsCount
      && (cfg.forceBip143 ==> m.next == NO_LEGACY);
    hide Ready2;
    ServedPhase2(r, cfg, o);
  }

  lemma MoreOutputs(m: Model, w: Model, cfg: Config, o: Order)
    requires o.Honest(cfg) && m.alive && m.cfg == cfg && Knows(m, cfg, o) && m.log.charges == []
      && m.stage.Request3Output?
    requires w == m.(idx1 := w.idx1, idx2 := w.idx2) && (cfg.forceBip143 ==> m.next == NO_LEGACY)
      && |o.ins| == |o.prevs|
    ensures Served(w, cfg, o)
  {
    hide Order.Honest, Knows;
    KnowsStays(m, w, cfg, o);
  }

  lemma ReadyAfterOutputs(m: Model, cfg: Config, o: Order)
    requires o.Honest(cfg) && m.alive && m.cfg == cfg && Knows(m, cfg, o) && FpAll(cfg.env, m.p1.seen)
    requires |m.p1.seen| == |m.p1.credits| == |o.ins| && |m.p1.shown| == |o.outs|
    requires m.wire.ins == [] && m.wire.outs == [] && (cfg.forceBip143 ==> m.next == NO_LEGACY)
    ensures Ready2(m, cfg, o)
  {
    hide FpAll, Bins, Total, TotalClaimed, TotalShown, Signable, Order.Payable, Order.Compilable;
    assert o.ins[..|o.ins|] == o.ins;
    assert o.BinsTo(cfg, 0) == [];
  }

  lemma ServedNextOutput(m: Model, cfg: Config, o: Order)
    requires o.Honest(cfg) && m.alive && m.cfg == cfg && Knows(m, cfg, o) && m.log.charges == []
      && m.stage.Request3Output?
    requires |m.p1.seen| == |m.p1.credits| == |o.ins| && |m.p1.shown| == m.idx1 + 1 <= |o.outs|
      && FpAll(cfg.env, m.p1.seen)
    requires if cfg.forceBip143 then m.next == NO_LEGACY else NextIs(m.p1.seen, 0, m.next)
    requires m.wire.ins == [] && m.wire.outs == []
    ensures Served(Phase1NextOutput(m, YES).m, cfg, o)
  {
    hide Order.Honest, NextIs, FpAll, CheckFee, Knows, Bins, PrintOuts, Total, TotalShown, Served, Ready2, Writes;
    PaidWithin(m, cfg, o);
    if m.idx1 < |o.outs| - 1 {
      MoreOutputs(m, m.At(Request3Output, m.idx1 + 1, m.idx2), cfg, o);
    } else {
      var w := m.Hashing({PrintOuts(Bins(m.p1.shown))});
      ReadyAfterOutputs(m, cfg, o);
      Ready2Stays(m, w, cfg, o);
      StartsPhase2(w, cfg, o);
    }
  }

  lemma PaidWithin(m: Model, cfg: Config, o: Order)
    requires o.Honest(cfg) && Knows(m, cfg, o) && |m.p1.credits| == |o.ins|
    ensures Spending(m.p1.shown) <= Total(m.p1.credits)
    ensures |o.outs| == cfg.outputsCount && |o.ins| == |o.prevs| == cfg.inputsCount > 0
    ensures |m.p1.shown| < |o.outs| ==> Spending(m.p1.shown) + o.outs[|m.p1.shown|].amount < TWO64
  {
    hide Total, TotalClaimed, TotalShown, Bins, Signable, Order.Payable, Order.Compilable;
    var k := |m.p1.shown|;
    PaidGrows(o, if k < |o.outs| then k + 1 else k, |o.outs|);
  }

  lemma Serves3Output(m: Model, cfg: Config, o: Order)
    requires Served(m, cfg, o) && Shape(m) && m.stage.Request3Output? && FpAll(cfg.env, m.p1.seen)
    requires cfg.forceBip143 || FirstLegacy(m.p1.seen, m.next)
    ensures Served(Step3Output(m, o.Answer(m).output, YES).m, cfg, o)
  {
    hide Served, Shape, Knows, Order.Honest, NextIs, Total, TotalShown, FpAll, IsChange, Phase1NextOutput, FirstLegacy;
    TakingOutputs(m, cfg, o);
    var k := m.idx1;
    PaidWithin(m, cfg, o);
    var script := cfg.env.compileOutput(o.outs[k]).value;
    KnowsShown(m, cfg, o, script, true);
    KnowsShown(m, cfg, o, script, false);
    var s := Shown(o.outs[k], TxOut(o.outs[k].amount, script), !IsChange(m, o.outs[k]));
    ServedNextOutput(AddShown(m, s), cfg, o);
  }

  lemma TakingOutputs(m: Model, cfg: Config, o: Order)
    requires Served(m, cfg, o) && Shape(m) && m.stage.Request3Output?
    requires cfg.forceBip143 || FirstLegacy(m.p1.seen, m.next)
    ensures o.Honest(cfg) && Knows(m, cfg, o) && m.log.charges == [] && m.alive && m.cfg == cfg
    ensures |m.p1.seen| == |m.p1.credits| == |o.ins| == |o.prevs| && |m.p1.shown| == m.idx1 < |o.outs|
    ensures o.Compilable(cfg, o.outs[m.idx1]) && m.wire.ins == [] && m.wire.outs == []
    ensures if cfg.forceBip143 then m.next == NO_LEGACY else NextIs(m.p1.seen, 0, m.next)
  {
    hide FpAll, Total, TotalClaimed, TotalShown, Bins, Signable, Order.Compilable, Order.Payable, NextIs;
  }

  // ------------------------------------------------------------------ Phase 2

  /** Any input of Phase 1 compiles: it has the common fingerprint and path, if there is one. */
  lemma InputCompiles(m: Model, k: nat)
    requires FpAll(m.cfg.env, m.p1.seen) && k < |m.p1.seen| && Signable(m.cfg, m.p1.seen[k])
    ensures CompileInput(m, m.p1.seen[k]).Some?
  {
    FpOfAll(m.cfg.env, m.p1.seen);
    PathOfAll(m.p1.seen);
    hide FpOf, FpAll, PathOf;
    var i := m.p1.seen[k];
    assert i.multisig.Some? ==> i.multisig.value == i.multisig.value.(signatures := i.multisig.value.signatures);
  }

  lemma {:induction false} SameChecksum(a: seq<TxInput>, b: seq<TxInput>)
    requires |a| == |b| && SameBut(a, b)
    ensures CheckPreimage(a) == CheckPreimage(b)
  {
    if |a| > 0 {
      var n := |a| - 1;
      forall j | 0 <= j < n ensures a[..n][j] == b[..n][j].(scriptSig := a[..n][j].scriptSig) {
        assert a[j] == b[j].(scriptSig := a[j].scriptSig);
      }
      SameChecksum(a[..n], b[..n]);
      assert a[n] == b[n].(scriptSig := a[n].scriptSig);
    }
  }

  lemma InPhase2(m: Model, cfg: Config, o: Order)
    requires Served(m, cfg, o) && Shape(m) && !Phase1(m)
    ensures Ready2(m, cfg, o)
    ensures TotalCharged(m.log.charges) == ChargedBy(m, cfg, o) && Passes(m, cfg, o)
    ensures !(m.stage.Request5Output? || m.stage.RequestSegwitWitness?) ==> |m.wire.ins| == m.idx1 < |o.ins|
    ensures m.stage.Request4Input? ==> m.idx2 < |o.ins| && (m.idx2 > 0 ==> |m.pass.ins| == m.idx2 && m.pass.outs == [])
    ensures m.stage.Request4Output? ==> |m.pass.ins| == |o.ins| && |m.pass.outs| == m.idx2 < |o.outs|
    ensures m.stage.Request5Output? ==> |m.wire.outs| == m.idx1 < |o.outs|
    ensures m.stage.RequestSegwitWitness? ==> m.idx1 < |o.ins|
  {
    hide FpAll, Total, TotalClaimed, TotalCharged, TotalShown, Bins, Signable, Order.Compilable, Order.Payable,
         Order.ClaimedTo,
         NextIs, SameBut;
    assert o.ins[..|o.ins|] == o.ins;
  }

  /** One more input of a pass, or the end of its inputs, where the checksum agrees. */
  lemma TakesPassInput(m: Model, ins: seq<TxInput>)
    requires m.alive && m.stage.Request4Input? && FpAll(m.cfg.env, m.p1.seen) && m.p1.seen == ins
    requires m.idx2 < |ins| == m.cfg.inputsCount && m.idx1 <= m.next
    requires m.idx2 > 0 ==> SameBut(m.pass.ins, ins) && |m.pass.ins| == m.idx2
    requires CompileInput(m, ins[m.idx2]).Some?
    ensures var r := Step4Input(m, ins[m.idx2]).m;
      && r.alive && r.cfg == m.cfg && r.p1 == m.p1 && r.wire == m.wire && r.log.charges == m.log.charges
        && r.idx1 == m.idx1
      && SameBut(r.pass.ins, ins) && (r.stage.Request4Input?
        || (r.stage.Request4Output? && r.idx2 == 0 && r.pass.outs == []))
  {
    hide CompileInput, FpAll;
    var i := ins[m.idx2];
    var i' := i.(scriptSig := if m.idx2 == m.idx1 then CompileInput(m, i).value else []);
    var w := Passed(m, i', if m.idx2 == m.idx1 then m.next else NextTarget(m, i));
    PassGrows(if m.idx2 == 0 then [] else m.pass.ins, ins, i');
    assert Step4Input(m, i) == Phase2NextPassInput(w);
    hide SameBut, Passed, NextTarget;
    if m.idx2 == |ins| - 1 {
      SameChecksum(w.pass.ins, ins);
    }
    hide CheckPreimage;
  }

  lemma PassGrows(pass: seq<TxInput>, ins: seq<TxInput>, i: TxInput)
    requires SameBut(pass, ins) && |pass| < |ins| && i == ins[|pass|].(scriptSig := i.scriptSig)
    ensures SameBut(pass + [i], ins)
  {
  }

  lemma Serves4Input(m: Model, cfg: Config, o: Order)
    requires Served(m, cfg, o) && Shape(m) && m.stage.Request4Input? && FpAll(cfg.env, m.p1.seen)
    requires m.idx1 <= m.next < m.cfg.inputsCount && m.cfg == cfg
    ensures Served(Step4Input(m, o.Answer(m).input).m, cfg, o)
  {
    hide Served, Shape, Ready2, Passes, Step4Input, FpAll, CompileInput, SameBut, Order.ClaimedTo, Order.BinsTo,
         TotalCharged,
         Order.Answer;
    InPhase2(m, cfg, o);
    Facts2(m, cfg, o);
    AnswersPass(m, o);
    PassIs(m, cfg, o);
    TakesPassInput(m, o.ins);
    var r := Step4Input(m, o.ins[m.idx2]).m;
    Ready2Stays(m, r, cfg, o);
    PassesOn(r, cfg, o);
    ServedPhase2(r, cfg, o);
  }

  lemma AnswersPass(m: Model, o: Order)
    requires m.stage.Request4Input? && m.idx2 < |o.ins|
    ensures o.Answer(m).input == o.ins[m.idx2]
  {
  }

  lemma PassIs(m: Model, cfg: Config, o: Order)
    requires Ready2(m, cfg, o) && Passes(m, cfg, o) && m.stage.Request4Input? && m.idx2 < |o.ins|
      && m.next < cfg.inputsCount
    ensures !cfg.forceBip143 && CompileInput(m, o.ins[m.idx2]).Some? && (m.idx2 > 0 ==> SameBut(m.pass.ins, o.ins))
  {
    hide Knows, CompileInput, FpAll, Bins, SameBut, Order.Payable, Order.Compilable, Order.SumTo, NextIs;
    assert Signable(cfg, o.ins[m.idx2]);
    InputCompiles(m, m.idx2);
  }

  lemma PassesOn(r: Model, cfg: Config, o: Order)
    requires |o.ins| == |o.prevs| && !cfg.forceBip143 && SameBut(r.pass.ins, o.ins)
    requires r.stage.Request4Input? || (r.stage.Request4Output? && r.idx2 == 0 && r.pass.outs == [])
    ensures Passes(r, cfg, o)
  {
    hide SameBut;
    NothingYet(cfg, o);
  }

  // -------------------------------------------------- Phase 2, serialized inputs

  /** After input idx1 is serialized: its charges are made, and the next legacy input lies behind it. */
  lemma ServesEmitInput(m: Model, cfg: Config, o: Order, i: TxInput, signature: Option<(nat, Signature)>)
    requires Ready2(m, cfg, o) && m.idx1 < |o.ins| && (m.stage.Request4Output? || m.stage.RequestSegwitInput?)
    requires TotalCharged(m.log.charges) == o.ClaimedTo(cfg, m.idx1 + 1, false)
    requires cfg.forceBip143 || NextIs(m.p1.seen, m.idx1 + 1, m.next)
    requires |m.wire.ins| == m.idx1 && SameWire(i.Wire(), o.ins[m.idx1])
    ensures Served(EmitInput(m, i, signature).m, cfg, o)
  {
    hide Ready2, Order.ClaimedTo, NextIs, TotalCharged, Served, InputChunk, WireHeader, AnySegwit;
    Facts2(m, cfg, o);
    var r := EmitInput(m, i, signature).m;
    WritesInput(m, r, cfg, o, i);
    hide Writes, Order.BinsTo, SameWire;
    Ready2Stays(m, r, cfg, o);
    ServedPhase2(r, cfg, o);
  }

  lemma WritesInput(m: Model, w: Model, cfg: Config, o: Order, i: TxInput)
    requires Writes(m, cfg, o) && |m.wire.ins| < |o.ins| && SameWire(i.Wire(), o.ins[|m.wire.ins|])
    requires w.wire.ins == m.wire.ins + [i.Wire()] && w.wire.outs == m.wire.outs
    ensures Writes(w, cfg, o)
  {
  }

  lemma Fills(cfg: Config, i: TxInput, sig: Signature)
    requires Signable(cfg, i)
    ensures FillSignature(cfg, i, sig).Some?
    ensures forall o: TxInput :: SameWire(i.Wire(), o) ==> SameWire(FillSignature(cfg, i, sig).value.Wire(), o)
  {
    if i.multisig.Some? {
      var ms := i.multisig.value;
      var k := cfg.env.publicKeyIndex(ms, i.addressN).value;
      var filled := if k < |ms.signatures| then ms.signatures[k := sig] else ms.signatures;
      assert cfg.env.multisigScript(ms.(signatures := filled)) != [];
      assert ms == ms.(signatures := ms.signatures);
      assert MultisigScriptSig(cfg.env, ms.(signatures := filled), cfg.SighashByte()) != [];
    }
  }

  /** With the outputs of Phase 1 and a key that signs, the pass ends with the serialized input. */
  lemma Signs(m: Model) returns (w: Model, i: TxInput, signature: Option<(nat, Signature)>)
    requires m.idx1 < |m.pass.ins| && Signable(m.cfg, m.pass.ins[m.idx1]) && m.pass.outs == Bins(m.p1.shown)
    ensures w == Recorded(m) && SignLegacy(m) == EmitInput(w, i, signature)
    ensures forall o: TxInput :: SameWire(m.pass.ins[m.idx1].Wire(), o) ==> SameWire(i.Wire(), o)
  {
    hide Signable, FillSignature, LegacyPreimage, PrintOuts, EmitInput, Bins, SameWire;
    var input := m.pass.ins[m.idx1];
    var digest := m.cfg.env.hash(LegacyPreimage(m));
    Signed(m.cfg, input, digest);
    var sig := m.cfg.env.sign(input.addressN, digest).value;
    Fills(m.cfg, input, sig);
    w, i, signature := Recorded(m), FillSignature(m.cfg, input, sig).value, Some((m.idx1, sig));
  }

  lemma Signed(cfg: Config, i: TxInput, digest: Hash32)
    requires Signable(cfg, i)
    ensures cfg.env.sign(i.addressN, digest).Some?
  {
  }

  /** Scripts do not matter for signing. */
  lemma SignablePass(cfg: Config, pass: seq<TxInput>, ins: seq<TxInput>, k: nat)
    requires SameBut(pass, ins) && k < |pass| && Signable(cfg, ins[k])
    ensures Signable(cfg, pass[k])
  {
    assert pass[k] == ins[k].(scriptSig := pass[k].scriptSig);
  }

  lemma SamePass(pass: seq<TxInput>, ins: seq<TxInput>)
    requires SameBut(pass, ins) && |pass| == |ins|
    ensures SameInputs(pass, ins)
  {
    forall k | 0 <= k < |pass| ensures SameInput(pass[k], ins[k]) {
      assert pass[k] == ins[k].(scriptSig := pass[k].scriptSig);
    }
  }

  /** A legacy input is not charged when its amount comes from its previous transaction; a segwit input not here. */
  lemma NotChargedHere(cfg: Config, o: Order, k: nat)
    requires k < |o.ins| == |o.prevs| && (o.ins[k].Legacy() || o.ins[k].Segwit())
    ensures !cfg.forceBip143 || o.ins[k].Segwit() ==> o.ClaimedTo(cfg, k + 1, false) == o.ClaimedTo(cfg, k, false)
    ensures !o.ins[k].Segwit() ==> o.ClaimedTo(cfg, k + 1, true) == o.ClaimedTo(cfg, k, true)
    ensures cfg.forceBip143 && o.ins[k].Legacy() ==>
      o.ClaimedTo(cfg, k + 1, false) == o.ClaimedTo(cfg, k, false) + o.ins[k].amount
    ensures o.ins[k].Segwit() ==> o.ClaimedTo(cfg, k + 1, true) == o.ClaimedTo(cfg, k, true) + o.ins[k].amount
  {
  }

  /** What the end of a pass relies on. */
  lemma PassEnds(m: Model, cfg: Config, o: Order)
    requires Ready2(m, cfg, o) && Passes(m, cfg, o) && m.stage.Request4Output? && m.idx2 < |o.outs|
    requires m.idx1 < |o.ins| == |m.pass.ins| && Rediscovered(m.pass.ins, m.idx1, m.next)
    ensures !cfg.forceBip143 && NextIs(m.p1.seen, m.idx1 + 1, m.next) && SameBut(m.pass.ins, o.ins)
    ensures Signable(cfg, m.pass.ins[m.idx1]) && m.pass.outs == o.BinsTo(cfg, m.idx2)
    ensures cfg.env.compileOutput(o.outs[m.idx2]).Some? && (o.ins[m.idx1].Legacy() || o.ins[m.idx1].Segwit())
    ensures o.BinsTo(cfg, m.idx2) + [o.Bin(cfg, m.idx2)] == o.BinsTo(cfg, m.idx2 + 1)
    ensures m.cfg == cfg && m.alive && |o.ins| == |o.prevs| && |o.outs| == cfg.outputsCount
    ensures Bins(m.p1.shown) == o.BinsTo(cfg, |o.outs|)
  {
    hide Knows, FpAll, Bins, Order.SumTo, Spends;
    assert o.Compilable(cfg, o.outs[m.idx2]) && o.Payable(cfg, m.idx1) && Signable(cfg, o.ins[m.idx1]);
    SignablePass(cfg, m.pass.ins, o.ins, m.idx1);
    SamePass(m.pass.ins, o.ins);
    RediscoveredNext(m.pass.ins, m.p1.seen, m.idx1, m.next);
  }

  /** The last output of a pass: the input is signed and serialized. */
  lemma SignsPass(w: Model, cfg: Config, o: Order)
    requires Ready2(w, cfg, o) && w.stage.Request4Output? && w.idx1 < |o.ins| == |w.pass.ins|
    requires w.pass.outs == Bins(w.p1.shown) && Signable(cfg, w.pass.ins[w.idx1]) && w.cfg == cfg
    requires TotalCharged(w.log.charges) == o.ClaimedTo(cfg, w.idx1 + 1, false) && NextIs(w.p1.seen, w.idx1 + 1, w.next)
    requires |w.wire.ins| == w.idx1 && SameWire(w.pass.ins[w.idx1].Wire(), o.ins[w.idx1])
    ensures Served(SignLegacy(w).m, cfg, o)
  {
    hide SameWire, Served, Signable, NextIs, Order.ClaimedTo, TotalCharged, Bins, Knows, Order.Honest, FpAll,
         SignLegacy, LegacyPreimage,
         PrintOuts, EmitInput;
    var v', i', signature' := Signs(w);
    Ready2Stays(w, v', cfg, o);
    hide Ready2;
    ServesEmitInput(v', cfg, o, i', signature');
  }

  /** One more output of a pass. */
  lemma TakesPassOutput(m: Model, cfg: Config, o: Order)
    requires Ready2(m, cfg, o) && m.stage.Request4Output? && m.idx1 < |o.ins| == |m.pass.ins| && m.idx2 < |o.outs|
      && m.cfg == cfg
    requires !cfg.forceBip143 && NextIs(m.p1.seen, m.idx1 + 1, m.next) && SameBut(m.pass.ins, o.ins)
    requires Signable(cfg, m.pass.ins[m.idx1]) && cfg.env.compileOutput(o.outs[m.idx2]).Some?
    requires m.pass.outs + [o.Bin(cfg, m.idx2)] == o.BinsTo(cfg, m.idx2 + 1) && |o.outs| == cfg.outputsCount
    requires TotalCharged(m.log.charges) == o.ClaimedTo(cfg, m.idx1, false) == o.ClaimedTo(cfg, m.idx1 + 1, false)
    requires Bins(m.p1.shown) == o.BinsTo(cfg, |o.outs|) && |m.wire.ins| == m.idx1
    ensures Served(Step4Output(m, o.outs[m.idx2]).m, cfg, o)
  {
    hide Ready2, Signable, NextIs, Order.ClaimedTo, TotalCharged, Bins, Order.BinsTo, SignLegacy, Served, Writes;
    assert m.pass.ins[m.idx1] == o.ins[m.idx1].(scriptSig := m.pass.ins[m.idx1].scriptSig);
    Facts2(m, cfg, o);
    var w := m.(pass := m.pass.(outs := m.pass.outs + [o.Bin(cfg, m.idx2)]));
    Ready2Stays(m, w, cfg, o);
    if m.idx2 < |o.outs| - 1 {
      Ready2Stays(m, w.(idx2 := m.idx2 + 1), cfg, o);
      ServedPhase2(w.(idx2 := m.idx2 + 1), cfg, o);
    } else {
      SignsPass(w, cfg, o);
    }
  }

  lemma Serves4Output(m: Model, cfg: Config, o: Order)
    requires Served(m, cfg, o) && Shape(m) && m.stage.Request4Output? && m.idx1 < |m.pass.ins|
    requires Rediscovered(m.pass.ins, m.idx1, m.next)
    ensures Served(Step4Output(m, o.Answer(m).output).m, cfg, o)
  {
    hide Served, Shape, Rediscovered;
    InPhase2(m, cfg, o);
    PassEnds(m, cfg, o);
    hide Passes, Ready2, Signable, SameBut, NextIs, TotalCharged, Bins, Order.BinsTo, Step4Output;
    NotChargedHere(cfg, o, m.idx1);
    TakesPassOutput(m, cfg, o);
  }

  // ---------------------------------------------------------- BIP-143 signatures

  lemma SignableOf(m: Model, cfg: Config, o: Order, k: nat)
    requires Ready2(m, cfg, o) && k < |o.ins|
    ensures Signable(cfg, o.ins[k])
  {
    hide Knows, Signable, FpAll, Bins, Writes, Order.SumTo, Order.PaidTo;
  }

  lemma ScriptDoesNotMatter(cfg: Config, i: TxInput, script: Script)
    requires Signable(cfg, i)
    ensures Signable(cfg, i.(scriptSig := script)) && SameWire(i.(scriptSig := script).Wire(), i)
  {
  }

  lemma Signs143(m: Model, cfg: Config, o: Order, k: nat)
    requires Ready2(m, cfg, o) && k < |o.ins| && o.ins[k].amount <= m.Authorized()
    ensures Sign143(m, o.ins[k]).Signed143? && Sign143(m, o.ins[k]).charge.amount == o.ins[k].amount
    ensures SameWire(Sign143(m, o.ins[k]).input.Wire(), o.ins[k])
  {
    hide Ready2, Signable, FpAll, Bins, CompileInput, Bip143Preimage, FillSignature, Model.Authorized, SameWire;
    Facts2(m, cfg, o);
    SignableOf(m, cfg, o, k);
    InputCompiles(m, k);
    var script := CompileInput(m, o.ins[k]).value;
    var i' := o.ins[k].(scriptSig := script);
    var digest := cfg.env.hash(Bip143Preimage(m, i'));
    ScriptDoesNotMatter(cfg, o.ins[k], script);
    Signed(cfg, o.ins[k], digest);
    Fills(cfg, i', cfg.env.sign(o.ins[k].addressN, digest).value);
  }

  /** What is still authorized. */
  lemma StillAuthorized(m: Model, cfg: Config, o: Order)
    requires Ready2(m, cfg, o)
    ensures |o.ins| == |o.prevs| && m.Authorized()
         == o.ClaimedTo(cfg, |o.ins|, false) + o.ClaimedTo(cfg, |o.ins|, true) - TotalCharged(m.log.charges)
  {
    hide Order.Honest, FpAll, Bins, TotalClaimed, TotalCharged, Order.ClaimedTo;
  }

  lemma ChargedMore(m: Model, c: Charge)
    ensures TotalCharged(Charged(m, [c]).log.charges) == TotalCharged(m.log.charges) + c.amount
  {
    SnocCharge(m.log.charges, c);
  }

  /** In the BIP-143 pass a legacy input stands only under forced BIP-143, and the next legacy input lies behind. */
  lemma SegwitTurn(m: Model, cfg: Config, o: Order)
    requires Ready2(m, cfg, o) && Passes(m, cfg, o) && m.stage.RequestSegwitInput? && m.idx1 < |o.ins|
      && m.idx1 != m.next
    ensures o.ins[m.idx1].Legacy() ==> cfg.forceBip143
    ensures cfg.forceBip143 || NextIs(m.p1.seen, m.idx1 + 1, m.next)
    ensures (o.ins[m.idx1].Legacy() || o.ins[m.idx1].Segwit()) && Signable(cfg, o.ins[m.idx1]) && |o.ins| == |o.prevs|
  {
    hide Knows, FpAll, Bins, Order.SumTo, Spends;
    assert o.Payable(cfg, m.idx1);
  }

  /** Under forced BIP-143 a legacy input is charged and signed here. */
  lemma SignsForced(m: Model, cfg: Config, o: Order)
    requires Ready2(m, cfg, o) && m.stage.RequestSegwitInput? && m.idx1 < |o.ins| && o.ins[m.idx1].Legacy()
      && cfg.forceBip143
    requires FpAll(m.cfg.env, m.p1.seen) && m.cfg == cfg && o.ins[m.idx1].amount <= m.Authorized()
    requires TotalCharged(m.log.charges) + o.ins[m.idx1].amount == o.ClaimedTo(cfg, m.idx1 + 1, false)
      && |m.wire.ins| == m.idx1
    ensures Served(StepSegwitInput(m, o.ins[m.idx1]).m, cfg, o)
  {
    hide Ready2, Writes, Order.ClaimedTo, TotalCharged, TotalClaimed, EmitInput, FpAll, Served, Sign143, SameWire,
         Model.Authorized;
    Facts2(m, cfg, o);
    Signs143(m, cfg, o, m.idx1);
    var s := Sign143(m, o.ins[m.idx1]);
    var w := Charged(m, [s.charge]);
    ChargedMore(m, s.charge);
    Ready2Stays(m, w, cfg, o);
    ServesEmitInput(w, cfg, o, s.input, Some((m.idx1, s.sig)));
  }

  /** A segwit input is serialized here and signed with its witness. */
  lemma PassesSegwit(m: Model, cfg: Config, o: Order)
    requires Ready2(m, cfg, o) && m.stage.RequestSegwitInput? && m.idx1 < |o.ins| && !o.ins[m.idx1].Legacy()
    requires FpAll(m.cfg.env, m.p1.seen) && (cfg.forceBip143 || NextIs(m.p1.seen, m.idx1 + 1, m.next))
    requires Signable(cfg, o.ins[m.idx1]) && TotalCharged(m.log.charges) == o.ClaimedTo(cfg, m.idx1 + 1, false)
    requires |m.wire.ins| == m.idx1
    ensures Served(StepSegwitInput(m, o.ins[m.idx1]).m, cfg, o)
  {
    P2shCompiles(m, cfg, o);
    hide Order.ClaimedTo, TotalCharged, Bins, Knows, Order.Honest, EmitInput, FpAll, Served, Ready2, Signable,
         P2shWitnessScript,
         NextIs;
    var i := o.ins[m.idx1];
    ServesEmitInput(m, cfg, o, i.(scriptSig :=
      if i.scriptType == SPENDP2SHWITNESS then P2shWitnessScript(m, i).value else []), None);
  }

  lemma ServesSegwitInput(m: Model, cfg: Config, o: Order)
    requires Served(m, cfg, o) && Shape(m) && m.stage.RequestSegwitInput? && FpAll(cfg.env, m.p1.seen) && m.cfg == cfg
    requires m.idx1 != m.next
    ensures Served(StepSegwitInput(m, o.Answer(m).input).m, cfg, o)
  {
    hide Served, Shape, FpAll;
    InPhase2(m, cfg, o);
    SegwitTurn(m, cfg, o);
    StillAuthorized(m, cfg, o);
    hide Passes, Ready2, Signable, NextIs, TotalCharged, TotalClaimed, StepSegwitInput, Model.Authorized;
    NotChargedHere(cfg, o, m.idx1);
    SumsGrow(o, cfg, m.idx1 + 1, |o.ins|);
    hide Order.ClaimedTo;
    if o.ins[m.idx1].Legacy() {
      SignsForced(m, cfg, o);
    } else {
      PassesSegwit(m, cfg, o);
    }
  }

  lemma P2shCompiles(m: Model, cfg: Config, o: Order)
    requires Ready2(m, cfg, o) && m.idx1 < |o.ins| && Signable(cfg, o.ins[m.idx1])
    ensures FpAll(m.cfg.env, m.p1.seen) && P2shWitnessScript(m, o.ins[m.idx1]).Some?
  {
    InputCompiles(m, m.idx1);
    hide Knows, Order.Honest, FpAll, Bins, FpOf, PathOf;
  }

  // ------------------------------------------------------- outputs and witnesses

  /** The session goes on as it should, or has reached its end. */
  ghost predicate ServedOrDone(c: Outcome, cfg: Config, o: Order)
  {
    Served(c.m, cfg, o) || (!c.m.alive && Finishes(c) && Writes(c.m, cfg, o))
  }

  lemma EmitsOutput(m: Model, cfg: Config, o: Order, bin: TxOut)
    requires Ready2(m, cfg, o) && m.stage.Request5Output? && m.idx1 < |o.outs|
    requires TotalCharged(m.log.charges) == o.ClaimedTo(cfg, |o.ins|, false)
    requires |m.wire.outs| == m.idx1 && bin == o.Bin(cfg, m.idx1)
    ensures ServedOrDone(EmitOutput(m, bin), cfg, o)
  {
    hide Ready2, Order.ClaimedTo, TotalCharged, Served, OutputChunk, WireFooter, WireHead, Finishes;
    Facts2(m, cfg, o);
    var c := EmitOutput(m, bin);
    WritesOutput(m, c.m, cfg, o);
    hide Writes, Order.BinsTo;
    NothingYet(cfg, o);
    if c.m.alive {
      Ready2Stays(m, c.m, cfg, o);
      ServedPhase2(c.m, cfg, o);
    } else {
      Done(c);
    }
  }

  lemma WritesOutput(m: Model, w: Model, cfg: Config, o: Order)
    requires Writes(m, cfg, o) && |m.wire.outs| < |o.outs|
    requires w.wire.ins == m.wire.ins && w.wire.outs == m.wire.outs + [o.Bin(cfg, |m.wire.outs|)]
    ensures Writes(w, cfg, o)
  {
    hide SameWire;
    assert o.BinsTo(cfg, |m.wire.outs| + 1) == o.BinsTo(cfg, |m.wire.outs|) + [o.Bin(cfg, |m.wire.outs|)];
  }

  lemma Done(c: Outcome)
    requires |c.replies| == 1 && c.replies[0].TxRequest? && c.replies[0].request == ReqFinished
    ensures Finishes(c)
  {
  }

  lemma Serves5Output(m: Model, cfg: Config, o: Order)
    requires Served(m, cfg, o) && Shape(m) && m.stage.Request5Output?
    ensures ServedOrDone(Step5Output(m, o.Answer(m).output), cfg, o)
  {
    InPhase2(m, cfg, o);
    assert o.Compilable(cfg, o.outs[m.idx1]);
    hide Served, Shape, Ready2, ServedOrDone, EmitOutput, TotalCharged, Order.ClaimedTo;
    EmitsOutput(m, cfg, o, o.Bin(cfg, m.idx1));
  }

  lemma EmitsWitness(m: Model, cfg: Config, o: Order, field: Bytes, signature: Option<(nat, Signature)>)
    requires Ready2(m, cfg, o) && m.stage.RequestSegwitWitness? && m.idx1 < |o.ins| == |o.prevs|
    requires TotalCharged(m.log.charges) == o.ClaimedTo(cfg, |o.ins|, false) + o.ClaimedTo(cfg, m.idx1 + 1, true)
    ensures ServedOrDone(EmitWitness(m, field, signature), cfg, o)
  {
    hide Ready2, Order.ClaimedTo, TotalCharged, Served, WireFooter, WireHead, Finishes;
    Facts2(m, cfg, o);
    var c := EmitWitness(m, field, signature);
    assert Writes(c.m, cfg, o);
    hide Writes, Order.BinsTo;
    if c.m.alive {
      Ready2Stays(m, c.m, cfg, o);
      ServedPhase2(c.m, cfg, o);
    } else {
      Done(c);
    }
  }

  lemma SignsWitness(m: Model, cfg: Config, o: Order)
    requires Ready2(m, cfg, o) && m.stage.RequestSegwitWitness? && m.idx1 < |o.ins| == |o.prevs|
      && o.ins[m.idx1].Segwit()
    requires FpAll(m.cfg.env, m.p1.seen) && m.cfg == cfg && o.ins[m.idx1].amount <= m.Authorized()
    requires TotalCharged(m.log.charges) + o.ins[m.idx1].amount
          == o.ClaimedTo(cfg, |o.ins|, false) + o.ClaimedTo(cfg, m.idx1 + 1, true)
    ensures ServedOrDone(StepSegwitWitness(m, o.ins[m.idx1]), cfg, o)
  {
    hide Ready2, Writes, Order.ClaimedTo, TotalCharged, TotalClaimed, EmitWitness, FpAll, ServedOrDone, Sign143,
         Witness, SameWire,
         Model.Authorized;
    Facts2(m, cfg, o);
    Signs143(m, cfg, o, m.idx1);
    var s := Sign143(m, o.ins[m.idx1]);
    var w := Charged(m, [s.charge]);
    ChargedMore(m, s.charge);
    Ready2Stays(m, w, cfg, o);
    EmitsWitness(w, cfg, o, Witness(cfg, s.input, s.sig), Some((m.idx1, s.sig)));
  }

  lemma LegacyOrSegwit(m: Model, cfg: Config, o: Order, k: nat)
    requires Ready2(m, cfg, o) && k < |o.ins|
    ensures o.ins[k].Legacy() || o.ins[k].Segwit()
  {
    hide Knows, FpAll, Bins, Writes, Signable, Spends, Order.SumTo, Order.PaidTo;
    assert o.Payable(cfg, k);
  }

  lemma ServesSegwitWitness(m: Model, cfg: Config, o: Order)
    requires Served(m, cfg, o) && Shape(m) && m.stage.RequestSegwitWitness? && FpAll(cfg.env, m.p1.seen) && m.cfg == cfg
    ensures ServedOrDone(StepSegwitWitness(m, o.Answer(m).input), cfg, o)
  {
    hide Served, Shape, FpAll, Ready2, ServedOrDone, TotalCharged, TotalClaimed, Model.Authorized, Passes,
         Order.ClaimedTo,
         Order.Honest, EmitWitness, Sign143;
    InPhase2(m, cfg, o);
    StillAuthorized(m, cfg, o);
    LegacyOrSegwit(m, cfg, o, m.idx1);
    NotChargedHere(cfg, o, m.idx1);
    SumsGrow(o, cfg, m.idx1 + 1, |o.ins|);
    if o.ins[m.idx1].Segwit() {
      SignsWitness(m, cfg, o);
    } else {
      EmitsWitness(m, cfg, o, [0], None);
    }
  }

  // -------------------------------------------------------------- whole sessions

  /** What the shape and the progress of a live session give to the stage lemmas. */
  lemma StageFacts(m: Model)
    requires Shape(m) && m.alive && Progress(m)
    ensures FpAll(m.cfg.env, m.p1.seen)
    ensures InPrev(m) ==> |m.p1.seen| == m.idx1 + 1
    ensures m.stage.Request2PrevInput? ==> m.idx2 < m.prev.head.inputsLen
    ensures m.stage.Request2PrevOutput? ==>
      |m.prev.outs| == m.idx2 < m.prev.head.outputsLen && m.p1.seen[m.idx1].prevIndex < m.prev.head.outputsLen
    ensures m.stage.Request2PrevExtraData? ==>
      m.p1.seen[m.idx1].prevIndex < |m.prev.outs| && m.prev.Received() < m.prev.extraLen
    ensures m.stage.Request3Output? ==> m.cfg.forceBip143 || FirstLegacy(m.p1.seen, m.next)
    ensures m.stage.Request4Input? ==> m.idx1 <= m.next < m.cfg.inputsCount
    ensures m.stage.Request4Output? ==> m.idx1 < |m.pass.ins| && Rediscovered(m.pass.ins, m.idx1, m.next)
    ensures m.stage.RequestSegwitInput? ==> m.idx1 != m.next
  {
    hide FpAll, Total, TotalShown, TotalClaimed, TotalCharged, FirstLegacy, Rediscovered, OneScript, Checked, Tickets,
         Ordered;
  }

  /** An honest answer keeps the session going, up to its end. */
  lemma AnswerServes(m: Model, cfg: Config, o: Order)
    requires Served(m, cfg, o) && Shape(m) && Progress(m)
    ensures ServedOrDone(Step(m, o.Answer(m), YES), cfg, o)
    ensures m.stage.Request5Output? || m.stage.RequestSegwitWitness? || Served(Step(m, o.Answer(m), YES).m, cfg, o)
  {
    assert m.alive && m.cfg == cfg;
    StageFacts(m);
    hide Served, Shape, Progress, FpAll, Finishes, Order.Answer, FirstLegacy, Rediscovered;
    match m.stage {
      case Request1Input => Serves1Input(m, cfg, o);
      case Request2PrevMeta => ServesPrevMeta(m, cfg, o);
      case Request2PrevInput => ServesPrevInput(m, cfg, o);
      case Request2PrevOutput => ServesPrevOutput(m, cfg, o);
      case Request2PrevExtraData => ServesPrevExtraData(m, cfg, o);
      case Request3Output => Serves3Output(m, cfg, o);
      case Request4Input => Serves4Input(m, cfg, o);
      case Request4Output => Serves4Output(m, cfg, o);
      case RequestSegwitInput => ServesSegwitInput(m, cfg, o);
      case Request5Output => Serves5Output(m, cfg, o);
      case RequestSegwitWitness => ServesSegwitWitness(m, cfg, o);
    }
  }

  lemma InitServed(cfg: Config, o: Order)
    requires o.Honest(cfg)
    ensures Served(Init(cfg), cfg, o)
  {
    hide Signable, Order.Payable, Order.Compilable;
    assert o.ins[..0] == [];
    assert o.BinsTo(cfg, 0) == [];
  }

  /** The counter of extra data never passes what an honest host announces. */
  lemma NeverWraps(m: Model, cfg: Config, o: Order)
    requires Served(m, cfg, o) && Shape(m)
    ensures NoWrap(m, o.Answer(m))
  {
    hide Shape, Served, Order.Answer, PrevTx.Stream, Reverse, Total, Order.SumTo;
    if m.stage.Request2PrevExtraData? {
      Spending1(m, cfg, o);
      AnswersExtraData(m, cfg, o);
    }
  }

  lemma InvariantGives(m: Model)
    requires Invariant(m)
    ensures Shape(m) && (m.alive ==> Progress(m))
  {
  }

  lemma ServedAlive(m: Model, cfg: Config, o: Order)
    requires Served(m, cfg, o)
    ensures m.alive && m.cfg == cfg
  {
  }
}

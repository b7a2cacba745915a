/**
 A host that knows nothing but the last reply: it looks up what is asked for, by index and by
 the hash of the transaction, and puts the pieces together that it is sent. Its order is
 carried out.
 */
module SigningHost {
  import opened Bytes
  import opened Transaction
  import opened SigningModel
  import opened SigningAgreement
  import opened SigningTheorems
  import opened SigningTermination
  import opened SigningRequests
  import opened SigningHonest

  /** The inputs and outputs of the order, and previous transactions by their hash. */
  datatype Host = Host(ins: seq<TxInput>, txs: map<Hash32, PrevTx>, outs: seq<TxOutput>, blank: Ack)
  {
    /** The answer depends on the request alone. */
    function Answers(r: Request): Ack
    {
      match r
      case ReqInput(k) => if k < |ins| then blank.(input := ins[k]) else blank
      case ReqOutput(k) => if k < |outs| then blank.(output := outs[k]) else blank
      case ReqPrevMeta(h) => if h in txs then MetaOf(txs[h]) else blank
      case ReqPrevInput(k, h) =>
        if h in txs && k < |txs[h].ins| then blank.(input := Plain(txs[h].ins[k])) else blank
      case ReqPrevOutput(k, h) =>
        if h in txs && k < |txs[h].outs| then blank.(binOutput := txs[h].outs[k]) else blank
      case ReqPrevExtraData(from, len, h) =>
        if h in txs then blank.(extraData := Part(txs[h].extra, from, len)) else blank
      case ReqFinished => blank
    }

    function MetaOf(tx: PrevTx): Ack
    {
      blank.(inputsCnt := tx.head.inputsLen, outputsCnt := tx.head.outputsLen, version := tx.head.version,
             lockTime := tx.head.lockTime,
             preblock := if |tx.head.preblock| == 32 then tx.head.preblock else blank.preblock,
             extraDataLen := tx.extraLen)
    }

    function Hears(r: Reply): Ack
    {
      if r.TxRequest? then Answers(r.request) else blank
    }

    /** The order that this host has in mind. */
    function Order(): Order
    {
      SigningHonest.Order(ins, seq(|ins|, k requires 0 <= k < |ins| => Looked(ins[k].prevHash)), outs, blank)
    }

    function Looked(h: Hash32): PrevTx
    {
      if h in txs then txs[h] else NO_PREV
    }
  }

  /** At most `len` bytes from `from` on. */
  function Part(extra: Bytes, from: nat, len: nat): (c: Chunk)
  {
    var n := if len <= 1024 then len else 1024;
    if from > |extra| then [] else if from + n <= |extra| then extra[from..from + n] else extra[from..]
  }

  lemma PartIsPiece(extra: Bytes, from: nat)
    requires from <= |extra|
    ensures Part(extra, from, Min(1024, |extra| - from)) == Piece(extra, from)
  {
  }

  /** The answer to the request that a served session has made is the one that serves it. */
  lemma AnswersWanted(m: Model, cfg: Config, host: Host)
    requires Served(m, cfg, host.Order()) && Shape(m)
    ensures InPrev(m) ==> m.idx1 < |m.p1.seen|
    ensures host.Answers(Wanted(m)) == host.Order().Answer(m)
  {
    hide Served, Shape;
    if InPrev(m) {
      Spending1(m, cfg, host.Order());
      AnswersPrev(m, cfg, host);
    } else {
      AnswersOwn(m, host);
    }
  }

  lemma AnswersOwn(m: Model, host: Host)
    requires !InPrev(m)
    ensures host.Answers(Wanted(m)) == host.Order().Answer(m)
  {
  }

  lemma AnswersPrev(m: Model, cfg: Config, host: Host)
    requires InPrev(m) && m.idx1 < |m.p1.seen| && m.idx1 < |host.ins| && m.p1.seen[m.idx1] == host.ins[m.idx1]
    requires Spends(cfg, host.ins[m.idx1], host.Order().prevs[m.idx1]) && FollowsTx(m, host.Order().prevs[m.idx1])
    ensures host.Answers(Wanted(m)) == host.Order().Answer(m)
  {
    KnownTransaction(cfg, host, m.idx1);
    hide Spends, Part, Piece, FollowsTx, PrevTx.Received;
    if m.stage.Request2PrevExtraData? {
      StreamedExtra(m, host.Order().prevs[m.idx1]);
      PartIsPiece(host.Order().prevs[m.idx1].extra, m.prev.Received());
    }
  }

  lemma KnownTransaction(cfg: Config, host: Host, k: nat)
    requires k < |host.ins| && Spends(cfg, host.ins[k], host.Order().prevs[k])
    ensures host.ins[k].prevHash in host.txs && host.Order().prevs[k] == host.txs[host.ins[k].prevHash]
    ensures |host.txs[host.ins[k].prevHash].extra| == host.txs[host.ins[k].prevHash].extraLen
  {
    hide PrevTx.Stream, Reverse;
  }

  lemma StreamedExtra(m: Model, p: PrevTx)
    requires FollowsTx(m, p) && m.stage.Request2PrevExtraData? && |p.extra| == p.extraLen
    ensures m.prev.Received() <= m.prev.extraLen == |p.extra|
  {
  }

  // ------------------------------------------------------------ the conversation

  datatype Talk = Talk(said: seq<(Ack, Choices)>, heard: seq<Reply>)

  /** The first n answers of a host that hears only the last reply, and a user who agrees to everything. */
  ghost function TalkTo(cfg: Config, host: Host, n: nat): (t: Talk)
    requires cfg.Valid()
    ensures |t.said| == n && |t.heard| > 0
  {
    if n == 0 then Talk([], [TxRequest(ReqInput(0), NOTHING)])
    else
      var t := TalkTo(cfg, host, n - 1);
      var a := host.Hears(t.heard[|t.heard| - 1]);
      var c := Step(Run(cfg, t.said), a, YES);
      Talk(t.said + [(a, YES)], t.heard + c.replies)
  }

  /** Every reply so far was a request for more. */
  predicate OnlyRequests(replies: seq<Reply>)
  {
    forall i :: 0 <= i < |replies| ==> replies[i].TxRequest? && replies[i].request != ReqFinished
  }

  /** The session waits for what the last reply asks for, and has sent what it has serialized. */
  ghost predicate InStep(cfg: Config, host: Host, n: nat)
    requires cfg.Valid()
  {
    var t := TalkTo(cfg, host, n);
    var m := Run(cfg, t.said);
    && Served(m, cfg, host.Order())
    && (InPrev(m) ==> m.idx1 < |m.p1.seen|)
    && |t.heard| == n + 1 && OnlyRequests(t.heard) && t.heard[|t.heard| - 1].request == Wanted(m)
    && Pieces(t.heard) == m.wire.emitted
  }

  lemma TalkStarts(cfg: Config, host: Host)
    requires host.Order().Honest(cfg)
    ensures cfg.Valid() && InStep(cfg, host, 0)
  {
    hide Run, Served, Host.Order, Order.Honest, Pieces, InitialWeight;
    HonestIsValid(cfg, host);
    RunStarts(cfg);
    InitServed(cfg, host.Order());
    PiecesOne(TxRequest(ReqInput(0), NOTHING));
  }

  lemma HonestIsValid(cfg: Config, host: Host)
    requires host.Order().Honest(cfg)
    ensures cfg.Valid()
  {
  }

  lemma TalkGrows(cfg: Config, host: Host, n: nat)
    requires cfg.Valid()
    ensures var t := TalkTo(cfg, host, n); var a := host.Hears(t.heard[|t.heard| - 1]);
      var c := Step(Run(cfg, t.said), a, YES);
      && TalkTo(cfg, host, n + 1) == Talk(t.said + [(a, YES)], t.heard + c.replies)
      && Run(cfg, TalkTo(cfg, host, n + 1).said) == c.m
  {
    hide Run, Step, Host.Hears;
    var t := TalkTo(cfg, host, n);
    RunGrows(cfg, t.said, host.Hears(t.heard[|t.heard| - 1]), YES);
  }

  /** One more answer leaves the conversation in step, or ends it. */
  lemma OneMoreAnswer(cfg: Config, host: Host, n: nat)
    requires cfg.Valid() && InStep(cfg, host, n)
    ensures var t := TalkTo(cfg, host, n); var m := Run(cfg, t.said); var o := host.Order();
      host.Hears(t.heard[|t.heard| - 1]) == o.Answer(m)
      && Shape(m) && Progress(m) && m.alive && m.cfg == cfg
      && ServedOrDone(Step(m, o.Answer(m), YES), cfg, o)
      && Pieces(TalkTo(cfg, host, n + 1).heard) == Run(cfg, TalkTo(cfg, host, n + 1).said).wire.emitted
  {
    hide Run, Step, Served, Shape, Progress, Pieces, Host.Answers, Order.Answer, OnlyRequests, Invariant, Wanted,
         Host.Order;
    var t := TalkTo(cfg, host, n);
    var m, o := Run(cfg, t.said), host.Order();
    RunInvariant(cfg, t.said);
    InvariantGives(m);
    ServedAlive(m, cfg, o);
    AnswersWanted(m, cfg, host);
    TalkGrows(cfg, host, n);
    AnswerServes(m, cfg, o);
    StepSends(m, o.Answer(m), YES);
    PiecesAppend(t.heard, Step(m, o.Answer(m), YES).replies);
    assert t.heard[|t.heard| - 1].TxRequest? by { LastIsRequest(t.heard); }
  }

  lemma LastIsRequest(replies: seq<Reply>)
    requires OnlyRequests(replies) && |replies| > 0
    ensures replies[|replies| - 1].TxRequest?
  {
  }

  /** The answer to reply n ends the session. */
  ghost predicate EndsAt(cfg: Config, host: Host, n: nat)
    requires cfg.Valid()
  {
    var m := Run(cfg, TalkTo(cfg, host, n).said);
    var c := Step(m, host.Order().Answer(m), YES);
    && (m.stage.Request5Output? || m.stage.RequestSegwitWitness?)
    && !c.m.alive && Finishes(c) && Writes(c.m, cfg, host.Order())
  }

  /** A session that goes on is in step with the host again. */
  lemma StaysInStep(cfg: Config, host: Host, n: nat)
    requires cfg.Valid() && InStep(cfg, host, n)
    requires var m := Run(cfg, TalkTo(cfg, host, n).said);
      Served(Step(m, host.Order().Answer(m), YES).m, cfg, host.Order())
    ensures InStep(cfg, host, n + 1)
    ensures var m := Run(cfg, TalkTo(cfg, host, n).said);
      Run(cfg, TalkTo(cfg, host, n + 1).said) == Step(m, host.Order().Answer(m), YES).m
  {
    hide Run, Step, Served, Shape, Progress, Pieces, Host.Answers, Order.Answer, Invariant, Wanted, Host.Order, InPrev,
         ServedOrDone;
    var t := TalkTo(cfg, host, n);
    var m, o := Run(cfg, t.said), host.Order();
    OneMoreAnswer(cfg, host, n);
    TalkGrows(cfg, host, n);
    var c := Step(m, o.Answer(m), YES);
    StepAsks(m, o.Answer(m), YES);
    ServedAlive(c.m, cfg, o);
    WantsMore(c.m);
  }

  lemma WantsMore(m: Model)
    requires InPrev(m) ==> m.idx1 < |m.p1.seen|
    ensures Wanted(m) != ReqFinished
  {
  }

  lemma {:induction false} TalkEnds(cfg: Config, host: Host, at: nat, r: Rank) returns (n: nat)
    requires cfg.Valid() && InStep(cfg, host, at) && r == RankOf(Run(cfg, TalkTo(cfg, host, at).said))
    ensures InStep(cfg, host, n) && EndsAt(cfg, host, n)
    decreases r.phase, r.outer, r.stage, r.inner
  {
    hide Run, Step, Served, Shape, Progress, Pieces, Order.Answer, Invariant, Wanted, Host.Order, RankOf, NoWrap,
         Finishes, Writes, OnlyRequests, TalkTo;
    var m, o := Run(cfg, TalkTo(cfg, host, at).said), host.Order();
    OneMoreAnswer(cfg, host, at);
    AnswerServes(m, cfg, o);
    var c := Step(m, o.Answer(m), YES);
    if Served(c.m, cfg, o) {
      StaysInStep(cfg, host, at);
      NeverWraps(m, cfg, o);
      StepDescends(m, o.Answer(m), YES);
      n := TalkEnds(cfg, host, at + 1, RankOf(c.m));
    } else {
      n := at;
    }
  }

  lemma OneReplyAtTheEnd(m: Model, a: Ack, ui: Choices)
    requires Shape(m) && m.alive && (m.stage.Request5Output? || m.stage.RequestSegwitWitness?)
    ensures |Step(m, a, ui).replies| == 1
    ensures Finishes(Step(m, a, ui)) ==>
      Step(m, a, ui).replies[0].TxRequest? && Step(m, a, ui).replies[0].request == ReqFinished
  {
    ShapeKnowsInput(m);
    hide Shape, FpAll, Sign143, OutputChunk, WireHeader, WireFooter, WireHead, Witness, AnySegwit;
  }

  /** The outputs of the transaction are those of the order, compiled. */
  lemma BinsAreOutputs(cfg: Config, host: Host)
    requires host.Order().Honest(cfg)
    ensures var bins := host.Order().BinsTo(cfg, |host.outs|);
      |bins| == |host.outs| && forall k :: 0 <= k < |host.outs| ==>
        bins[k].amount == host.outs[k].amount && cfg.env.compileOutput(host.outs[k]) == Some(bins[k].script)
  {
    hide Signable, Order.Payable;
    forall k | 0 <= k < |host.outs| ensures cfg.env.compileOutput(host.outs[k]).Some? {
      assert host.Order().Compilable(cfg, host.outs[k]);
    }
  }

  lemma SeenIsOrder(m: Model, cfg: Config, host: Host)
    requires Served(m, cfg, host.Order()) && Shape(m) && !Phase1(m)
    ensures m.p1.seen == host.ins && host.Order().Honest(cfg)
    ensures cfg.inputsCount == |host.ins| && cfg.outputsCount == |host.outs|
    ensures host.Order().ins == host.ins && host.Order().outs == host.outs
  {
    hide FpAll, Total, TotalClaimed, TotalCharged, TotalShown, Bins, Signable, Order.Payable, Order.Compilable,
         Order.ClaimedTo, Order.SumTo, Order.PaidTo, Writes;
  }

  lemma FooterIsLast(w: Bytes, h: Header)
    ensures |w + WireFooter(h)| >= 8 && (w + WireFooter(h))[|w + WireFooter(h)| - 8..] == Le32(h.lockTime) + Le32(1)
  {
  }

  /** What an ended conversation has brought about. */
  lemma EndedTalk(cfg: Config, host: Host, n: nat) returns (tx: Parsed)
    requires cfg.Valid() && InStep(cfg, host, n) && EndsAt(cfg, host, n)
    ensures var heard := TalkTo(cfg, host, n + 1).heard;
      && |heard| == n + 2 && OnlyRequests(heard[..n + 1])
      && heard[n + 1].TxRequest? && heard[n + 1].request == ReqFinished
      && Parse(AnySegwit(host.ins), Pieces(heard)) == Some(tx)
    ensures |tx.ins| == |host.ins| && forall k :: 0 <= k < |host.ins| ==> SameWire(tx.ins[k], host.ins[k])
    ensures |tx.outs| == |host.outs| && forall k :: 0 <= k < |host.outs| ==>
      tx.outs[k].amount == host.outs[k].amount && cfg.env.compileOutput(host.outs[k]) == Some(tx.outs[k].script)
    ensures tx.version == cfg.version
    ensures |tx.rest| >= 8 && tx.rest[|tx.rest| - 8..] == Le32(cfg.lockTime) + Le32(1)
  {
    hide Run, Step, Served, Shape, Progress, Pieces, Order.Answer, Invariant, Wanted, Host.Order, Finishes,
         TalkTo, Parse, AnySegwit, SameWire, Phase1, Order.Honest, Order.BinsTo, WireFooter, Concat;
    var t := TalkTo(cfg, host, n);
    var m, o := Run(cfg, t.said), host.Order();
    OneMoreAnswer(cfg, host, n);
    TalkGrows(cfg, host, n);
    RunInvariant(cfg, t.said);
    var c := Step(m, o.Answer(m), YES);
    OneReplyAtTheEnd(m, o.Answer(m), YES);
    FinishedTransaction(m, o.Answer(m), YES);
    PastPhase1(m);
    SeenIsOrder(m, cfg, host);
    BinsAreOutputs(cfg, host);
    HeadIs(m);
    tx := Parse(WireHead(m).segwit, c.m.wire.emitted).value;
    FooterIsLast(Concat(c.m.wire.witnesses), WireHead(m));
    WrittenOrder(c.m, cfg, o);
    assert (t.heard + c.replies)[..n + 1] == t.heard;
  }

  lemma PastPhase1(m: Model)
    requires m.stage.Request5Output? || m.stage.RequestSegwitWitness?
    ensures !Phase1(m)
  {
  }

  lemma HeadIs(m: Model)
    ensures WireHead(m).version == m.cfg.version && WireHead(m).lockTime == m.cfg.lockTime
    ensures WireHead(m).segwit == AnySegwit(m.p1.seen)
  {
  }

  lemma WrittenOrder(m: Model, cfg: Config, o: Order)
    requires Writes(m, cfg, o)
    ensures |m.wire.ins| <= |o.ins| && (forall k :: 0 <= k < |m.wire.ins| ==> SameWire(m.wire.ins[k], o.ins[k]))
    ensures |m.wire.outs| <= |o.outs| && m.wire.outs == o.BinsTo(cfg, |m.wire.outs|)
  {
  }

  /**
   A host that answers nothing but the last reply is served: the conversation ends with the
   request that says so and without a failure, and the pieces in the replies are one whole
   transaction with the inputs of the order, signed, and exactly its outputs.
   */
  lemma HostIsServed(cfg: Config, host: Host) returns (n: nat, tx: Parsed)
    requires host.Order().Honest(cfg)
    ensures cfg.Valid()
    ensures var heard := TalkTo(cfg, host, n).heard;
      && |heard| == n + 1 && OnlyRequests(heard[..n]) && heard[n].TxRequest? && heard[n].request == ReqFinished
      && Parse(AnySegwit(host.ins), Pieces(heard)) == Some(tx)
    ensures |tx.ins| == |host.ins| && forall k :: 0 <= k < |host.ins| ==> SameWire(tx.ins[k], host.ins[k])
    ensures |tx.outs| == |host.outs| && forall k :: 0 <= k < |host.outs| ==>
      tx.outs[k].amount == host.outs[k].amount && cfg.env.compileOutput(host.outs[k]) == Some(tx.outs[k].script)
    ensures tx.version == cfg.version
    ensures |tx.rest| >= 8 && tx.rest[|tx.rest| - 8..] == Le32(cfg.lockTime) + Le32(1)
  {
    hide InStep, EndsAt, TalkTo, Run, Parse, Pieces, Order.Honest, Host.Order, SameWire, RankOf, AnySegwit;
    TalkStarts(cfg, host);
    var last := TalkEnds(cfg, host, 0, RankOf(Run(cfg, TalkTo(cfg, host, 0).said)));
    tx := EndedTalk(cfg, host, last);
    n := last + 1;
  }
}

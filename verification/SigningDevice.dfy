/**
 The signing session as the firmware keeps it (firmware/signing.c): running hashes,
 sums and indices, updated in place by each `signing_txack`. Every message moves it
 exactly as `SigningModel.Step` moves the session that remembers everything.
 */
module SigningDevice {
  import opened Bytes
  import Varint
  import opened Transaction
  import opened SigningModel
  import opened SigningRuns
  import opened SigningLedger
  import opened SigningTheorems
  import opened SigningRegisters

  /** The session that a message starts when these bytes of a preblock hash came with it. */
  function Completed(msg: Config, received: Bytes, had: Hash32): (cfg: Config)
    requires msg.Valid() && |received| <= 32
    ensures cfg.Valid() && cfg == msg.(preblock := cfg.preblock)
    ensures msg.version == PREBLOCK_VERSION ==>
      received <= cfg.preblock && cfg.preblock[|received|..] == had[|received|..]
  {
    if msg.version == PREBLOCK_VERSION then msg.(preblock := received + had[|received|..]) else msg
  }

  class Signer {
    var cfg: Config               // counts, coin and root key given to signing_init
    var preblockHash: Hash32
    var signing: bool
    var stage: Stage
    var idx1: uint32
    var idx2: uint32
    var input: TxInput
    var hasher0: Bytes            // what each running hasher has absorbed
    var hasher1: Bytes
    var hasher2: Bytes
    var hashPrevouts: Hash32
    var hashSequence: Hash32
    var hashOutputs: Hash32
    var hashCheck: Hash32
    var toSpend: uint64
    var authorizedAmount: uint64
    var spending: uint64
    var changeSpend: uint64
    var nextNonsegwitInput: uint32
    var fpSet: bool
    var fpMismatch: bool
    var fp: Bytes
    var inCount: nat
    var inPath: seq<uint32>
    var txWeight: uint32
    const to: TxStruct
    const tp: TxStruct
    const ti: TxStruct
    ghost var m: Model            // the session that remembers everything
    ghost var begun: bool         // signing_init has been called
    ghost var host: seq<(Ack, Choices)>  // the messages since

    // ------------------------------------------------------------ coupling

    ghost function Where(): Place
      reads `stage, `idx1, `idx2, `nextNonsegwitInput
    {
      Place(stage, idx1, idx2, nextNonsegwitInput)
    }

    ghost function Accounts(): Funds
      reads `toSpend, `authorizedAmount, `spending, `changeSpend
    {
      Funds(toSpend, authorizedAmount, spending, changeSpend)
    }

    ghost function Shared(): Common
      reads `fpSet, `fpMismatch, `fp, `inCount, `inPath
    {
      Common(fpSet, fpMismatch, if fpSet then fp else [], inCount, if inCount > NOCHANGEALLOWED then inPath else [])
    }

    ghost function Hashers(): Preimages
      reads `hasher0, `hasher1, `hasher2
    {
      Preimages(hasher0, hasher1, hasher2)
    }

    ghost function Finals(): Digests
      reads `hashPrevouts, `hashSequence, `hashCheck
    {
      Digests(hashPrevouts, hashSequence, hashCheck)
    }

    ghost function Emitted(): Stream
      reads to
    {
      Stream(to.Head(), to.haveInputs, to.haveOutputs, [])
    }

    ghost function Previous(): Stream
      reads tp
    {
      Stream(tp.Head(), tp.haveInputs, tp.haveOutputs, tp.hasher)
    }

    ghost function SigningPass(): Stream
      reads ti
    {
      Stream(ti.Head(), ti.haveInputs, ti.haveOutputs, ti.hasher)
    }

    ghost function Holding(): Held
      reads `stage, `idx1, `idx2, `hasher0, `hasher1, `hasher2, `hashPrevouts, `hashSequence, `hashCheck,
            `hashOutputs, `input, tp, ti
    {
      match stage
      case Request1Input => HeldInputs(Hashers())
      case Request2PrevMeta => HeldMeta(Hashers(), Some(input))
      case Request2PrevInput => HoldingPrev()
      case Request2PrevOutput => HoldingPrev()
      case Request2PrevExtraData => HoldingPrev()
      case Request3Output => HeldOutputs(Finals(), hasher0)
      case Request4Input =>
        if idx2 == 0 then HeldPassStart(Finals(), hashOutputs)
        else HeldPass(Finals(), hashOutputs, hasher0, SigningPass(), if idx1 < idx2 then Some(input) else None)
      case Request4Output => HeldPass(Finals(), hashOutputs, hasher0, SigningPass(), Some(input))
      case RequestSegwitInput => HeldPassStart(Finals(), hashOutputs)
      case Request5Output => HeldPassStart(Finals(), hashOutputs)
      case RequestSegwitWitness => HeldPassStart(Finals(), hashOutputs)
    }

    ghost function HoldingPrev(): Held
      reads `hasher0, `hasher1, `hasher2, `input, tp
    {
      HeldPrev(Hashers(), Some(input), Previous(), tp.extraDataLen, tp.extraDataReceived)
    }

    /** The device's registers while a session is on. */
    ghost predicate Follows(m: Model)
      reads `stage, `idx1, `idx2, `input, `hasher0, `hasher1, `hasher2, `hashPrevouts, `hashSequence, `hashOutputs,
            `hashCheck, `toSpend, `authorizedAmount, `spending, `changeSpend, `nextNonsegwitInput, `fpSet, `fpMismatch,
            `fp, `inCount, `inPath, `txWeight, to, tp, ti
    {
      && Where() == PlaceOf(m) && Accounts() == FundsOf(m)
      && Some(Shared()) == SharedOf(m.cfg.env, m.p1.seen)
      && txWeight == m.weight && Emitted() == WireOf(m) && Holding() == HeldOf(m)
    }

    predicate Separate()
    {
      to != tp && to != ti && tp != ti
    }

    ghost predicate Valid()
      reads this, to, tp, ti
    {
      && Separate() && Shape(m) && cfg == m.cfg && signing == m.alive
      && (begun ==> m == Run(m.cfg, host))
      && (cfg.version == PREBLOCK_VERSION ==> preblockHash == cfg.preblock)
      && (signing ==> Follows(m))
    }

    /** The device has followed a step of the model: its reply, and its registers if the session goes on. */
    ghost predicate Took(c: Outcome, r: Reply)
      reads `signing, `stage, `idx1, `idx2, `input, `hasher0, `hasher1, `hasher2, `hashPrevouts, `hashSequence,
        `hashOutputs,
            `hashCheck, `toSpend, `authorizedAmount, `spending, `changeSpend, `nextNonsegwitInput, `fpSet, `fpMismatch,
            `fp, `inCount, `inPath, `txWeight, to, tp, ti
    {
      [r] == c.replies && signing == c.m.alive && (signing ==> Follows(c.m))
    }

    /** What the sums of a live session mean; `Pending` is the amount of a previous transaction not yet checked. */
    lemma LedgerBalances()
      requires Valid() && signing
      ensures authorizedAmount as int + TotalCharged(m.log.charges) == TotalClaimed(m.p1.credits)
      ensures toSpend == Total(m.p1.credits) + m.Pending()
      ensures spending == TotalShown(m.p1.shown, true) + changeSpend && changeSpend == TotalShown(m.p1.shown, false)
    {
      hide Shape, HeldOf, WireOf, SharedOf, PlaceOf;
      assert Accounts() == FundsOf(m);
    }

    constructor (cfg: Config, input: TxInput)
      requires cfg.Valid()
      ensures Valid() && !signing && fresh(to) && fresh(tp) && fresh(ti)
    {
      this.cfg, this.input, preblockHash, signing := cfg, input, cfg.preblock, false;
      to := new TxStruct();
      tp := new TxStruct();
      ti := new TxStruct();
      m := Init(cfg).(alive := false);
      begun := false;
      stage := Request1Input;
      new;
    }

    /**
     `signing_init`. Only the bytes that came are copied, so a short preblock hash is completed
     by those of the last one.
     */
    method SigningInit(msg: Config, received: Bytes) returns (r: Reply)
      requires Separate() && msg.Valid() && |received| <= 32
      modifies this, to
      ensures Valid() && m == Init(Completed(msg, received, old(preblockHash)))
      ensures begun && host == [] && r == TxRequest(ReqInput(0), NOTHING)
      ensures preblockHash == if msg.version == PREBLOCK_VERSION then m.cfg.preblock else old(preblockHash)
    {
      hide Run, Init, Initial, Shape, Follows;
      var cfg := Completed(msg, received, preblockHash);
      RunStarts(cfg);
      if msg.version == PREBLOCK_VERSION {
        preblockHash := received + preblockHash[|received|..];
      }
      this.cfg := cfg;
      signing := true;
      m := Init(cfg);
      begun, host := true, [];
      InitialValues(cfg, m);
      Reset(m);
      r := TxRequest(ReqInput(0), NOTHING);
    }

    method Reset(ghost w: Model)
      requires w.cfg == cfg && Initial(w) && (cfg.version == PREBLOCK_VERSION ==> preblockHash == cfg.preblock)
      modifies `stage, `txWeight, `idx1, `idx2, `toSpend, `spending, `changeSpend, `authorizedAmount,
               `nextNonsegwitInput, `fpSet, `fpMismatch, `inCount, `hasher0, `hasher1, `hasher2, to
      ensures Follows(w)
    {
      hide PlaceOf, FundsOf, WireOf, SharedOf, PreimagesOf, InitialWeight, Where, Accounts, Shared, Hashers;
      ResetCounters();
      ResetHashers();
      txWeight := InitialWeight(cfg);
      to.Init(preblockHash, cfg.inputsCount, cfg.outputsCount, cfg.version, cfg.lockTime, 0);
    }

    method ResetCounters()
      modifies `stage, `idx1, `idx2, `toSpend, `spending, `changeSpend, `authorizedAmount, `nextNonsegwitInput
      ensures stage.Request1Input? && Where() == Place(Request1Input, 0, 0, NO_LEGACY)
        && Accounts() == Funds(0, 0, 0, 0)
    {
      stage := Request1Input;
      idx1, idx2, nextNonsegwitInput := 0, 0, NO_LEGACY;
      toSpend, spending, changeSpend, authorizedAmount := 0, 0, 0, 0;
    }

    method ResetHashers()
      modifies `fpSet, `fpMismatch, `inCount, `hasher0, `hasher1, `hasher2
      ensures Shared() == Common(false, false, [], 0, []) && Hashers() == Preimages([], [], [])
    {
      inCount, fpSet, fpMismatch := 0, false, false;
      hasher0, hasher1, hasher2 := [], [], [];
    }

    method SigningAbort(kind: FailureKind) returns (r: Reply)
      modifies `signing
      ensures !signing && r == Failure(kind)
    {
      signing := false;
      r := Failure(kind);
    }

    /** The three hashes of Phase 1 are final; the first hasher starts over for the outputs. */
    method FinishInputs(ghost seen: seq<TxInput>)
      modifies `hasher0, `hashPrevouts, `hashSequence, `hashCheck
      ensures hasher0 == []
      ensures old(Hashers()) == PreimagesOf(seen) ==> Finals() == Digests(cfg.env.hash(PrevoutsPreimage(seen)),
                cfg.env.hash(SequencesPreimage(seen)), cfg.env.hash(CheckPreimage(seen)))
    {
      hide PrevoutsPreimage, SequencesPreimage, CheckPreimage;
      hashPrevouts := cfg.env.hash(hasher0);
      hashSequence := cfg.env.hash(hasher1);
      hashCheck := cfg.env.hash(hasher2);
      hasher0 := [];
    }

    /** `phase1_request_next_input`. */
    method Phase1RequestNextInput(ghost w: Model, ghost n: Outcome) returns (r: Reply)
      requires cfg == w.cfg && Where() == PlaceOf(w) && Accounts() == Settled(w) && idx1 < cfg.inputsCount
      requires w.p1.shown == [] && n == Phase1NextInput(w)
      modifies `stage, `idx1, `hasher0, `hashPrevouts, `hashSequence, `hashCheck
      ensures [r] == n.replies && Where() == PlaceOf(n.m) && Accounts() == FundsOf(n.m)
      ensures old(Hashers()) == PreimagesOf(w.p1.seen) ==> Holding() == HeldOf(n.m)
    {
      hide PrevoutsPreimage, SequencesPreimage, CheckPreimage, Total, TotalClaimed, TotalCharged, TotalShown, Finals;
      NextInputFacts(w, n);
      if idx1 < cfg.inputsCount - 1 {
        idx1 := idx1 + 1;
        stage := Request1Input;
        r := TxRequest(ReqInput(idx1), NOTHING);
      } else {
        FinishInputs(w.p1.seen);
        idx1 := 0;
        stage := Request3Output;
        r := TxRequest(ReqOutput(0), NOTHING);
      }
    }

    /** `signing_check_prevtx_hash`. */
    method CheckPrevtxHash(ghost w: Model, ghost c: Outcome) returns (r: Reply)
      requires cfg == w.cfg && signing && w.alive && idx1 < cfg.inputsCount
      requires Where() == PlaceOf(w) && Accounts() == FundsOf(w) && Hashers() == PreimagesOf(w.p1.seen)
      requires |w.p1.seen| == w.idx1 + 1 && w.p1.shown == [] && w.p1.seen[w.idx1].prevIndex < |w.prev.outs|
      requires c == CheckPrevTx(w)
      requires w.stage.Request2PrevOutput? || w.stage.Request2PrevExtraData?
      requires input == w.p1.seen[w.idx1] && tp.hasher == w.prev.Stream()
      modifies `signing, `stage, `idx1, `hasher0, `hashPrevouts, `hashSequence, `hashCheck
      ensures [r] == c.replies && signing == c.m.alive
      ensures signing ==> Where() == PlaceOf(c.m) && Accounts() == FundsOf(c.m) && Holding() == HeldOf(c.m)
      ensures c.m.cfg == w.cfg && c.m.p1.seen == w.p1.seen && c.m.weight == w.weight && WireOf(c.m) == WireOf(w)
    {
      hide PrevTx.Stream, PreimagesOf, HeldOf, Holding, WireOf, Reverse, Hashers, DigestsOf, Finals, Total,
           TotalClaimed,
           TotalCharged, TotalShown;
      var hash := Reverse(cfg.env.hash(tp.hasher));
      SameWire(w, c.m);
      if hash != input.prevHash {
        r := SigningAbort(DataError);
      } else {
        CheckPrevTxFacts(w, ProvenBy(w));
        r := Phase1RequestNextInput(ProvenBy(w), c);
      }
    }

    /** The stream of a previous transaction at its start; without inputs the header is absorbed at once. */
    method StartPrev(a: Ack, ghost prev: PrevTx)
      requires prev == PrevTx(Header(a.version, PreblockFor(a.version, a.preblock), false, a.inputsCnt, a.outputsCnt,
                                     a.lockTime), [], [], [], a.extraDataLen)
      modifies tp
      ensures Previous() == PrevOf(prev) && tp.extraDataLen == a.extraDataLen && tp.extraDataReceived == 0
      ensures tp.inputsLen == a.inputsCnt
    {
      hide PrevTx.Stream, HashHeader;
      PrevStart(prev.head, a.extraDataLen);
      tp.Init(a.preblock, a.inputsCnt, a.outputsCnt, a.version, a.lockTime, a.extraDataLen);
      if tp.inputsLen == 0 {
        tp.SerializeHeaderHash();
      }
    }

    /** STAGE_REQUEST_2_PREV_META. */
    method AckPrevMeta(a: Ack, ghost m: Model, ghost c: Outcome) returns (r: Reply)
      requires Separate() && cfg == m.cfg && Follows(m) && signing && m.alive && m.stage.Request2PrevMeta?
      requires |m.p1.seen| == m.idx1 + 1 && c == Step2PrevMeta(m, a)
      modifies `signing, `stage, `idx2, tp
      ensures Took(c, r)
    {
      hide Shared, Emitted, Hashers, PreimagesOf, SharedOf, WireOf, FundsOf, Accounts, Previous, PrevOf;
      if a.outputsCnt <= input.prevIndex {
        r := SigningAbort(DataError);
      } else if (a.inputsCnt as int + a.outputsCnt as int) % TWO32 < a.inputsCnt {
        r := SigningAbort(DataError);
      } else {
        r := OpenPrev(a, m, c);
      }
    }

    /** Asks for the first input, or for the first output of a transaction without inputs. */
    method OpenPrev(a: Ack, ghost m: Model, ghost c: Outcome) returns (r: Reply)
      requires Separate() && cfg == m.cfg && Follows(m) && signing && m.alive && m.stage.Request2PrevMeta?
      requires |m.p1.seen| == m.idx1 + 1 && c == Step2PrevMeta(m, a)
      requires a.outputsCnt > input.prevIndex && a.inputsCnt as int + a.outputsCnt as int < TWO32
      modifies `stage, `idx2, tp
      ensures Took(c, r)
    {
      hide Shared, Emitted, Hashers, PreimagesOf, SharedOf, WireOf, FundsOf, Accounts, Previous, PrevOf;
      SameWire(m, c.m);
      SameFunds(m, c.m);
      StartPrev(a, c.m.prev);
      idx2 := 0;
      if tp.inputsLen > 0 {
        stage := Request2PrevInput;
        r := TxRequest(ReqPrevInput(0, input.prevHash), NOTHING);
      } else {
        stage := Request2PrevOutput;
        r := TxRequest(ReqPrevOutput(0, input.prevHash), NOTHING);
      }
    }

    /** One more input of the previous transaction; the serializer never refuses. */
    method AbsorbPrevInput(i: TxIn, ghost prev: PrevTx)
      requires Previous() == PrevOf(prev) && |prev.ins| < prev.head.inputsLen && prev.outs == [] && prev.extra == []
      modifies tp`hasher, tp`haveInputs
      ensures Previous() == PrevOf(prev.(ins := prev.ins + [i])) && tp.inputsLen == prev.head.inputsLen
    {
      hide PrevTx.Stream, HashHeader, InputChunk;
      PrevInputFacts(prev, i);
      var ok := tp.SerializeInputHash(i);
      assert ok;
    }

    /** STAGE_REQUEST_2_PREV_INPUT. */
    method AckPrevInput(i: TxInput, ghost m: Model, ghost c: Outcome) returns (r: Reply)
      requires Separate() && cfg == m.cfg && Follows(m) && signing && m.alive && m.stage.Request2PrevInput?
      requires |m.p1.seen| == m.idx1 + 1 && |m.prev.ins| == m.idx2 < m.prev.head.inputsLen
      requires m.prev.outs == [] && m.prev.extra == [] && c == Step2PrevInput(m, i)
      modifies `stage, `idx2, tp`hasher, tp`haveInputs
      ensures Took(c, r)
    {
      hide Shared, Emitted, Hashers, PreimagesOf, SharedOf, WireOf, FundsOf, Accounts, Previous, PrevOf;
      SameWire(m, c.m);
      SameFunds(m, c.m);
      AbsorbPrevInput(i.Wire(), m.prev);
      if idx2 < tp.inputsLen - 1 {
        idx2 := idx2 + 1;
        r := TxRequest(ReqPrevInput(idx2, input.prevHash), NOTHING);
      } else {
        idx2 := 0;
        stage := Request2PrevOutput;
        r := TxRequest(ReqPrevOutput(0, input.prevHash), NOTHING);
      }
    }

    /** One more output of the previous transaction; the serializer never refuses. */
    method AbsorbPrevOutput(o: TxOut, ghost prev: PrevTx)
      requires Previous() == PrevOf(prev) && |prev.ins| == prev.head.inputsLen && |prev.outs| < prev.head.outputsLen
      requires prev.extra == []
      modifies tp`hasher, tp`haveOutputs
      ensures Previous() == PrevOf(prev.(outs := prev.outs + [o])) && tp.outputsLen == prev.head.outputsLen
      ensures tp.hasher == prev.(outs := prev.outs + [o]).Stream()
    {
      hide PrevTx.Stream, OutputChunk;
      PrevOutputBytes(prev, o);
      var ok := tp.SerializeOutputHash(o);
      assert ok;
    }

    /** The amount of the output that is spent; false when the sum would wrap around. */
    method AddPrevAmount(o: TxOut, ghost m: Model, ghost w: Model) returns (ok: bool)
      requires Accounts() == FundsOf(m) && m.stage.Request2PrevOutput? && |m.p1.seen| == m.idx1 + 1
      requires |m.prev.outs| == m.idx2 == idx2 && input == m.p1.seen[m.idx1]
      requires w == m.(prev := m.prev.(outs := m.prev.outs + [o]))
      modifies `toSpend
      ensures ok == !(m.idx2 == input.prevIndex && Total(m.p1.credits) + o.amount >= TWO64)
      ensures ok ==> Accounts() == FundsOf(w)
    {
      hide Total, TotalClaimed, TotalCharged, TotalShown;
      PrevOutputAmount(m, o, w, input.prevIndex);
      if idx2 == input.prevIndex {
        OverflowsWhenTooBig(toSpend, o.amount);
        if Overflows(toSpend, o.amount) {
          return false;
        }
        toSpend := toSpend + o.amount;
      }
      return true;
    }

    /** STAGE_REQUEST_2_PREV_OUTPUT. */
    method AckPrevOutput(o: TxOut, ghost m: Model, ghost w: Model, ghost c: Outcome) returns (r: Reply)
      requires Separate() && cfg == m.cfg && Follows(m) && signing && m.alive && m.stage.Request2PrevOutput?
      requires |m.p1.seen| == m.idx1 + 1 && m.idx1 < cfg.inputsCount && m.p1.shown == []
      requires |m.prev.ins| == m.prev.head.inputsLen && |m.prev.outs| == m.idx2 < m.prev.head.outputsLen
      requires m.prev.extra == [] && m.p1.seen[m.idx1].prevIndex < m.prev.head.outputsLen
      requires w == m.(prev := m.prev.(outs := m.prev.outs + [o])) && c == Step2PrevOutput(m, o)
      modifies `signing, `stage, `idx1, `idx2, `toSpend, `hasher0, `hashPrevouts, `hashSequence, `hashCheck,
               tp`hasher, tp`haveOutputs
      ensures Took(c, r)
    {
      hide Shared, Emitted, Hashers, PreimagesOf, SharedOf, WireOf, FundsOf, Accounts, PrevTx.Stream, DigestsOf, Total,
           CheckPrevTx, Previous, PrevOf;
      AbsorbPrevOutput(o, m.prev);
      var ok := AddPrevAmount(o, m, w);
      SameWire(m, w);
      if !ok {
        r := SigningAbort(DataError);
      } else {
        r := AfterPrevOutput(o, m, w, c);
      }
    }

    /** The next output, the extra data or the check of the hash. */
    method AfterPrevOutput(ghost o: TxOut, ghost m: Model, ghost w: Model, ghost c: Outcome) returns (r: Reply)
      requires Separate() && cfg == m.cfg && Follows(w) && signing && m.alive && m.stage.Request2PrevOutput?
      requires |m.p1.seen| == m.idx1 + 1 && m.idx1 < cfg.inputsCount && m.p1.shown == []
      requires |m.prev.outs| == m.idx2 < m.prev.head.outputsLen
      requires m.prev.extra == [] && m.p1.seen[m.idx1].prevIndex < m.prev.head.outputsLen
      requires w == m.(prev := m.prev.(outs := m.prev.outs + [o])) && c == Step2PrevOutput(m, o)
      requires !(m.idx2 == input.prevIndex && Total(m.p1.credits) + o.amount >= TWO64)
      requires tp.hasher == w.prev.Stream() && tp.outputsLen == m.prev.head.outputsLen
      modifies `signing, `stage, `idx1, `idx2, `hasher0, `hashPrevouts, `hashSequence, `hashCheck
      ensures Took(c, r)
    {
      hide Shared, Emitted, Hashers, PreimagesOf, SharedOf, WireOf, FundsOf, Accounts, PrevTx.Stream, DigestsOf, Total,
           CheckPrevTx, Previous, PrevOf;
      if idx2 < tp.outputsLen - 1 {
        idx2 := idx2 + 1;
        r := TxRequest(ReqPrevOutput(idx2, input.prevHash), NOTHING);
        SameWire(w, c.m);
        SameFunds(w, c.m);
      } else if tp.extraDataLen > 0 {
        stage := Request2PrevExtraData;
        r := TxRequest(ReqPrevExtraData(0, Min(1024, tp.extraDataLen), input.prevHash), NOTHING);
        SameWire(w, c.m);
        SameFunds(w, c.m);
      } else {
        r := CheckPrevtxHash(w, c);
      }
    }

    /** STAGE_REQUEST_2_PREV_EXTRADATA. */
    method AckPrevExtraData(data: Chunk, ghost m: Model, ghost w: Model, ghost c: Outcome) returns (r: Reply)
      requires Separate() && cfg == m.cfg && Follows(m) && signing && m.alive && m.stage.Request2PrevExtraData?
      requires |m.p1.seen| == m.idx1 + 1 && m.idx1 < cfg.inputsCount && m.p1.shown == []
      requires |m.prev.ins| == m.prev.head.inputsLen && |m.prev.outs| == m.prev.head.outputsLen
      requires m.p1.seen[m.idx1].prevIndex < m.prev.head.outputsLen
      requires w == m.(prev := m.prev.(extra := m.prev.extra + data)) && c == Step2PrevExtraData(m, data)
      modifies `signing, `stage, `idx1, `hasher0, `hashPrevouts, `hashSequence, `hashCheck,
               tp`hasher, tp`extraDataReceived
      ensures Took(c, r)
    {
      hide Shared, Emitted, Hashers, PreimagesOf, SharedOf, WireOf, FundsOf, PrevTx.Stream, DigestsOf, CheckPrevTx;
      PrevExtraBytes(m.prev, data);
      SameFunds(m, w);
      var n := tp.SerializeExtraDataHash(data);
      if n == 0 {
        r := SigningAbort(ProcessError);
      } else if tp.extraDataReceived < tp.extraDataLen {
        r := TxRequest(ReqPrevExtraData(tp.extraDataReceived, Min(1024, tp.extraDataLen - tp.extraDataReceived),
                                        input.prevHash), NOTHING);
        SameWire(m, c.m);
        SameFunds(m, c.m);
      } else {
        r := CheckPrevtxHash(w, c);
        SameWire(m, w);
      }
    }

    // ------------------------------------------------------ Phase 1, inputs

    /** The common fingerprint after one more input; false when it cannot be computed. */
    method CheckFingerprint(i: TxInput, ghost f: Fp, ghost p: AccountPath) returns (ok: bool)
      requires Shared() == CommonOf(f, p)
      modifies `fpSet, `fpMismatch, `fp
      ensures ok == FpAccepts(cfg.env, f, i)
      ensures ok ==> Shared() == CommonOf(FpNext(cfg.env, f, i), p)
    {
      if i.multisig.Some? && !fpMismatch {
        var h := cfg.env.fingerprint(i.multisig.value);
        if h == None {
          return false;
        }
        if fpSet {
          if fp != h.value {
            fpMismatch := true;
          }
        } else {
          fp := h.value;
          fpSet := true;
        }
      } else {
        fpMismatch := true;
      }
      return true;
    }

    /** `extract_input_bip32_path`. */
    method ExtractInputBip32Path(i: TxInput, ghost f: Fp, ghost p: AccountPath)
      requires Shared() == CommonOf(f, p)
      modifies `inCount, `inPath
      ensures Shared() == CommonOf(f, PathNext(p, i.addressN))
    {
      if inCount == NOCHANGEALLOWED {
        return;
      }
      var count := |i.addressN|;
      if count < WALLET_DEPTH {
        inCount := NOCHANGEALLOWED;
        return;
      }
      if inCount == 0 {
        inCount := count;
        inPath := Account(i.addressN);
        return;
      }
      if inCount != count {
        inCount := NOCHANGEALLOWED;
        return;
      }
      if inPath != Account(i.addressN) {
        inCount := NOCHANGEALLOWED;
      }
    }

    /** The running hashes after one more input. */
    method HashInput(i: TxInput, ghost seen: seq<TxInput>)
      requires Hashers() == PreimagesOf(seen)
      modifies `hasher0, `hasher1, `hasher2
      ensures Hashers() == PreimagesOf(seen + [i])
    {
      hide PrevoutsPreimage, SequencesPreimage, CheckPreimage, PrintOutpoint, Le32;
      hasher0 := hasher0 + PrintOutpoint(i.prevHash, i.prevIndex);
      hasher1 := hasher1 + Le32(i.sequence);
      hasher2 := hasher2 + PrintOutpoint(i.prevHash, i.prevIndex);
      hasher2 := hasher2 + Le32(i.scriptType);
      SnocPreimages(seen, i);
      AppendAssoc(CheckPreimage(seen), PrintOutpoint(i.prevHash, i.prevIndex), Le32(i.scriptType));
    }

    /** `signing_check_input`: takes an input into the fingerprint, the account path and the running hashes. */
    method CheckInput(i: TxInput, ghost seen: seq<TxInput>, ghost f: Fp) returns (r: seq<Reply>)
      requires FpAll(cfg.env, seen) && f == FpOf(cfg.env, seen)
      requires Some(Shared()) == SharedOf(cfg.env, seen) && Hashers() == PreimagesOf(seen)
      modifies `fpSet, `fpMismatch, `fp, `inCount, `inPath, `hasher0, `hasher1, `hasher2, `signing
      ensures r == (if FpAccepts(cfg.env, f, i) then [] else [Failure(ProcessError)])
      ensures signing == (FpAccepts(cfg.env, f, i) && old(signing))
      ensures FpAccepts(cfg.env, f, i) ==>
        Some(Shared()) == SharedOf(cfg.env, seen + [i]) && Hashers() == PreimagesOf(seen + [i])
    {
      hide Hashers, PreimagesOf, Shared, CommonOf, FpNext, PathNext;
      WithInputFacts(cfg.env, seen, i, f);
      var ok := CheckFingerprint(i, f, PathOf(seen));
      if !ok {
        var failure := SigningAbort(ProcessError);
        r := [failure];
      } else {
        ExtractInputBip32Path(i, FpNext(cfg.env, f, i), PathOf(seen));
        HashInput(i, seen);
        r := [];
      }
    }

    /** The amount of an input that BIP-143 will commit to. */
    method ClaimAmount(i: TxInput, ghost w: Model) returns (ok: bool)
      requires Accounts() == Settled(w) && authorizedAmount <= toSpend
      modifies `toSpend, `authorizedAmount
      ensures ok == (i.hasAmount && Total(w.p1.credits) + i.amount < TWO64)
      ensures ok ==> Accounts() == Settled(w.Credited(Claimed(i.amount)))
    {
      hide Total, TotalClaimed, TotalCharged, TotalShown;
      OverflowsWhenTooBig(toSpend, i.amount);
      if !i.hasAmount {
        return false;
      }
      if Overflows(toSpend, i.amount) {
        return false;
      }
      toSpend := toSpend + i.amount;
      authorizedAmount := authorizedAmount + i.amount;
      SnocCredit(w.p1.credits, Claimed(i.amount));
      return true;
    }

    /** Marker and weight before an input is credited, which may be the first segwit one. */
    ghost predicate Marking(i: TxInput, w: Model)
      reads `cfg, `txWeight, to
    {
      && to.Head() == cfg.Head(to.isSegwit) && AnySegwit(w.p1.seen) == (to.isSegwit || i.Segwit())
      && to.haveInputs == |w.wire.ins| && to.haveOutputs == |w.wire.outs|
      && w.weight == Add32(txWeight, if i.Segwit() && !to.isSegwit then 2 + cfg.inputsCount as int else 0)
    }

    /** The first segwit input sets the marker, and adds it and one empty witness per input to the weight. */
    method MarkSegwit(i: TxInput, ghost w: Model)
      requires cfg == w.cfg && Marking(i, w)
      modifies `txWeight, to`isSegwit
      ensures Emitted() == WireOf(w) && txWeight == w.weight
    {
      hide AnySegwit;
      if i.Segwit() {
        if !to.isSegwit {
          txWeight := Add32(txWeight, 2 + to.inputsLen as int);
        }
        to.isSegwit := true;
      }
    }

    /** Stage 1 for an input whose amount the host claims and BIP-143 commits to. */
    method CreditClaimed(i: TxInput, ghost w: Model, ghost c: Outcome) returns (r: Reply)
      requires cfg == w.cfg && Where() == PlaceOf(w) && Accounts() == Settled(w) && authorizedAmount <= toSpend
      requires Marking(i, w) && w.alive && idx1 < cfg.inputsCount && w.p1.shown == [] && c == Credit1(w, i)
      requires if i.Legacy() then cfg.forceBip143 else i.Segwit() && cfg.hasSegwit
      modifies `stage, `idx1, `toSpend, `authorizedAmount, `txWeight, `signing,
               `hasher0, `hashPrevouts, `hashSequence, `hashCheck, to`isSegwit
      ensures Credited(c, r, old(signing)) && (signing ==> Where() == PlaceOf(c.m))
      ensures signing && old(Hashers()) == PreimagesOf(w.p1.seen) ==> Holding() == HeldOf(c.m)
    {
      hide Where, Accounts, Holding, FundsOf, Settled, WireOf, HeldOf, PreimagesOf, Hashers, Marking;
      var ok := ClaimAmount(i, w);
      if !ok {
        r := SigningAbort(DataError);
      } else {
        MarkSegwit(i, w);
        SameWire(w, c.m);
        r := Phase1RequestNextInput(w.Credited(Claimed(i.amount)), c);
      }
    }

    /** What stage 1 leaves behind: the session `c` of the model, or an ended one. */
    ghost predicate Credited(c: Outcome, r: Reply, wasOn: bool)
      reads `signing, `toSpend, `authorizedAmount, `spending, `changeSpend, `txWeight, to
    {
      && [r] == c.replies && signing == (wasOn && c.m.alive)
      && (signing ==> Accounts() == FundsOf(c.m) && Emitted() == WireOf(c.m) && txWeight == c.m.weight)
    }

    /** Stage 1 for an input whose amount comes from its previous transaction. */
    method CreditFromPrevious(i: TxInput, ghost w: Model, ghost c: Outcome) returns (r: Reply)
      requires cfg == w.cfg && Where() == PlaceOf(w) && Accounts() == Settled(w) && w.stage.Request1Input?
      requires Marking(i, w) && w.alive && c == Credit1(w, i)
      requires i.Legacy() && !cfg.forceBip143 && |w.p1.seen| == idx1 + 1 && w.p1.seen[idx1] == i == input
      modifies `stage, `nextNonsegwitInput
      ensures Credited(c, r, signing) && (signing ==> Where() == PlaceOf(c.m))
      ensures signing && Hashers() == PreimagesOf(w.p1.seen) ==> Holding() == HeldOf(c.m)
    {
      hide PreimagesOf, Hashers, AnySegwit, Total, TotalClaimed, TotalCharged, TotalShown;
      if nextNonsegwitInput == NO_LEGACY {
        nextNonsegwitInput := idx1;
      }
      stage := Request2PrevMeta;
      r := TxRequest(ReqPrevMeta(i.prevHash), NOTHING);
    }

    /** Stage 1 behind `signing_check_input`: how the amount of the input will be established. */
    method Credit(i: TxInput, ghost w: Model, ghost c: Outcome) returns (r: Reply)
      requires cfg == w.cfg && Where() == PlaceOf(w) && Accounts() == Settled(w) && authorizedAmount <= toSpend
      requires w.alive && w.stage.Request1Input? && |w.p1.seen| == idx1 + 1 <= cfg.inputsCount
      requires Marking(i, w) && w.p1.seen[idx1] == i && w.p1.shown == [] && c == Credit1(w, i)
      modifies `input, `stage, `idx1, `nextNonsegwitInput, `toSpend, `authorizedAmount, `txWeight, `signing,
               `hasher0, `hashPrevouts, `hashSequence, `hashCheck, to`isSegwit
      ensures Credited(c, r, old(signing)) && (signing ==> Where() == PlaceOf(c.m))
      ensures signing && old(Hashers()) == PreimagesOf(w.p1.seen) ==> Holding() == HeldOf(c.m)
    {
      hide Where, Accounts, Holding, PlaceOf, FundsOf, Settled, WireOf, HeldOf, PreimagesOf, Hashers, Marking;
      if i.Legacy() {
        input := i;
        if cfg.forceBip143 {
          r := CreditClaimed(i, w, c);
        } else {
          r := CreditFromPrevious(i, w, c);
        }
      } else if i.Segwit() && cfg.hasSegwit {
        r := CreditClaimed(i, w, c);
      } else {
        r := SigningAbort(DataError);
      }
    }

    /** STAGE_REQUEST_1_INPUT; a failing fingerprint ends the session, and the case runs on to its end. */
    method Ack1Input(i: TxInput, ghost m: Model, ghost w: Model, ghost c: Outcome, ghost f: Fp) returns (r: seq<Reply>)
      requires cfg == m.cfg && Follows(m) && signing && m.alive && m.stage.Request1Input?
      requires |m.p1.seen| == idx1 < cfg.inputsCount && m.p1.shown == [] && authorizedAmount <= toSpend
      requires w == WithInput(m, i) && c == Credit1(w, i) && FpAll(cfg.env, m.p1.seen) && f == FpOf(cfg.env, m.p1.seen)
      modifies `fpSet, `fpMismatch, `fp, `inCount, `inPath, `hasher0, `hasher1, `hasher2, `signing,
               `input, `stage, `idx1, `nextNonsegwitInput, `toSpend, `authorizedAmount, `txWeight,
               `hashPrevouts, `hashSequence, `hashCheck, to`isSegwit
      ensures r == (if FpAccepts(cfg.env, f, i) then [] else [Failure(ProcessError)]) + c.replies
      ensures signing == (FpAccepts(cfg.env, f, i) && c.m.alive)
      ensures signing ==> Follows(c.m)
    {
      hide Shared, SharedOf, PreimagesOf, FpOf, FpAll, AnySegwit, Total, TotalClaimed, TotalCharged, TotalShown,
           FpAccepts, FpNext, PathOf, Hashers, DigestsOf, Bins, PrintOuts, PrevTx.Stream;
      WithInputFacts(cfg.env, m.p1.seen, i, f);
      SameList(m, i, w, c);
      var checked := CheckInput(i, m.p1.seen, f);
      txWeight := Add32(txWeight, cfg.env.inputWeight(i));
      var credited := Credit(i, w, c);
      r := checked + [credited];
    }

    // ----------------------------------------------------- Phase 1, outputs

    /** `check_change_bip32_path`. */
    method CheckChangeBip32Path(o: TxOutput, ghost f: Fp, ghost p: AccountPath) returns (b: bool)
      requires Shared() == CommonOf(f, p)
      ensures b == ChangePath(p, o.addressN)
    {
      var count := |o.addressN|;
      b := count >= WALLET_DEPTH
           && count == inCount
           && inPath == Account(o.addressN)
           && o.addressN[count - 2] <= CHANGE_CHAIN
           && o.addressN[count - 1] <= MAX_LAST_ELEMENT;
    }

    /** The part of `signing_check_output` that decides whether an output is change; the first positive one counts. */
    method DetectChange(o: TxOutput, ghost m: Model, ghost f: Fp, ghost p: AccountPath) returns (isChange: bool)
      requires cfg == m.cfg && FpAll(cfg.env, m.p1.seen) && f == FpOf(cfg.env, m.p1.seen) && p == PathOf(m.p1.seen)
      requires Shared() == CommonOf(f, p) && authorizedAmount == m.Authorized()
      requires changeSpend == TotalShown(m.p1.shown, false)
      modifies `changeSpend
      ensures isChange == IsChange(m, o)
      ensures changeSpend == old(changeSpend) + if isChange then o.amount else 0
    {
      hide FpOf, FpAll, PathOf, TotalShown, TotalClaimed, TotalCharged;
      isChange := false;
      if |o.addressN| > 0 {
        if o.multisig.Some? {
          if fpSet && !fpMismatch && cfg.env.fingerprint(o.multisig.value) == Some(fp) {
            isChange := CheckChangeBip32Path(o, f, p);
          }
        } else {
          isChange := CheckChangeBip32Path(o, f, p);
        }
        if (o.scriptType == PAYTOWITNESS || o.scriptType == PAYTOP2SHWITNESS) && o.amount > authorizedAmount {
          isChange := false;
        }
      }
      if isChange {
        if changeSpend == 0 {
          changeSpend := o.amount;
        } else {
          isChange := false;
        }
      }
    }

    /** `phase2_request_next_input`. */
    method Phase2RequestNextInput(s: Serialized, ghost w: Model, ghost c: Outcome) returns (r: Reply)
      requires cfg == w.cfg && Where() == PlaceOf(w) && c == Phase2NextInput(w, s)
      requires Finals() == DigestsOf(w) && hashOutputs == OutputsDigestOf(w)
      modifies `stage, `idx2
      ensures [r] == c.replies && Where() == PlaceOf(c.m) && Holding() == HeldOf(c.m)
      ensures c.m == w.(stage := c.m.stage, idx2 := c.m.idx2)
        && (c.m.stage.Request4Input? || c.m.stage.RequestSegwitInput?)
    {
      hide DigestsOf, OutputsDigestOf, Finals;
      SameDigests(w, c.m);
      if idx1 == nextNonsegwitInput {
        idx2 := 0;
        stage := Request4Input;
        r := TxRequest(ReqInput(0), s);
      } else {
        stage := RequestSegwitInput;
        r := TxRequest(ReqInput(idx1), s);
      }
    }

    /** `signing_check_fee`. */
    method CheckFee(ui: Choices, ghost w: Model) returns (refused: Option<FailureKind>)
      requires cfg == w.cfg && toSpend == Total(w.p1.credits) && spending == Spending(w.p1.shown)
        && txWeight == w.weight
      ensures refused == if Spending(w.p1.shown) > Total(w.p1.credits) then Some(NotEnoughFunds)
        else if Total(w.p1.credits) - Spending(w.p1.shown) > MaxFee(w) && !ui.acceptHighFee then Some(ActionCancelled)
        else if !ui.confirmTx then Some(ActionCancelled) else None
    {
      if spending > toSpend {
        return Some(NotEnoughFunds);
      }
      var fee := toSpend - spending;
      if fee > txWeight * cfg.maxfeeKb % TWO64 / 4000 {
        if !ui.acceptHighFee {
          return Some(ActionCancelled);
        }
      }
      if !ui.confirmTx {
        return Some(ActionCancelled);
      }
      return None;
    }

    /** `phase1_request_next_output`. */
    method Phase1RequestNextOutput(ui: Choices, ghost w: Model, ghost c: Outcome) returns (r: Reply)
      requires cfg == w.cfg && signing && w.alive && w.stage.Request3Output? && idx1 < cfg.outputsCount
      requires Where() == PlaceOf(w) && Accounts() == FundsOf(w) && txWeight == w.weight
      requires Finals() == DigestsOf(w) && hasher0 == PrintOuts(Bins(w.p1.shown)) && c == Phase1NextOutput(w, ui)
      modifies `signing, `stage, `idx1, `idx2, `hashOutputs
      ensures [r] == c.replies && signing == c.m.alive
      ensures signing ==> Where() == PlaceOf(c.m) && Accounts() == FundsOf(c.m) && Holding() == HeldOf(c.m)
      ensures c.m.cfg == w.cfg && c.m.p1 == w.p1 && c.m.wire == w.wire && c.m.weight == w.weight
    {
      hide Finals, DigestsOf, Total, TotalClaimed, TotalCharged, TotalShown, PrintOuts, Bins, MaxFee, PassOf,
           SigningPass, Previous, PrevOf;
      SameDigests(w, c.m);
      if idx1 < cfg.outputsCount - 1 {
        idx1 := idx1 + 1;
        r := TxRequest(ReqOutput(idx1), NOTHING);
      } else {
        hashOutputs := cfg.env.hash(hasher0);
        ghost var h := w.Hashing({PrintOuts(Bins(w.p1.shown))});
        var refused := CheckFee(ui, h);
        if refused.Some? {
          r := SigningAbort(refused.value);
        } else {
          idx1 := 0;
          SameDigests(w, h.(idx1 := 0));
          r := Phase2RequestNextInput(NOTHING, h.(idx1 := 0), c);
        }
      }
    }

    /** `signing_check_output`: None and the output as shown, or the reason for ending the session. */
    method CheckOutput(o: TxOutput, ui: Choices, ghost m: Model) returns (refused: Option<FailureKind>, ghost s: Shown)
      requires cfg == m.cfg && FpAll(cfg.env, m.p1.seen) && Some(Shared()) == SharedOf(cfg.env, m.p1.seen)
      requires Accounts() == FundsOf(m) && hasher0 == PrintOuts(Bins(m.p1.shown)) && m.stage.Request3Output?
      modifies `spending, `changeSpend, `hasher0
      ensures Step3Output(m, o, ui)
           == if refused.Some? then Die(m, refused.value) else Phase1NextOutput(AddShown(m, s), ui)
      ensures refused == None ==> s.output == o && Accounts() == FundsOf(AddShown(m, s))
      ensures refused == None ==> hasher0 == PrintOuts(Bins(AddShown(m, s).p1.shown))
    {
      hide FpOf, FpAll, PathOf, Shared, TotalClaimed, TotalCharged, TotalShown, PrintOuts, PrintOut, Bins,
           IsChange, Phase1NextOutput;
      refused, s := None, Shown(o, TxOut(o.amount, []), false);
      if |o.addressN| > 0 && o.hasAddress {
        refused := Some(DataError);
      } else {
        var isChange := DetectChange(o, m, FpOf(cfg.env, m.p1.seen), PathOf(m.p1.seen));
        OverflowsWhenTooBig(spending, o.amount);
        if Overflows(spending, o.amount) {
          refused := Some(DataError);
        } else {
          spending := spending + o.amount;
          var compiled := cfg.env.compileOutput(o);
          if compiled == None {
            refused := Some(ProcessError);
          } else if !isChange && !ui.confirmOutput {
            refused := Some(ActionCancelled);
          } else {
            s := Shown(o, TxOut(o.amount, compiled.value), !isChange);
            ShownFacts(m, s, AddShown(m, s));
            hasher0 := hasher0 + PrintOut(TxOut(o.amount, compiled.value));
          }
        }
      }
    }

    /** STAGE_REQUEST_3_OUTPUT. */
    method Ack3Output(o: TxOutput, ui: Choices, ghost m: Model, ghost c: Outcome) returns (r: Reply)
      requires cfg == m.cfg && Follows(m) && signing && m.alive && m.stage.Request3Output? && idx1 < cfg.outputsCount
      requires FpAll(cfg.env, m.p1.seen) && c == Step3Output(m, o, ui)
      modifies `signing, `stage, `idx1, `idx2, `spending, `changeSpend, `hasher0, `txWeight, `hashOutputs
      ensures Took(c, r)
    {
      hide FpAll, WireOf, DigestsOf, Shared, Finals, SharedOf, FundsOf, Accounts, PrintOuts, Bins, Step3Output,
           Phase1NextOutput, Emitted;
      var refused, s := CheckOutput(o, ui, m);
      if refused.Some? {
        r := SigningAbort(refused.value);
      } else {
        txWeight := Add32(txWeight, cfg.env.outputWeight(o));
        SameDigests(m, AddShown(m, s));
        r := Phase1RequestNextOutput(ui, AddShown(m, s), c);
        SameWire(m, c.m);
      }
    }

    // ----------------------------------------- Phase 2, legacy signing passes

    /** `compile_input_script_sig`. */
    method CompileInputScriptSig(i: TxInput, ghost m: Model, ghost f: Fp, ghost p: AccountPath)
        returns (script: Option<Script>)
      requires cfg == m.cfg && FpAll(cfg.env, m.p1.seen) && f == FpOf(cfg.env, m.p1.seen) && p == PathOf(m.p1.seen)
      requires Shared() == CommonOf(f, p) && m.p1.seen != []
      ensures script == CompileInput(m, i)
    {
      FpOfAll(cfg.env, m.p1.seen);
      PathOfAll(m.p1.seen);
      hide FpOf, FpAll, PathOf;
      if !fpMismatch {
        if i.multisig.None? || cfg.env.fingerprint(i.multisig.value) != Some(fp) {
          return None;
        }
      }
      if inCount != NOCHANGEALLOWED {
        var count := |i.addressN|;
        if count < 2 || count != inCount || inPath != Account(i.addressN) {
          return None;
        }
      }
      if !cfg.env.derives(i.addressN) {
        return None;
      }
      if i.multisig.Some? {
        script := Some(cfg.env.multisigScript(i.multisig.value));
      } else {
        script := if cfg.addressTypeKnown
                  then Some([0x76, 0xA9, 0x14] + cfg.env.publicKeyHash(i.addressN) + [0x88, 0xAC]) else Some([]);
      }
      if script.value == [] {
        script := None;
      }
    }

    /** A pass starts over with its first input. */
    method StartPass(ghost pass: Pass, ghost first: Pass)
      requires first == if idx2 == 0 then Pass([], []) else pass
      requires idx2 > 0 ==> SigningPass() == PassOf(cfg, pass) && hasher0 == CheckPreimage(pass.ins)
      requires cfg.Valid() && (cfg.version == PREBLOCK_VERSION ==> preblockHash == cfg.preblock)
      modifies `hasher0, ti
      ensures SigningPass() == PassOf(cfg, first) && hasher0 == CheckPreimage(first.ins)
    {
      if idx2 == 0 {
        hide HashBody;
        PassStart(cfg);
        ti.Init(preblockHash, cfg.inputsCount, cfg.outputsCount, cfg.version, cfg.lockTime, 0);
        hasher0 := [];
      }
    }

    /** One more input of a pass, with the script it is hashed with; the serializer never refuses. */
    method AbsorbPassInput(i: TxInput, ghost pass: Pass)
      requires SigningPass() == PassOf(cfg, pass) && pass.outs == [] && |pass.ins| < cfg.inputsCount
      modifies ti`hasher, ti`haveInputs
      ensures SigningPass() == PassOf(cfg, Pass(pass.ins + [i], []))
    {
      hide HashBody, HashHeader, InputChunk;
      PassInputBytes(cfg, pass.ins, i);
      var ok := ti.SerializeInputHash(i.Wire());
      assert ok;
    }

    /** Behind an input of a pass: the next one, or the comparison with Phase 1. */
    method RequestNextPassInput(ghost w: Model, ghost c: Outcome) returns (r: Reply)
      requires cfg == w.cfg && signing && w.alive && w.stage.Request4Input? && idx2 < cfg.inputsCount
      requires Where() == PlaceOf(w) && Finals() == DigestsOf(w) && hashOutputs == OutputsDigestOf(w)
      requires hasher0 == CheckPreimage(w.pass.ins) && SigningPass() == PassOf(cfg, w.pass) && w.pass.outs == []
      requires |w.pass.ins| == idx2 + 1 && (idx1 <= idx2 ==> input == w.pass.ins[idx1]) && c == Phase2NextPassInput(w)
      modifies `signing, `stage, `idx2, `hasher0
      ensures [r] == c.replies && signing == c.m.alive
      ensures signing && idx1 < cfg.inputsCount ==> Where() == PlaceOf(c.m) && Holding() == HeldOf(c.m)
      ensures c.m.cfg == w.cfg && c.m.p1 == w.p1 && c.m.wire == w.wire && c.m.weight == w.weight
      ensures c.m.log.charges == w.log.charges && c.m.Pending() == 0
    {
      hide CheckPreimage, PassOf, SigningPass, OutputsDigestOf, PrintOut;
      SameDigests(w, c.m);
      if idx2 < cfg.inputsCount - 1 {
        idx2 := idx2 + 1;
        r := TxRequest(ReqInput(idx2), NOTHING);
      } else {
        var hash := cfg.env.hash(hasher0);
        if hash != hashCheck {
          r := SigningAbort(DataError);
        } else {
          hasher0 := [];
          idx2 := 0;
          stage := Request4Output;
          r := TxRequest(ReqOutput(0), NOTHING);
        }
      }
    }

    /** The script an input of a pass is hashed with, and the search for the next legacy input. */
    method PassInput(i: TxInput, ghost m: Model) returns (i': Option<TxInput>)
      requires cfg == m.cfg && Where() == PlaceOf(m) && FpAll(cfg.env, m.p1.seen) && m.p1.seen != []
      requires Some(Shared()) == SharedOf(cfg.env, m.p1.seen)
      modifies `nextNonsegwitInput, `input
      ensures i'.Some? ==> i'.value == i.(scriptSig := i'.value.scriptSig)
      ensures Step4Input(m, i) == if i' == None then Die(m, ProcessError)
        else Phase2NextPassInput(Passed(m, i'.value, nextNonsegwitInput))
      ensures input == if idx2 == idx1 && i'.Some? then i'.value else old(input)
      ensures nextNonsegwitInput == m.next || nextNonsegwitInput == idx2
    {
      hide FpOf, FpAll, PathOf, CompileInput, Phase2NextPassInput, Passed, Shared;
      if idx2 == idx1 {
        var script := CompileInputScriptSig(i, m, FpOf(cfg.env, m.p1.seen), PathOf(m.p1.seen));
        if script == None {
          return None;
        }
        input := i.(scriptSig := script.value);
        return Some(input);
      }
      if nextNonsegwitInput == idx1 && idx2 > idx1 && i.Legacy() {
        nextNonsegwitInput := idx2;
      }
      return Some(i.(scriptSig := []));
    }

    /** Starts or goes on with a pass: checksum, script, transaction hash. */
    method TakePassInput(i: TxInput, ghost m: Model, ghost first: Pass) returns (i': Option<TxInput>)
      requires Separate() && cfg == m.cfg && cfg.Valid() && Where() == PlaceOf(m) && m.stage.Request4Input?
      requires (cfg.version == PREBLOCK_VERSION ==> preblockHash == cfg.preblock) && FpAll(cfg.env, m.p1.seen)
      requires Some(Shared()) == SharedOf(cfg.env, m.p1.seen) && m.p1.seen != [] && idx2 < cfg.inputsCount
      requires first == if idx2 == 0 then Pass([], []) else m.pass
      requires idx2 > 0 ==> |m.pass.ins| == idx2 && m.pass.outs == []
      requires idx2 > 0 ==> SigningPass() == PassOf(cfg, m.pass) && hasher0 == CheckPreimage(m.pass.ins)
      modifies `nextNonsegwitInput, `input, `hasher0, ti
      ensures Step4Input(m, i) == if i' == None then Die(m, ProcessError)
        else Phase2NextPassInput(Passed(m, i'.value, nextNonsegwitInput))
      ensures i'.Some? ==> SigningPass() == PassOf(cfg, Pass(first.ins + [i'.value], []))
      ensures i'.Some? ==> hasher0 == CheckPreimage(first.ins + [i'.value])
      ensures input == if idx1 == idx2 && i'.Some? then i'.value else old(input)
    {
      hide FpOf, FpAll, PathOf, PassOf, SigningPass, Shared, CheckPreimage, SharedOf, Phase2NextPassInput, Step4Input,
           Passed;
      StartPass(m.pass, first);
      hasher0 := hasher0 + (PrintOutpoint(i.prevHash, i.prevIndex) + Le32(i.scriptType));
      i' := PassInput(i, m);
      if i'.Some? {
        AbsorbPassInput(i'.value, first);
        SnocPreimages(first.ins, i'.value);
      }
    }

    /** STAGE_REQUEST_4_INPUT. */
    method Ack4Input(i: TxInput, ghost m: Model, ghost c: Outcome, ghost first: Pass) returns (r: Reply)
      requires Separate() && cfg == m.cfg && cfg.Valid() && Follows(m) && signing && m.alive && m.stage.Request4Input?
      requires (cfg.version == PREBLOCK_VERSION ==> preblockHash == cfg.preblock) && FpAll(cfg.env, m.p1.seen)
      requires idx1 < cfg.inputsCount && idx2 < cfg.inputsCount && m.p1.seen != []
      requires (idx2 > 0 ==> |m.pass.ins| == idx2 && m.pass.outs == []) && c == Step4Input(m, i)
      requires first == if idx2 == 0 then Pass([], []) else m.pass
      modifies `signing, `stage, `idx2, `nextNonsegwitInput, `input, `hasher0, ti
      ensures Took(c, r)
    {
      hide FpAll, WireOf, FundsOf, Accounts, DigestsOf, PassOf, SigningPass, Shared, Finals, Emitted, CheckPreimage,
           OutputsDigestOf, SharedOf, Phase2NextPassInput, Step4Input;
      var taken := TakePassInput(i, m, first);
      if taken == None {
        r := SigningAbort(ProcessError);
      } else {
        ghost var w := Passed(m, taken.value, nextNonsegwitInput);
        SameDigests(m, w);
        r := RequestNextPassInput(w, c);
        SameWire(m, c.m);
        SameFunds(m, c.m);
      }
    }

    // ---------------------------------------------- serializing signed inputs

    /** `tx_serialize_input` for input idx1, and the way on to the next input or to the outputs. */
    method SerializeInput(i: TxInput, signature: Option<(nat, Signature)>, ghost w: Model, ghost c: Outcome)
      returns (r: Reply)
      requires cfg == w.cfg && Where() == PlaceOf(w) && Emitted() == WireOf(w) && |w.wire.ins| == idx1 < cfg.inputsCount
      requires Finals() == DigestsOf(w) && hashOutputs == OutputsDigestOf(w) && c == EmitInput(w, i, signature)
      modifies `stage, `idx1, `idx2, to`haveInputs
      ensures [r] == c.replies && Where() == PlaceOf(c.m) && Holding() == HeldOf(c.m) && Emitted() == WireOf(c.m)
      ensures c.m == w.(stage := c.m.stage, idx1 := c.m.idx1, idx2 := c.m.idx2, wire := c.m.wire)
      ensures c.m.Pending() == 0
    {
      hide DigestsOf, OutputsDigestOf, Finals, InputChunk, WireHeader, AnySegwit;
      var chunk := to.SerializeInput(i.Wire());
      var s := Serialized(signature, Some(chunk));
      ghost var e := w.(wire := w.wire.(ins := w.wire.ins + [i.Wire()], emitted := w.wire.emitted + chunk));
      SameDigests(w, c.m);
      if idx1 < cfg.inputsCount - 1 {
        idx1 := idx1 + 1;
        SameDigests(w, e.(idx1 := w.idx1 + 1));
        r := Phase2RequestNextInput(s, e.(idx1 := w.idx1 + 1), c);
      } else {
        idx1 := 0;
        stage := Request5Output;
        r := TxRequest(ReqOutput(0), s);
      }
    }

    /** `signing_sign_input`: the comparison with Phase 1, the signature over the pass, the serialized input. */
    method SignInput(ghost w: Model, ghost c: Outcome) returns (r: Reply)
      requires cfg == w.cfg && signing && w.alive && Where() == PlaceOf(w) && Emitted() == WireOf(w)
      requires |w.wire.ins| == idx1 < cfg.inputsCount && idx1 < |w.pass.ins| && input == w.pass.ins[idx1]
      requires Finals() == DigestsOf(w) && hashOutputs == OutputsDigestOf(w)
      requires hasher0 == PrintOuts(w.pass.outs) && SigningPass() == PassOf(cfg, w.pass) && c == SignLegacy(w)
      modifies `signing, `stage, `idx1, `idx2, to`haveInputs
      ensures [r] == c.replies && signing == c.m.alive
      ensures signing ==> Where() == PlaceOf(c.m) && Holding() == HeldOf(c.m) && Emitted() == WireOf(c.m)
      ensures c.m.cfg == w.cfg && c.m.p1 == w.p1 && c.m.weight == w.weight && c.m.log.charges == w.log.charges
      ensures c.m.alive ==> c.m.Pending() == 0
    {
      hide DigestsOf, Finals, InputChunk, HashBody, PrintOuts, WireOf, HeldOf, Holding, EmitInput, FillSignature;
      PassPreimage(w);
      var hash := cfg.env.hash(hasher0);
      if hash != hashOutputs {
        r := SigningAbort(DataError);
      } else {
        var preimage := ti.hasher + Le32(cfg.HashType());
        var signature := cfg.env.sign(input.addressN, cfg.env.hash(preimage));
        if signature == None {
          r := SigningAbort(ProcessError);
        } else {
          var filled := FillSignature(cfg, input, signature.value);
          if filled == None {
            r := SigningAbort(FillFailure(cfg, input));
          } else {
            SameWire(w, Recorded(w));
            SameDigests(w, Recorded(w));
            r := SerializeInput(filled.value, Some((idx1, signature.value)), Recorded(w), c);
          }
        }
      }
    }

    /** One more output of a pass; the serializer never refuses. */
    method AbsorbPassOutput(o: TxOut, ghost pass: Pass)
      requires SigningPass() == PassOf(cfg, pass) && hasher0 == PrintOuts(pass.outs)
      requires |pass.ins| == cfg.inputsCount && |pass.outs| < cfg.outputsCount
      modifies `hasher0, ti`hasher, ti`haveOutputs
      ensures SigningPass() == PassOf(cfg, pass.(outs := pass.outs + [o])) && hasher0 == PrintOuts(pass.outs + [o])
    {
      hide HashBody, OutputChunk, PrintOuts, PrintOut;
      SnocOut(pass.outs, o);
      PassOutputBytes(cfg, pass, o);
      hasher0 := hasher0 + PrintOut(o);
      var ok := ti.SerializeOutputHash(o);
      assert ok;
    }

    /** STAGE_REQUEST_4_OUTPUT. */
    method Ack4Output(o: TxOutput, ghost m: Model, ghost c: Outcome) returns (r: Reply)
      requires Separate() && cfg == m.cfg && Follows(m) && signing && m.alive && m.stage.Request4Output?
      requires |m.pass.ins| == cfg.inputsCount && |m.pass.outs| == idx2 < cfg.outputsCount
      requires |m.wire.ins| == idx1 < cfg.inputsCount && c == Step4Output(m, o)
      modifies `signing, `stage, `idx1, `idx2, `hasher0, ti`hasher, ti`haveOutputs, to`haveInputs
      ensures Took(c, r)
    {
      hide WireOf, FundsOf, Accounts, DigestsOf, Finals, Shared, SharedOf, PrintOuts, SignLegacy, OutputsDigestOf,
           Emitted, SigningPass, PassOf;
      var compiled := cfg.env.compileOutput(o);
      if compiled == None {
        r := SigningAbort(ProcessError);
      } else {
        var bin := TxOut(o.amount, compiled.value);
        ghost var w := m.(pass := m.pass.(outs := m.pass.outs + [bin]));
        SameDigests(m, w);
        SameWire(m, w);
        AbsorbPassOutput(bin, m.pass);
        if idx2 < cfg.outputsCount - 1 {
          idx2 := idx2 + 1;
          r := TxRequest(ReqOutput(idx2), NOTHING);
          SameDigests(m, c.m);
          SameWire(m, c.m);
          SameFunds(m, c.m);
        } else {
          r := SignInput(w, c);
          if signing {
            SameFunds(m, c.m);
          }
        }
      }
    }

    // ------------------------------------------------------- BIP-143 signing

    /** `signing_hash_bip143`: what is absorbed, from the digests of Phase 1. */
    method HashBip143(i: TxInput, ghost m: Model) returns (h: Bytes)
      requires cfg == m.cfg && Finals() == DigestsOf(m) && hashOutputs == OutputsDigestOf(m)
      ensures h == Bip143Preimage(m, i)
    {
      hide PrevoutsPreimage, SequencesPreimage, CheckPreimage, PrintOuts, Bins, PrintOutpoint, PrintScript, Le32, Le64;
      h := Le32(cfg.version);
      h := h + hashPrevouts;
      h := h + hashSequence;
      h := h + PrintOutpoint(i.prevHash, i.prevIndex);
      h := h + PrintScript(i.scriptSig);
      h := h + Le64(i.amount);
      h := h + Le32(i.sequence);
      h := h + hashOutputs;
      h := h + Le32(cfg.lockTime);
      h := h + Le32(cfg.HashType());
    }

    /** The two BIP-143 sites: compile, check and charge the amount, sign, fill in. */
    method SignSegwit(i: TxInput, ghost m: Model, ghost s: Signing143)
      returns (refused: Option<FailureKind>, signed: TxInput, sig: Signature)
      requires cfg == m.cfg && FpAll(cfg.env, m.p1.seen) && m.p1.seen != [] && s == Sign143(m, i)
      requires Some(Shared()) == SharedOf(cfg.env, m.p1.seen) && authorizedAmount == m.Authorized() && idx1 == m.idx1
      requires Finals() == DigestsOf(m) && hashOutputs == OutputsDigestOf(m)
      modifies `authorizedAmount
      ensures s.Refused? ==> refused == Some(s.kind)
      ensures s.Signed143? ==> refused == None && signed == s.input && sig == s.sig
      ensures s.Signed143? ==> authorizedAmount == Charged(m, [s.charge]).Authorized()
    {
      hide FpOf, FpAll, PathOf, CompileInput, Shared, Finals, DigestsOf, OutputsDigestOf, FillSignature, Bip143Preimage,
           TotalClaimed, TotalCharged;
      signed, sig := i, [];
      var script := CompileInputScriptSig(i, m, FpOf(cfg.env, m.p1.seen), PathOf(m.p1.seen));
      if script == None {
        refused := Some(ProcessError);
      } else if i.amount > authorizedAmount {
        refused := Some(DataError);
      } else {
        authorizedAmount := authorizedAmount - i.amount;
        signed := i.(scriptSig := script.value);
        var preimage := HashBip143(signed, m);
        SnocCharge(m.log.charges, Charge(m.idx1, i.amount, preimage));
        var signature := cfg.env.sign(i.addressN, cfg.env.hash(preimage));
        if signature == None {
          refused := Some(ProcessError);
        } else {
          sig := signature.value;
          var filled := FillSignature(cfg, signed, sig);
          if filled == None {
            refused := Some(FillFailure(cfg, signed));
          } else {
            refused := None;
            signed := filled.value;
          }
        }
      }
    }

    /** The script of a P2SH-wrapped witness program. */
    method P2shScript(i: TxInput, ghost m: Model) returns (script: Option<Script>)
      requires cfg == m.cfg && FpAll(cfg.env, m.p1.seen) && m.p1.seen != []
      requires Some(Shared()) == SharedOf(cfg.env, m.p1.seen)
      ensures script == P2shWitnessScript(m, i)
    {
      hide FpOf, FpAll, PathOf, Shared, CompileInput;
      if i.multisig.None? {
        script := CompileInputScriptSig(i, m, FpOf(cfg.env, m.p1.seen), PathOf(m.p1.seen));
        if script.Some? {
          script := if |script.value| < 0x17 then None else Some([0x16, 0x00] + script.value[2..0x17]);
        }
      } else {
        var h := cfg.env.multisigScriptHash(i.multisig.value);
        script := if h == None then None else Some([0x22, 0x00, 0x20] + h.value);
      }
    }

    /** STAGE_REQUEST_SEGWIT_INPUT. */
    method AckSegwitInput(i: TxInput, ghost m: Model, ghost c: Outcome) returns (r: Reply)
      requires cfg == m.cfg && Follows(m) && signing && m.alive && m.stage.RequestSegwitInput?
      requires FpAll(cfg.env, m.p1.seen) && m.p1.seen != [] && |m.wire.ins| == idx1 < cfg.inputsCount
      requires c == StepSegwitInput(m, i)
      modifies `signing, `stage, `idx1, `idx2, `authorizedAmount, to`haveInputs
      ensures Took(c, r)
    {
      hide FpOf, FpAll, PathOf, WireOf, DigestsOf, Finals, Shared, SharedOf, OutputsDigestOf, Emitted, EmitInput,
           Sign143, P2shWitnessScript, Total, TotalClaimed, TotalCharged, TotalShown;
      if i.Legacy() {
        if !cfg.forceBip143 {
          r := SigningAbort(DataError);
        } else {
          ghost var s := Sign143(m, i);
          var refused, signed, sig := SignSegwit(i, m, s);
          if refused.Some? {
            r := SigningAbort(refused.value);
          } else {
            SameWire(m, Charged(m, [s.charge]));
            SameDigests(m, Charged(m, [s.charge]));
            r := SerializeInput(signed, Some((idx1, sig)), Charged(m, [s.charge]), c);
          }
        }
      } else {
        var script := Some([]);
        if i.scriptType == SPENDP2SHWITNESS {
          script := P2shScript(i, m);
        }
        if script == None {
          r := SigningAbort(ProcessError);
        } else {
          r := SerializeInput(i.(scriptSig := script.value), None, m, c);
        }
      }
    }

    // ------------------------------------------------------ outputs, witnesses

    /** `tx_serialize_output` for output idx1, and the way on: next output, witnesses, or the end. */
    method SerializeOut(bin: TxOut, ghost m: Model, ghost c: Outcome) returns (r: Reply)
      requires cfg == m.cfg && signing && m.alive && m.stage.Request5Output? && Where() == PlaceOf(m)
      requires Emitted() == WireOf(m) && Holding() == HeldOf(m)
      requires |m.wire.ins| == cfg.inputsCount && |m.wire.outs| == idx1 < cfg.outputsCount && c == EmitOutput(m, bin)
      modifies `signing, `stage, `idx1, to`haveOutputs
      ensures [r] == c.replies && signing == c.m.alive
      ensures signing ==> Where() == PlaceOf(c.m) && Emitted() == WireOf(c.m) && Holding() == HeldOf(c.m)
      ensures c.m.cfg == m.cfg && c.m.p1 == m.p1 && c.m.weight == m.weight && c.m.log == m.log && c.m.Pending() == 0
    {
      hide DigestsOf, Finals, OutputsDigestOf, OutputChunk, AnySegwit, WireFooter;
      SameDigests(m, c.m);
      var chunk := to.SerializeOutput(bin);
      var s := Serialized(None, Some(chunk));
      if idx1 < cfg.outputsCount - 1 {
        idx1 := idx1 + 1;
        r := TxRequest(ReqOutput(idx1), s);
      } else if to.isSegwit {
        idx1 := 0;
        stage := RequestSegwitWitness;
        r := TxRequest(ReqInput(0), s);
      } else {
        signing := false;
        r := TxRequest(ReqFinished, s);
      }
    }

    /** STAGE_REQUEST_5_OUTPUT. */
    method Ack5Output(o: TxOutput, ghost m: Model, ghost c: Outcome) returns (r: Reply)
      requires cfg == m.cfg && Follows(m) && signing && m.alive && m.stage.Request5Output?
      requires |m.wire.ins| == cfg.inputsCount && |m.wire.outs| == idx1 < cfg.outputsCount && c == Step5Output(m, o)
      modifies `signing, `stage, `idx1, to`haveOutputs
      ensures Took(c, r)
    {
      hide FundsOf, Accounts, Shared, SharedOf, Where, PlaceOf, WireOf, Emitted, Holding, HeldOf, EmitOutput;
      var compiled := cfg.env.compileOutput(o);
      if compiled == None {
        r := SigningAbort(ProcessError);
      } else {
        r := SerializeOut(TxOut(o.amount, compiled.value), m, c);
        SameFunds(m, c.m);
      }
    }

    /** The witness field; the number of items is filled in behind the loop. */
    method BuildWitness(i: TxInput, sig: Signature) returns (field: Bytes)
      ensures field == Witness(cfg, i, sig)
    {
      var sighash := cfg.SighashByte();
      match i.multisig {
        case Some(ms) =>
          var items: Bytes := [];
          var nwitnesses := 2;
          for k := 0 to |ms.signatures|
            invariant items == WitnessSignatures(ms.signatures[..k], sighash)
            invariant nwitnesses == 2 + CountFilled(ms.signatures[..k])
          {
            hide PrintScript;
            assert ms.signatures[..k + 1][..k] == ms.signatures[..k];
            if |ms.signatures[k]| != 0 {
              nwitnesses := nwitnesses + 1;
              items := items + PrintScript(ms.signatures[k] + [sighash]);
            }
          }
          assert ms.signatures[..|ms.signatures|] == ms.signatures;
          field := [nwitnesses, 0] + items + PrintScript(cfg.env.multisigScript(ms));
        case None =>
          field := Varint.Encode(2) + PrintScript(sig + [sighash]) + PrintScript(cfg.env.publicKey(i.addressN));
      }
    }

    /** Behind a witness: the footer after the last one, and the way on. */
    method SerializeWitness(field: Bytes, signature: Option<(nat, Signature)>, ghost w: Model, ghost c: Outcome)
      returns (r: Reply)
      requires cfg == w.cfg && signing && w.alive && Where() == PlaceOf(w) && w.stage.RequestSegwitWitness?
      requires Emitted() == WireOf(w) && idx1 < cfg.inputsCount && c == EmitWitness(w, field, signature)
      requires Holding() == HeldOf(w)
      modifies `signing, `idx1
      ensures [r] == c.replies && signing == c.m.alive
      ensures signing ==> Where() == PlaceOf(c.m) && Holding() == HeldOf(c.m) && Emitted() == WireOf(c.m)
      ensures c.m.stage == w.stage && c.m.cfg == w.cfg && c.m.p1 == w.p1 && c.m.weight == w.weight && c.m.log == w.log
    {
      hide DigestsOf, Finals, OutputsDigestOf, AnySegwit, Le32;
      SameDigests(w, c.m);
      var last := idx1 == cfg.inputsCount - 1;
      var chunk := field + (if last then Le32(to.lockTime) + Le32(1) else []);
      var s := Serialized(signature, Some(chunk));
      if last {
        signing := false;
        r := TxRequest(ReqFinished, s);
      } else {
        idx1 := idx1 + 1;
        r := TxRequest(ReqInput(idx1), s);
      }
    }

    /** STAGE_REQUEST_SEGWIT_WITNESS, with `signing_sign_segwit_input`. */
    method AckSegwitWitness(i: TxInput, ghost m: Model, ghost c: Outcome) returns (r: Reply)
      requires cfg == m.cfg && Follows(m) && signing && m.alive && m.stage.RequestSegwitWitness?
      requires FpAll(cfg.env, m.p1.seen) && m.p1.seen != [] && idx1 < cfg.inputsCount && c == StepSegwitWitness(m, i)
      modifies `signing, `idx1, `authorizedAmount
      ensures Took(c, r)
    {
      hide FpOf, FpAll, PathOf, WireOf, DigestsOf, Finals, Shared, SharedOf, OutputsDigestOf, Emitted, EmitWitness,
           Sign143, Witness, Total, TotalClaimed, TotalCharged, TotalShown;
      if i.Segwit() {
        ghost var s := Sign143(m, i);
        var refused, signed, sig := SignSegwit(i, m, s);
        if refused.Some? {
          r := SigningAbort(refused.value);
        } else {
          SameWire(m, Charged(m, [s.charge]));
          SameDigests(m, Charged(m, [s.charge]));
          var field := BuildWitness(signed, sig);
          r := SerializeWitness(field, Some((idx1, sig)), Charged(m, [s.charge]), c);
        }
      } else {
        r := SerializeWitness([0], None, m, c);
      }
    }

    // ------------------------------------------------------------ dispatch

    method Dispatch1(a: Ack, ui: Choices, ghost m: Model, ghost c: Outcome) returns (r: seq<Reply>)
      requires Separate() && cfg == m.cfg && Follows(m) && signing && m.alive && stage == m.stage && idx1 == m.idx1
      requires Ready(m) && Shape(m) && c == Step(m, a, ui)
      requires (stage.Request1Input? && Accounts() == FundsOf(m)) || stage.Request2PrevMeta? || stage.Request2PrevInput?
      modifies this, tp, to
      ensures r == c.replies && signing == c.m.alive && (signing ==> Follows(c.m))
      ensures Kept(old(cfg), old(preblockHash)) && Steady(old(begun), old(host))
    {
      hide Shape, FpOf, FpAll, Credit1, Step2PrevMeta, Step2PrevInput, Follows, WithInput, FpAccepts;
      if stage.Request1Input? {
        FundsReady(m);
        r := Ack1Input(a.input, m, WithInput(m, a.input), Credit1(WithInput(m, a.input), a.input),
                       FpOf(cfg.env, m.p1.seen));
      } else if stage.Request2PrevMeta? {
        var reply := AckPrevMeta(a, m, c);
        r := [reply];
      } else {
        var reply := AckPrevInput(a.input, m, c);
        r := [reply];
      }
    }

    ghost predicate Steady(begun: bool, host: seq<(Ack, Choices)>)
      reads `begun, `host
    {
      this.begun == begun && this.host == host
    }

    /** Nothing below writes the session's setting. */
    ghost predicate Kept(cfg: Config, preblockHash: Hash32)
      reads `cfg, `preblockHash
    {
      this.cfg == cfg && this.preblockHash == preblockHash
    }

    method Dispatch2(a: Ack, ui: Choices, ghost m: Model, ghost c: Outcome) returns (r: Reply)
      requires Separate() && cfg == m.cfg && Follows(m) && signing && m.alive && stage == m.stage && idx1 == m.idx1
      requires Ready(m) && Shape(m) && c == Step(m, a, ui)
      requires stage.Request2PrevOutput? || stage.Request2PrevExtraData? || stage.Request3Output?
      modifies this, tp
      ensures Took(c, r) && Kept(old(cfg), old(preblockHash)) && Steady(old(begun), old(host))
    {
      hide Shape, FpAll, Step2PrevOutput, Step2PrevExtraData, Step3Output, Follows;
      if stage.Request2PrevOutput? {
        r := AckPrevOutput(a.binOutput, m, m.(prev := m.prev.(outs := m.prev.outs + [a.binOutput])), c);
      } else if stage.Request2PrevExtraData? {
        r := AckPrevExtraData(a.extraData, m, m.(prev := m.prev.(extra := m.prev.extra + a.extraData)), c);
      } else {
        r := Ack3Output(a.output, ui, m, c);
      }
    }

    method Dispatch3(a: Ack, ui: Choices, ghost m: Model, ghost c: Outcome) returns (r: Reply)
      requires Separate() && cfg == m.cfg && Follows(m) && signing && m.alive
      requires stage == m.stage && idx1 == m.idx1 && idx2 == m.idx2
      requires (cfg.version == PREBLOCK_VERSION ==> preblockHash == cfg.preblock) && cfg.Valid()
      requires Ready(m) && !Phase1(m) && Shape(m) && c == Step(m, a, ui)
      modifies this, to, ti
      ensures Took(c, r) && Kept(old(cfg), old(preblockHash)) && Steady(old(begun), old(host))
    {
      hide Shape, FpAll, Step4Input, Step4Output, StepSegwitInput, Step5Output, StepSegwitWitness, Follows;
      if stage.Request4Input? {
        r := Ack4Input(a.input, m, c, if m.idx2 == 0 then Pass([], []) else m.pass);
      } else if stage.Request4Output? {
        r := Ack4Output(a.output, m, c);
      } else if stage.RequestSegwitInput? {
        r := AckSegwitInput(a.input, m, c);
      } else if stage.Request5Output? {
        r := Ack5Output(a.output, m, c);
      } else {
        r := AckSegwitWitness(a.input, m, c);
      }
    }

    method Dispatch(a: Ack, ui: Choices, ghost m: Model, ghost c: Outcome) returns (r: seq<Reply>)
      requires Separate() && cfg == m.cfg && Follows(m) && signing && m.alive && cfg.Valid()
      requires cfg.version == PREBLOCK_VERSION ==> preblockHash == cfg.preblock
      requires Ready(m) && Shape(m) && c == Step(m, a, ui)
      modifies this, to, tp, ti
      ensures r == c.replies && signing == c.m.alive && (signing ==> Follows(c.m))
      ensures Kept(old(cfg), old(preblockHash)) && Steady(old(begun), old(host))
    {
      assert Where() == PlaceOf(m) && Accounts() == FundsOf(m);
      hide Follows, Ready, Step, Shape;
      if stage.Request1Input? || stage.Request2PrevMeta? || stage.Request2PrevInput? {
        r := Dispatch1(a, ui, m, c);
      } else if stage.Request2PrevOutput? || stage.Request2PrevExtraData? || stage.Request3Output? {
        var reply := Dispatch2(a, ui, m, c);
        r := [reply];
      } else {
        var reply := Dispatch3(a, ui, m, c);
        r := [reply];
      }
    }

    /** `signing_txack`: whatever the host sends, the registers follow the session that remembers everything. */
    method TxAck(a: Ack, ui: Choices) returns (r: seq<Reply>)
      requires Valid()
      modifies this, to, tp, ti
      ensures Valid()
      ensures m == Step(old(m), a, ui).m && r == Step(old(m), a, ui).replies
      ensures begun == old(begun) && (begun ==> host == old(host) + [(a, ui)])
    {
      hide Follows, Ready, Run, Shape, Step;
      ghost var c := Step(m, a, ui);
      Received(m, begun, host, a, ui, c);
      host := host + [(a, ui)];
      if !signing {
        r := [Failure(UnexpectedMessage)];
      } else {
        r := Receive(a, ui, m, c);
      }
    }

    method Receive(a: Ack, ui: Choices, ghost m0: Model, ghost c: Outcome) returns (r: seq<Reply>)
      requires Separate() && m0 == m && cfg == m.cfg && Follows(m) && signing && m.alive && cfg.Valid() && Ready(m)
      requires cfg.version == PREBLOCK_VERSION ==> preblockHash == cfg.preblock
      requires Shape(m) && c == Step(m, a, ui)
      modifies this, to, tp, ti
      ensures m == c.m && r == c.replies && signing == c.m.alive && (signing ==> Follows(c.m))
      ensures Kept(old(cfg), old(preblockHash)) && Steady(old(begun), old(host))
    {
      hide Follows, Ready, Shape, Step;
      r := Dispatch(a, ui, m0, c);
      m := c.m;
    }
  }
}

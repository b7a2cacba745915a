/**
 What the device's registers hold at each point of a signing session, as a function
 of the session that remembers everything, and how one more item changes it.
 */
module SigningRegisters {
  import opened Bytes
  import Varint
  import opened Transaction
  import opened SigningModel
  import opened SigningRuns
  import opened SigningLedger
  import opened SigningTheorems

  // ------------------------------------ what the registers say of a session

  datatype Place = Place(stage: Stage, idx1: nat, idx2: nat, next: nat)

  datatype Funds = Funds(toSpend: int, authorized: int, spending: nat, change: nat)

  /** The common fingerprint and account path; their buffers count only once filled. */
  datatype Common = Common(fpSet: bool, fpMismatch: bool, fp: Bytes, count: nat, path: seq<uint32>)

  datatype Stream = Stream(head: Header, ins: nat, outs: nat, absorbed: Bytes)

  datatype Digests = Digests(prevouts: Hash32, sequences: Hash32, check: Hash32)

  datatype Preimages = Preimages(prevouts: Bytes, sequences: Bytes, check: Bytes)

  /** The buffers in use, by stage. */
  datatype Held =
    | HeldInputs(hashed: Preimages)
    | HeldMeta(hashed: Preimages, input: Option<TxInput>)
    | HeldPrev(hashed: Preimages, input: Option<TxInput>, prev: Stream, extraLen: nat, received: nat)
    | HeldOutputs(digests: Digests, outputs: Bytes)
    | HeldPassStart(digests: Digests, outputsDigest: Hash32)
    | HeldPass(digests: Digests, outputsDigest: Hash32, absorbed: Bytes, pass: Stream, input: Option<TxInput>)

  function PlaceOf(m: Model): Place
  {
    Place(m.stage, m.idx1, m.idx2, m.next)
  }

  function FundsOf(m: Model): Funds
  {
    Funds(m.ToSpend(), m.Authorized(), Spending(m.p1.shown), TotalShown(m.p1.shown, false))
  }

  /** The funds between two inputs, when nothing is pending. */
  function Settled(m: Model): Funds
  {
    Funds(Total(m.p1.credits), m.Authorized(), Spending(m.p1.shown), TotalShown(m.p1.shown, false))
  }

  function CommonOf(f: Fp, p: AccountPath): Common
  {
    Common(f.isSet, f.mismatch, if f.isSet then f.value else [],
           p.count, if p.count > NOCHANGEALLOWED then p.prefix else [])
  }

  /** None when some fingerprint could not be computed. */
  function SharedOf(env: Env, seen: seq<TxInput>): Option<Common>
  {
    if FpAll(env, seen) then Some(CommonOf(FpOf(env, seen), PathOf(seen))) else None
  }

  function PreimagesOf(seen: seq<TxInput>): Preimages
  {
    Preimages(PrevoutsPreimage(seen), SequencesPreimage(seen), CheckPreimage(seen))
  }

  function DigestsOf(m: Model): Digests
  {
    var env := m.cfg.env;
    Digests(env.hash(PrevoutsPreimage(m.p1.seen)), env.hash(SequencesPreimage(m.p1.seen)),
            env.hash(CheckPreimage(m.p1.seen)))
  }

  function OutputsDigestOf(m: Model): Hash32
  {
    m.cfg.env.hash(PrintOuts(Bins(m.p1.shown)))
  }

  function WireOf(m: Model): Stream
  {
    Stream(WireHead(m), |m.wire.ins|, |m.wire.outs|, [])
  }

  function PrevOf(prev: PrevTx): Stream
  {
    Stream(prev.head, |prev.ins|, |prev.outs|, prev.Stream())
  }

  function PassOf(cfg: Config, pass: Pass): Stream
  {
    Stream(cfg.Head(false), |pass.ins|, |pass.outs|, HashBody(cfg.Head(false), Wires(pass.ins), pass.outs))
  }

  function At<T>(s: seq<T>, k: nat): Option<T>
  {
    if k < |s| then Some(s[k]) else None
  }

  function HeldOf(m: Model): Held
  {
    match m.stage
    case Request1Input => HeldInputs(PreimagesOf(m.p1.seen))
    case Request2PrevMeta => HeldMeta(PreimagesOf(m.p1.seen), At(m.p1.seen, m.idx1))
    case Request2PrevInput => HeldPrevOf(m)
    case Request2PrevOutput => HeldPrevOf(m)
    case Request2PrevExtraData => HeldPrevOf(m)
    case Request3Output => HeldOutputs(DigestsOf(m), PrintOuts(Bins(m.p1.shown)))
    case Request4Input =>
      if m.idx2 == 0 then HeldPassStart(DigestsOf(m), OutputsDigestOf(m))
      else HeldPassOf(m, CheckPreimage(m.pass.ins))
    case Request4Output => HeldPassOf(m, PrintOuts(m.pass.outs))
    case RequestSegwitInput => HeldPassStart(DigestsOf(m), OutputsDigestOf(m))
    case Request5Output => HeldPassStart(DigestsOf(m), OutputsDigestOf(m))
    case RequestSegwitWitness => HeldPassStart(DigestsOf(m), OutputsDigestOf(m))
  }

  function HeldPrevOf(m: Model): Held
  {
    HeldPrev(PreimagesOf(m.p1.seen), At(m.p1.seen, m.idx1), PrevOf(m.prev), m.prev.extraLen, m.prev.Received())
  }

  function HeldPassOf(m: Model, hashed: Bytes): Held
  {
    HeldPass(DigestsOf(m), OutputsDigestOf(m), hashed, PassOf(m.cfg, m.pass), At(m.pass.ins, m.idx1))
  }

  /** The emitted stream depends on the inputs of Phase 1 and on what was serialized. */
  lemma SameWire(a: Model, b: Model)
    requires b.cfg == a.cfg && b.p1.seen == a.p1.seen && b.wire == a.wire
    ensures WireOf(b) == WireOf(a)
  {
  }

  lemma SameDigests(a: Model, b: Model)
    requires b.cfg == a.cfg && b.p1.seen == a.p1.seen
    ensures DigestsOf(b) == DigestsOf(a)
    ensures b.p1.shown == a.p1.shown ==> OutputsDigestOf(b) == OutputsDigestOf(a)
  {
  }

  /** What the shape of a live session gives each stage. */
  ghost predicate Ready(m: Model)
  {
    && FpAll(m.cfg.env, m.p1.seen)
    && match m.stage
       case Request1Input => |m.p1.seen| == m.idx1 < m.cfg.inputsCount && m.p1.shown == [] && m.log.charges == []
       case Request2PrevMeta => |m.p1.seen| == m.idx1 + 1
       case Request2PrevInput =>
         && |m.p1.seen| == m.idx1 + 1 && |m.prev.ins| == m.idx2 < m.prev.head.inputsLen
         && m.prev.outs == [] && m.prev.extra == []
       case Request2PrevOutput =>
         && |m.p1.seen| == m.idx1 + 1 && m.idx1 < m.cfg.inputsCount && m.p1.shown == []
         && |m.prev.ins| == m.prev.head.inputsLen && |m.prev.outs| == m.idx2 < m.prev.head.outputsLen
         && m.prev.extra == [] && m.p1.seen[m.idx1].prevIndex < m.prev.head.outputsLen
       case Request2PrevExtraData =>
         && |m.p1.seen| == m.idx1 + 1 && m.idx1 < m.cfg.inputsCount && m.p1.shown == []
         && |m.prev.ins| == m.prev.head.inputsLen && |m.prev.outs| == m.prev.head.outputsLen
         && m.p1.seen[m.idx1].prevIndex < m.prev.head.outputsLen
       case Request3Output => m.idx1 < m.cfg.outputsCount
       case Request4Input =>
         && m.idx1 < m.cfg.inputsCount && m.idx2 < m.cfg.inputsCount && m.p1.seen != []
         && (m.idx2 > 0 ==> |m.pass.ins| == m.idx2 && m.pass.outs == [])
       case Request4Output =>
         && |m.pass.ins| == m.cfg.inputsCount && |m.pass.outs| == m.idx2 < m.cfg.outputsCount
         && |m.wire.ins| == m.idx1 < m.cfg.inputsCount
       case RequestSegwitInput => m.p1.seen != [] && |m.wire.ins| == m.idx1 < m.cfg.inputsCount
       case Request5Output => |m.wire.ins| == m.cfg.inputsCount && |m.wire.outs| == m.idx1 < m.cfg.outputsCount
       case RequestSegwitWitness => m.p1.seen != [] && m.idx1 < m.cfg.inputsCount
  }

  lemma ShapeReady(m: Model)
    requires Shape(m) && m.alive
    ensures Ready(m) && m.cfg.Valid()
  {
    hide FpAll, AnySegwit, Total, TotalClaimed, TotalCharged, TotalShown;
  }

  /** One message to a session reached by `host`, alive or not. */
  lemma Received(m: Model, begun: bool, host: seq<(Ack, Choices)>, a: Ack, ui: Choices, c: Outcome)
    requires Shape(m) && (begun ==> m == Run(m.cfg, host)) && c == Step(m, a, ui)
    ensures Shape(c.m) && c.m.cfg == m.cfg && m.cfg.Valid()
    ensures begun ==> c.m == Run(m.cfg, host + [(a, ui)])
    ensures !m.alive ==> c == Outcome(m, [Failure(UnexpectedMessage)])
    ensures m.alive ==> Ready(m)
  {
    StepKeepsShape(m, a, ui);
    StepConfig(m, a, ui);
    if begun {
      RunGrows(m.cfg, host, a, ui);
    }
    if m.alive {
      ShapeReady(m);
    }
  }

  /** Before anything is charged, what is authorized is part of what is spent. */
  lemma FundsReady(m: Model)
    requires m.stage.Request1Input? && m.log.charges == []
    ensures FundsOf(m).authorized <= FundsOf(m).toSpend && FundsOf(m) == Settled(m)
  {
    ClaimedWithinTotal(m.p1.credits);
  }

  // --------------------------------------------- running values, one item on

  lemma SnocPreimages(ins: seq<TxInput>, i: TxInput)
    ensures PrevoutsPreimage(ins + [i]) == PrevoutsPreimage(ins) + PrintOutpoint(i.prevHash, i.prevIndex)
    ensures SequencesPreimage(ins + [i]) == SequencesPreimage(ins) + Le32(i.sequence)
    ensures CheckPreimage(ins + [i]) == CheckPreimage(ins) + CheckChunk(i)
  {
    assert (ins + [i])[..|ins|] == ins;
  }

  lemma SnocPath(ins: seq<TxInput>, i: TxInput)
    ensures PathOf(ins + [i]) == PathNext(PathOf(ins), i.addressN)
  {
    assert (ins + [i])[..|ins|] == ins;
  }

  lemma SnocSegwit(ins: seq<TxInput>, i: TxInput)
    ensures AnySegwit(ins + [i]) == (AnySegwit(ins) || i.Segwit())
  {
    assert (ins + [i])[|ins|] == i;
    if AnySegwit(ins) {
      var k :| 0 <= k < |ins| && ins[k].Segwit();
      assert (ins + [i])[k].Segwit();
    }
  }

  lemma SnocWires(ins: seq<TxInput>, i: TxInput)
    ensures Wires(ins + [i]) == Wires(ins) + [i.Wire()]
  {
  }

  lemma SnocBins(shown: seq<Shown>, s: Shown)
    ensures Bins(shown + [s]) == Bins(shown) + [s.bin]
  {
  }

  ghost predicate Initial(w: Model)
  {
    && w.stage.Request1Input? && PlaceOf(w) == Place(Request1Input, 0, 0, NO_LEGACY) && FundsOf(w) == Funds(0, 0, 0, 0)
    && w.p1 == Phase1Log([], [], []) && WireOf(w) == Stream(w.cfg.Head(false), 0, 0, [])
    && w.weight == InitialWeight(w.cfg)
    && SharedOf(w.cfg.env, []) == Some(Common(false, false, [], 0, [])) && PreimagesOf([]) == Preimages([], [], [])
  }

  lemma InitialValues(cfg: Config, w: Model)
    requires cfg.Valid() && w == Init(cfg)
    ensures w.cfg == cfg && w.alive && Shape(w) && Initial(w)
  {
  }

  /** The code's test for a 64-bit sum that has wrapped around. */
  predicate Overflows(sum: uint64, amount: uint64)
  {
    (sum as int + amount as int) % TWO64 < sum
  }

  lemma OverflowsWhenTooBig(sum: uint64, amount: uint64)
    ensures Overflows(sum, amount) <==> sum as int + amount as int >= TWO64
  {
  }

  /** Moving on to the next input, or to the outputs, leaves the lists as they are. */
  lemma NextInputFacts(w: Model, n: Outcome)
    requires w.idx1 < w.cfg.inputsCount && n == Phase1NextInput(w)
    ensures n.m == w.(stage := n.m.stage, idx1 := n.m.idx1, log := w.log.(hashed := n.m.log.hashed))
    ensures if w.idx1 < w.cfg.inputsCount - 1
            then n.m.stage == Request1Input && n.m.idx1 == w.idx1 + 1
              && n.replies == [TxRequest(ReqInput(w.idx1 + 1), NOTHING)]
            else n.m.stage == Request3Output && n.m.idx1 == 0 && n.replies == [TxRequest(ReqOutput(0), NOTHING)]
  {
  }

  /** What one more input does to the running values of stage 1. */
  lemma WithInputFacts(env: Env, seen: seq<TxInput>, i: TxInput, f: Fp)
    requires FpAll(env, seen) && f == FpOf(env, seen)
    ensures AnySegwit(seen + [i]) == (AnySegwit(seen) || i.Segwit())
    ensures FpAccepts(env, f, i) ==>
      SharedOf(env, seen + [i]) == Some(CommonOf(FpNext(env, f, i), PathNext(PathOf(seen), i.addressN)))
  {
    if FpAccepts(env, f, i) {
      SnocFp(env, seen, i);
    }
    SnocPath(seen, i);
    SnocSegwit(seen, i);
  }

  lemma SameList(m: Model, i: TxInput, w: Model, c: Outcome)
    requires w == WithInput(m, i) && c == Credit1(w, i)
    ensures c.m.p1.seen == w.p1.seen && c.m.cfg == m.cfg
  {
  }

  lemma PassStart(cfg: Config)
    requires cfg.Valid()
    ensures PassOf(cfg, Pass([], [])) == Stream(cfg.Head(false), 0, 0, []) && CheckPreimage([]) == []
  {
    assert Wires([]) == [];
  }

  lemma PassInputBytes(cfg: Config, ins: seq<TxInput>, i: TxInput)
    requires |ins| < cfg.inputsCount
    ensures HashBody(cfg.Head(false), Wires(ins + [i]), [])
         == HashBody(cfg.Head(false), Wires(ins), []) + InputChunk(HashHeader(cfg.Head(false)), |ins|, i.Wire())
  {
    hide HashBody, HashHeader, InputChunk;
    SnocWires(ins, i);
    HashBodyInput(cfg.Head(false), Wires(ins), i.Wire());
  }

  lemma PassOutputBytes(cfg: Config, pass: Pass, o: TxOut)
    requires |pass.outs| < cfg.outputsCount
    ensures HashBody(cfg.Head(false), Wires(pass.ins), pass.outs + [o])
         == HashBody(cfg.Head(false), Wires(pass.ins), pass.outs)
            + OutputChunk(cfg.Head(false), |pass.outs|, o, Le32(cfg.lockTime))
  {
    hide HashBody, OutputChunk;
    HashBodyOutput(cfg.Head(false), Wires(pass.ins), pass.outs, o);
  }

  lemma PassPreimage(w: Model)
    ensures LegacyPreimage(w) == HashBody(w.cfg.Head(false), Wires(w.pass.ins), w.pass.outs) + Le32(w.cfg.HashType())
  {
    hide HashBody;
    assert HashBody(w.cfg.Head(false), Wires(w.pass.ins), w.pass.outs) + []
        == HashBody(w.cfg.Head(false), Wires(w.pass.ins), w.pass.outs);
  }

  /** One more output: the funds and the bytes absorbed. */
  lemma ShownFacts(m: Model, s: Shown, w: Model)
    requires w == AddShown(m, s) && m.stage.Request3Output?
    ensures FundsOf(w) == FundsOf(m).(spending := Spending(m.p1.shown) + s.bin.amount,
              change := TotalShown(m.p1.shown, false) + if s.confirmed then 0 else s.bin.amount)
    ensures PrintOuts(Bins(w.p1.shown)) == PrintOuts(Bins(m.p1.shown)) + PrintOut(s.bin)
    ensures DigestsOf(w) == DigestsOf(m)
  {
    hide Total, TotalClaimed, TotalCharged, PrintOut;
    SnocShown(m.p1.shown, s, true);
    SnocShown(m.p1.shown, s, false);
    SnocBins(m.p1.shown, s);
    SnocOut(Bins(m.p1.shown), s.bin);
  }

  lemma PrevInputFacts(prev: PrevTx, i: TxIn)
    requires |prev.ins| < prev.head.inputsLen && prev.outs == [] && prev.extra == []
    ensures prev.(ins := prev.ins + [i]).Stream()
         == prev.Stream() + InputChunk(HashHeader(prev.head), |prev.ins|, i)
  {
    HashBodyInput(prev.head, prev.ins, i);
  }

  lemma PrevOutputBytes(prev: PrevTx, o: TxOut)
    requires |prev.outs| < prev.head.outputsLen && prev.extra == []
    ensures prev.(outs := prev.outs + [o]).Stream()
         == prev.Stream() + OutputChunk(prev.head, |prev.outs|, o, Le32(prev.head.lockTime))
  {
    hide HashBody, OutputChunk;
    HashBodyOutput(prev.head, prev.ins, prev.outs, o);
  }

  /** One more output of the previous transaction: its amount counts if it is the one spent. */
  lemma PrevOutputAmount(m: Model, o: TxOut, w: Model, spent: nat)
    requires m.stage.Request2PrevOutput? && |m.p1.seen| == m.idx1 + 1 && |m.prev.outs| == m.idx2
    requires w == m.(prev := m.prev.(outs := m.prev.outs + [o])) && spent == m.p1.seen[m.idx1].prevIndex
    ensures FundsOf(w) == FundsOf(m).(toSpend := m.ToSpend() + if m.idx2 == spent then o.amount else 0)
    ensures m.idx2 == spent ==> m.ToSpend() == Total(m.p1.credits)
  {
    hide Total, TotalClaimed, TotalCharged, TotalShown;
  }

  lemma SameFunds(a: Model, b: Model)
    requires b.p1 == a.p1 && b.log.charges == a.log.charges && b.Pending() == a.Pending()
    ensures FundsOf(b) == FundsOf(a)
  {
    hide Total, TotalClaimed, TotalCharged, TotalShown;
  }

  lemma PrevExtraBytes(prev: PrevTx, data: Chunk)
    ensures prev.(extra := prev.extra + data).Stream() == prev.Stream() + data
    ensures prev.(extra := prev.extra + data).Received() == (prev.Received() as int + |data|) % TWO32
  {
    hide HashBody;
    AppendAssoc(HashBody(prev.head, prev.ins, prev.outs), prev.extra, data);
  }

  lemma PrevStart(head: Header, extraLen: uint32)
    ensures PrevTx(head, [], [], [], extraLen).Stream() == if head.inputsLen > 0 then [] else HashHeader(head)
  {
    hide HashHeader;
  }

  /** The session once the previous transaction has proved the amount. */
  function ProvenBy(w: Model): Model
    requires |w.p1.seen| == w.idx1 + 1 && w.p1.seen[w.idx1].prevIndex < |w.prev.outs|
  {
    w.Hashing({w.prev.Stream()}).Credited(Proven(w.prev.outs[w.p1.seen[w.idx1].prevIndex].amount, w.prev))
  }

  lemma CheckPrevTxFacts(w: Model, p: Model)
    requires |w.p1.seen| == w.idx1 + 1 && w.p1.seen[w.idx1].prevIndex < |w.prev.outs| && p == ProvenBy(w)
    requires w.stage.Request2PrevOutput? || w.stage.Request2PrevExtraData?
    ensures Total(p.p1.credits) == w.ToSpend() && p.Authorized() == w.Authorized()
    ensures p == w.(p1 := w.p1.(credits := p.p1.credits), log := w.log.(hashed := p.log.hashed))
  {
    SnocCredit(w.p1.credits, Proven(w.prev.outs[w.p1.seen[w.idx1].prevIndex].amount, w.prev));
  }
}

/**
 The streamed signing protocol of firmware/signing.c, told with lists.

 The device keeps running hashes, sums and indices; this machine keeps the
 inputs and outputs themselves. `SigningDevice.Signer` is proved to follow it,
 and the protocol's properties are proved about it.
 */
module SigningModel {
  import opened Bytes
  import Varint
  import opened Transaction

  // ------------------------------------------------------------- messages

  type Signature = s: Bytes | |s| <= 73
  type SmallScript = s: Bytes | |s| <= 1650
  type PublicKey = s: Bytes | |s| == 33 witness seq(33, _ => 0)
  type Hash20 = s: Bytes | |s| == 20 witness seq(20, _ => 0)
  type Chunk = s: Bytes | |s| <= 1024
  type Signatures = s: seq<Signature> | |s| <= 15

  datatype Multisig = Multisig(m: uint32, pubkeys: seq<Bytes>, signatures: Signatures)

  const SPENDADDRESS: uint32 := 0
  const SPENDMULTISIG: uint32 := 1
  const SPENDWITNESS: uint32 := 3
  const SPENDP2SHWITNESS: uint32 := 4

  const PAYTOWITNESS: uint32 := 4
  const PAYTOP2SHWITNESS: uint32 := 5

  datatype TxInput = TxInput(
    prevHash: Hash32, prevIndex: uint32, scriptSig: Script, sequence: uint32, scriptType: uint32,
    hasAmount: bool, amount: uint64, multisig: Option<Multisig>, addressN: seq<uint32>)
  {
    function Wire(): TxIn
    {
      TxIn(prevHash, prevIndex, scriptSig, sequence)
    }

    predicate Legacy()
    {
      scriptType == SPENDMULTISIG || scriptType == SPENDADDRESS
    }

    predicate Segwit()
    {
      scriptType == SPENDWITNESS || scriptType == SPENDP2SHWITNESS
    }
  }

  datatype TxOutput = TxOutput(
    amount: uint64, scriptType: uint32, hasAddress: bool, address: Bytes,
    multisig: Option<Multisig>, addressN: seq<uint32>, opReturnData: Bytes)

  /** One `TransactionType` message: the host fills whichever part it likes. */
  datatype Ack = Ack(
    input: TxInput, output: TxOutput, binOutput: TxOut,
    inputsCnt: uint32, outputsCnt: uint32, version: uint32, lockTime: uint32, preblock: Hash32,
    extraDataLen: uint32, extraData: Chunk)

  /** The buttons the user would press if asked while one message is handled. */
  datatype Choices = Choices(confirmOutput: bool, acceptHighFee: bool, confirmTx: bool)

  datatype Request =
    | ReqInput(index: nat)
    | ReqPrevMeta(txHash: Hash32)
    | ReqPrevInput(index: nat, txHash: Hash32)
    | ReqPrevOutput(index: nat, txHash: Hash32)
    | ReqPrevExtraData(offset: nat, len: nat, txHash: Hash32)
    | ReqOutput(index: nat)
    | ReqFinished

  datatype Serialized = Serialized(signature: Option<(nat, Signature)>, chunk: Option<Bytes>)

  const NOTHING := Serialized(None, None)

  datatype FailureKind = UnexpectedMessage | DataError | ProcessError | ActionCancelled | NotEnoughFunds

  datatype Reply = Failure(kind: FailureKind) | TxRequest(request: Request, serialized: Serialized)

  // ---------------------------------------------------------- environment

  /** What lies outside the model: hashing, key derivation, signing, script and address compilation. */
  datatype Env = Env(
    hash: Bytes -> Hash32,
    fingerprint: Multisig -> Option<Hash32>,
    derives: seq<uint32> -> bool,
    publicKey: seq<uint32> -> PublicKey,
    publicKeyHash: seq<uint32> -> Hash20,
    multisigScript: Multisig -> SmallScript,
    multisigScriptHash: Multisig -> Option<Hash32>,
    publicKeyIndex: (Multisig, seq<uint32>) -> Option<nat>,
    sign: (seq<uint32>, Hash32) -> Option<Signature>,
    compileOutput: TxOutput -> Option<Script>,
    inputWeight: TxInput -> uint32,
    outputWeight: TxOutput -> uint32)

  /** What `signing_init` takes from the host's SignTx message and the coin table. */
  datatype Config = Config(
    env: Env, inputsCount: uint32, outputsCount: uint32, version: uint32, lockTime: uint32, preblock: Hash32,
    hasSegwit: bool, forceBip143: bool, addressTypeKnown: bool, forkid: Option<uint32>, maxfeeKb: uint64)
  {
    /** The checks of the SignTx handler. */
    predicate Valid()
    {
      0 < inputsCount && 0 < outputsCount && inputsCount as int + outputsCount as int < TWO32
    }

    /** `signing_hash_type`; the shift drops what leaves 32 bits. */
    function HashType(): uint32
    {
      match forkid
      case None => 1
      case Some(id) => id as int * 256 % TWO32 + 0x41
    }

    function SighashByte(): byte
    {
      HashType() % 256
    }

    /** The header `tx_init` and the segwit flag give to a stream over this transaction. */
    function Head(segwit: bool): Header
    {
      Header(version, PreblockFor(version, preblock), segwit, inputsCount, outputsCount, lockTime)
    }
  }

  // -------------------------------------------------------- hash preimages

  function PrevoutsPreimage(ins: seq<TxInput>): Bytes
  {
    if |ins| == 0 then []
    else PrevoutsPreimage(ins[..|ins| - 1]) + PrintOutpoint(ins[|ins| - 1].prevHash, ins[|ins| - 1].prevIndex)
  }

  function SequencesPreimage(ins: seq<TxInput>): Bytes
  {
    if |ins| == 0 then [] else SequencesPreimage(ins[..|ins| - 1]) + Le32(ins[|ins| - 1].sequence)
  }

  /** What the checksum of Phase 1 absorbs for one input: its outpoint and its script type. */
  function CheckChunk(i: TxInput): (r: Bytes)
    ensures |r| == 40
  {
    PrintOutpoint(i.prevHash, i.prevIndex) + Le32(i.scriptType)
  }

  function CheckPreimage(ins: seq<TxInput>): Bytes
  {
    if |ins| == 0 then [] else CheckPreimage(ins[..|ins| - 1]) + CheckChunk(ins[|ins| - 1])
  }

  function Wires(ins: seq<TxInput>): (r: seq<TxIn>)
    ensures |r| == |ins|
  {
    seq(|ins|, k requires 0 <= k < |ins| => ins[k].Wire())
  }

  // ------------------------------------------------------- change detection

  /** Fingerprint common to the multisig inputs so far. */
  datatype Fp = Fp(isSet: bool, mismatch: bool, value: Bytes)

  predicate FpAccepts(env: Env, fp: Fp, i: TxInput)
  {
    i.multisig.Some? && !fp.mismatch ==> env.fingerprint(i.multisig.value).Some?
  }

  function FpNext(env: Env, fp: Fp, i: TxInput): Fp
    requires FpAccepts(env, fp, i)
  {
    if i.multisig.Some? && !fp.mismatch then
      var h := env.fingerprint(i.multisig.value).value;
      if fp.isSet then (if fp.value != h then fp.(mismatch := true) else fp)
      else fp.(isSet := true, value := h)
    else fp.(mismatch := true)
  }

  predicate FpAll(env: Env, ins: seq<TxInput>)
    decreases |ins|, 0
  {
    |ins| == 0
    || (FpAll(env, ins[..|ins| - 1]) && FpAccepts(env, FpOf(env, ins[..|ins| - 1]), ins[|ins| - 1]))
  }

  function FpOf(env: Env, ins: seq<TxInput>): Fp
    requires FpAll(env, ins)
    decreases |ins|, 1
  {
    if |ins| == 0 then Fp(false, false, [])
    else FpNext(env, FpOf(env, ins[..|ins| - 1]), ins[|ins| - 1])
  }

  /** The account path common to the inputs so far; count 1 is the marker for "no change allowed". */
  datatype AccountPath = AccountPath(count: nat, prefix: seq<uint32>)

  const NOCHANGEALLOWED: nat := 1
  const WALLET_DEPTH: nat := 2

  function Account(path: seq<uint32>): seq<uint32>
    requires WALLET_DEPTH <= |path|
  {
    path[..|path| - WALLET_DEPTH]
  }

  /** `extract_input_bip32_path`. */
  function PathNext(p: AccountPath, path: seq<uint32>): AccountPath
  {
    if p.count == NOCHANGEALLOWED then p
    else if |path| < WALLET_DEPTH then p.(count := NOCHANGEALLOWED)
    else if p.count == 0 then AccountPath(|path|, Account(path))
    else if p.count != |path| || p.prefix != Account(path) then p.(count := NOCHANGEALLOWED)
    else p
  }

  function PathOf(ins: seq<TxInput>): AccountPath
  {
    if |ins| == 0 then AccountPath(0, []) else PathNext(PathOf(ins[..|ins| - 1]), ins[|ins| - 1].addressN)
  }

  const CHANGE_CHAIN: uint32 := 1
  const MAX_LAST_ELEMENT: uint32 := 1000000

  /** `check_change_bip32_path`. */
  predicate ChangePath(p: AccountPath, path: seq<uint32>)
  {
    && WALLET_DEPTH <= |path|
    && |path| == p.count
    && p.prefix == Account(path)
    && path[|path| - 2] <= CHANGE_CHAIN
    && path[|path| - 1] <= MAX_LAST_ELEMENT
  }

  // ---------------------------------------------------------------- ledger

  /** A previous transaction as streamed by the host, with the extra data announced and received. */
  datatype PrevTx = PrevTx(head: Header, ins: seq<TxIn>, outs: seq<TxOut>, extra: Bytes, extraLen: uint32)
  {
    function Stream(): Bytes
    {
      HashStream(head, ins, outs, extra)
    }

    /** The 32-bit counter of received extra data. */
    function Received(): uint32
    {
      |extra| % TWO32
    }
  }

  const NO_PREV := PrevTx(Header(0, [], false, 0, 0, 0), [], [], [], 0)

  /**
   Why an amount counts as being spent: claimed and committed to by BIP-143, or read from the
   previous transaction.
   */
  datatype Credit = Claimed(amount: uint64) | Proven(amount: uint64, tx: PrevTx)

  function Total(credits: seq<Credit>): nat
  {
    if |credits| == 0 then 0 else Total(credits[..|credits| - 1]) + credits[|credits| - 1].amount
  }

  function TotalClaimed(credits: seq<Credit>): nat
  {
    if |credits| == 0 then 0
    else TotalClaimed(credits[..|credits| - 1])
         + (if credits[|credits| - 1].Claimed? then credits[|credits| - 1].amount else 0)
  }

  datatype Charge = Charge(index: nat, amount: uint64, preimage: Bytes)

  function TotalCharged(charges: seq<Charge>): nat
  {
    if |charges| == 0 then 0 else TotalCharged(charges[..|charges| - 1]) + charges[|charges| - 1].amount
  }

  /** An output of Phase 1, compiled, and whether the user was asked to confirm it. */
  datatype Shown = Shown(output: TxOutput, bin: TxOut, confirmed: bool)

  function Bins(shown: seq<Shown>): (r: seq<TxOut>)
    ensures |r| == |shown|
  {
    seq(|shown|, k requires 0 <= k < |shown| => shown[k].bin)
  }

  /** Sum of the outputs with the given confirmation status. */
  function TotalShown(shown: seq<Shown>, confirmed: bool): nat
  {
    if |shown| == 0 then 0
    else TotalShown(shown[..|shown| - 1], confirmed)
         + (if shown[|shown| - 1].confirmed == confirmed then shown[|shown| - 1].bin.amount else 0)
  }

  function Spending(shown: seq<Shown>): nat
  {
    TotalShown(shown, true) + TotalShown(shown, false)
  }

  // --------------------------------------------------------------- scripts

  function OpPush(n: uint32): (r: Bytes)
    ensures 1 <= |r| <= 5
  {
    if n < 0x4C then [n]
    else if n < 0x100 then [0x4C, n]
    else if n < 0x1_0000 then [0x4D] + Le16(n)
    else [0x4E] + Le32(n)
  }

  /** The non-empty signatures, each pushed by `push` with the sighash byte behind it. */
  function PushSignatures(sigs: seq<Signature>, sighash: byte): (r: Bytes)
    ensures |r| <= 79 * |sigs|
  {
    if |sigs| == 0 then []
    else
      var front := PushSignatures(sigs[..|sigs| - 1], sighash);
      var s := sigs[|sigs| - 1];
      if |s| == 0 then front else front + OpPush(|s| + 1) + s + [sighash]
  }

  /** `serialize_script_multisig`; empty when the redeem script cannot be compiled. */
  function MultisigScriptSig(env: Env, ms: Multisig, sighash: byte): Script
  {
    var script := env.multisigScript(ms);
    if script == [] then [] else [0] + PushSignatures(ms.signatures, sighash) + OpPush(|script|) + script
  }

  /** `serialize_script_sig`. */
  function SingleScriptSig(sig: Signature, key: PublicKey, sighash: byte): Script
  {
    OpPush(|sig| + 1) + sig + [sighash] + OpPush(33) + key
  }

  /** The witness items carried by the non-empty signatures. */
  function WitnessSignatures(sigs: seq<Signature>, sighash: byte): Bytes
  {
    if |sigs| == 0 then []
    else
      var front := WitnessSignatures(sigs[..|sigs| - 1], sighash);
      var s := sigs[|sigs| - 1];
      if |s| == 0 then front else front + PrintScript(s + [sighash])
  }

  function CountFilled(sigs: seq<Signature>): (n: nat)
    ensures n <= |sigs|
  {
    if |sigs| == 0 then 0
    else CountFilled(sigs[..|sigs| - 1]) + (if |sigs[|sigs| - 1]| == 0 then 0 else 1)
  }

  /** The witness field of BIP-144 for a signed input. */
  function Witness(cfg: Config, i: TxInput, sig: Signature): Bytes
  {
    match i.multisig
    case Some(ms) =>
      [2 + CountFilled(ms.signatures), 0]
      + WitnessSignatures(ms.signatures, cfg.SighashByte())
      + PrintScript(cfg.env.multisigScript(ms))
    case None =>
      Varint.Encode(2) + PrintScript(sig + [cfg.SighashByte()]) + PrintScript(cfg.env.publicKey(i.addressN))
  }

  /** `compile_input_script_sig`: refuses an input that no longer fits Phase 1. */
  function CompileInput(m: Model, i: TxInput): Option<Script>
    requires FpAll(m.cfg.env, m.p1.seen)
  {
    var fp := FpOf(m.cfg.env, m.p1.seen);
    var path := PathOf(m.p1.seen);
    if !fp.mismatch
       && (i.multisig.None? || m.cfg.env.fingerprint(i.multisig.value) != Some(fp.value)) then None
    else if path.count != NOCHANGEALLOWED
       && (|i.addressN| < 2 || |i.addressN| != path.count || path.prefix != Account(i.addressN)) then None
    else if !m.cfg.env.derives(i.addressN) then None
    else
      match i.multisig
      case Some(ms) => if m.cfg.env.multisigScript(ms) == [] then None else Some(m.cfg.env.multisigScript(ms))
      case None =>
        if m.cfg.addressTypeKnown
        then Some([0x76, 0xA9, 0x14] + m.cfg.env.publicKeyHash(i.addressN) + [0x88, 0xAC])
        else None
  }

  // ----------------------------------------------------------------- state

  datatype Stage =
    | Request1Input
    | Request2PrevMeta | Request2PrevInput | Request2PrevOutput | Request2PrevExtraData
    | Request3Output
    | Request4Input | Request4Output
    | RequestSegwitInput
    | Request5Output
    | RequestSegwitWitness

  /** A legacy signature: the input signed, the inputs and outputs of its pass, the bytes signed. */
  datatype LegacySig = LegacySig(index: nat, inputs: seq<TxInput>, outputs: seq<TxOut>, preimage: Bytes)

  const NO_LEGACY: nat := 0xffff_ffff

  /** What Phase 1 has established: its inputs, one credit per finished input, its outputs. */
  datatype Phase1Log = Phase1Log(seen: seq<TxInput>, credits: seq<Credit>, shown: seq<Shown>)

  /** The inputs and outputs of the current signing pass. */
  datatype Pass = Pass(ins: seq<TxInput>, outs: seq<TxOut>)

  /** Signatures produced, and every byte string whose hash was compared or signed. */
  datatype SignLog = SignLog(legacy: seq<LegacySig>, charges: seq<Charge>, hashed: set<Bytes>)

  /** What was serialized, and the concatenation of the serialized chunks. */
  datatype WireLog = WireLog(ins: seq<TxIn>, outs: seq<TxOut>, witnesses: seq<Bytes>, emitted: Bytes)

  datatype Model = Model(
    cfg: Config,
    alive: bool,
    stage: Stage, idx1: nat, idx2: nat,
    p1: Phase1Log,
    prev: PrevTx,     // the previous transaction being streamed
    next: nat,        // the next legacy input to sign
    weight: uint32,   // weight of the transaction so far, in 32 bits
    pass: Pass,
    log: SignLog,
    wire: WireLog)
  {
    function Authorized(): int
    {
      TotalClaimed(p1.credits) - TotalCharged(log.charges)
    }

    /** The amount already added for the input whose previous transaction is still being streamed. */
    function Pending(): nat
    {
      if (stage.Request2PrevOutput? || stage.Request2PrevExtraData?)
         && |p1.seen| > 0 && p1.seen[|p1.seen| - 1].prevIndex < |prev.outs|
      then prev.outs[p1.seen[|p1.seen| - 1].prevIndex].amount else 0
    }

    function ToSpend(): nat
    {
      Total(p1.credits) + Pending()
    }

    function At(stage: Stage, idx1: nat, idx2: nat): Model
    {
      this.(stage := stage, idx1 := idx1, idx2 := idx2)
    }

    function Hashing(preimages: set<Bytes>): Model
    {
      this.(log := log.(hashed := log.hashed + preimages))
    }

    function Credited(c: Credit): Model
    {
      this.(p1 := p1.(credits := p1.credits + [c]))
    }
  }

  function AnySegwit(ins: seq<TxInput>): bool
  {
    exists k :: 0 <= k < |ins| && ins[k].Segwit()
  }

  function WireHead(m: Model): Header
  {
    m.cfg.Head(AnySegwit(m.p1.seen))
  }

  function Add32(a: uint32, b: nat): uint32
  {
    (a as int + b) % TWO32
  }

  /** `tx_weight` at the start: four times the header, footer and counts. */
  function InitialWeight(cfg: Config): uint32
  {
    4 * (8 + |Varint.Encode(cfg.inputsCount)| + |Varint.Encode(cfg.outputsCount)|)
  }

  /** `tx_weight` after one more input; the first segwit input adds the marker and the witness counts. */
  function WeightWithInput(m: Model, i: TxInput): uint32
  {
    Add32(Add32(m.weight, m.cfg.env.inputWeight(i)),
          if i.Segwit() && !AnySegwit(m.p1.seen) then 2 + m.cfg.inputsCount as int else 0)
  }

  function WithInput(m: Model, i: TxInput): Model
  {
    m.(p1 := m.p1.(seen := m.p1.seen + [i]), weight := WeightWithInput(m, i))
  }

  function Init(cfg: Config): Model
  {
    Model(cfg, true, Request1Input, 0, 0, Phase1Log([], [], []), NO_PREV, NO_LEGACY,
          InitialWeight(cfg), Pass([], []),
          SignLog([], [], {}), WireLog([], [], [], []))
  }

  // ----------------------------------------------------------------- steps

  datatype Outcome = Outcome(m: Model, replies: seq<Reply>)

  function Die(m: Model, kind: FailureKind): Outcome
  {
    Outcome(m.(alive := false), [Failure(kind)])
  }

  function Ask(m: Model, request: Request, serialized: Serialized): Outcome
  {
    Outcome(m, [TxRequest(request, serialized)])
  }

  function Phase1NextInput(m: Model): Outcome
  {
    if m.idx1 < m.cfg.inputsCount - 1 then
      Ask(m.At(Request1Input, m.idx1 + 1, m.idx2), ReqInput(m.idx1 + 1), NOTHING)
    else
      Ask(m.Hashing({PrevoutsPreimage(m.p1.seen), SequencesPreimage(m.p1.seen), CheckPreimage(m.p1.seen)})
           .At(Request3Output, 0, m.idx2),
          ReqOutput(0), NOTHING)
  }

  /** Stage 1 once the input is in the running hashes: how its amount will be established. */
  function Credit1(m: Model, i: TxInput): Outcome
  {
    if i.Legacy() && !m.cfg.forceBip143 then
      Ask(m.(next := if m.next == NO_LEGACY then m.idx1 else m.next, stage := Request2PrevMeta),
          ReqPrevMeta(i.prevHash), NOTHING)
    else if !i.Legacy() && !i.Segwit() then Die(m, DataError)
    else if i.Segwit() && !m.cfg.hasSegwit then Die(m, DataError)
    else if !i.hasAmount then Die(m, DataError)
    else if Total(m.p1.credits) + i.amount >= TWO64 then Die(m, DataError)
    else Phase1NextInput(m.Credited(Claimed(i.amount)))
  }

  /** STAGE_REQUEST_1_INPUT; a failing fingerprint ends the session but the rest of the case still runs. */
  function Step1Input(m: Model, i: TxInput): Outcome
    requires FpAll(m.cfg.env, m.p1.seen)
  {
    var rest := Credit1(WithInput(m, i), i);
    if FpAccepts(m.cfg.env, FpOf(m.cfg.env, m.p1.seen), i) then rest
    else Outcome(m.(alive := false), [Failure(ProcessError)] + rest.replies)
  }

  function Step2PrevMeta(m: Model, a: Ack): Outcome
    requires |m.p1.seen| == m.idx1 + 1
  {
    var i := m.p1.seen[m.idx1];
    if a.outputsCnt <= i.prevIndex then Die(m, DataError)
    else if a.inputsCnt as int + a.outputsCnt as int >= TWO32 then Die(m, DataError)
    else
      var head := Header(a.version, PreblockFor(a.version, a.preblock), false, a.inputsCnt, a.outputsCnt, a.lockTime);
      var m' := m.(prev := PrevTx(head, [], [], [], a.extraDataLen));
      if a.inputsCnt > 0 then Ask(m'.At(Request2PrevInput, m.idx1, 0), ReqPrevInput(0, i.prevHash), NOTHING)
      else Ask(m'.At(Request2PrevOutput, m.idx1, 0), ReqPrevOutput(0, i.prevHash), NOTHING)
  }

  function Step2PrevInput(m: Model, i: TxInput): Outcome
    requires |m.p1.seen| == m.idx1 + 1
  {
    var txHash := m.p1.seen[m.idx1].prevHash;
    var m' := m.(prev := m.prev.(ins := m.prev.ins + [i.Wire()]));
    if m.idx2 < m.prev.head.inputsLen - 1 then
      Ask(m'.(idx2 := m.idx2 + 1), ReqPrevInput(m.idx2 + 1, txHash), NOTHING)
    else
      Ask(m'.At(Request2PrevOutput, m.idx1, 0), ReqPrevOutput(0, txHash), NOTHING)
  }

  function Min(a: nat, b: nat): nat
  {
    if a < b then a else b
  }

  /** `signing_check_prevtx_hash`: the credit is entered only when the streamed bytes hash to the previous hash. */
  function CheckPrevTx(m: Model): Outcome
    requires |m.p1.seen| == m.idx1 + 1 && m.p1.seen[m.idx1].prevIndex < |m.prev.outs|
  {
    var i := m.p1.seen[m.idx1];
    var m' := m.Hashing({m.prev.Stream()});
    if Reverse(m.cfg.env.hash(m.prev.Stream())) != i.prevHash then Die(m', DataError)
    else Phase1NextInput(m'.Credited(Proven(m.prev.outs[i.prevIndex].amount, m.prev)))
  }

  function Step2PrevOutput(m: Model, o: TxOut): Outcome
    requires |m.p1.seen| == m.idx1 + 1 && |m.prev.outs| == m.idx2 < m.prev.head.outputsLen
    requires m.p1.seen[m.idx1].prevIndex < m.prev.head.outputsLen
  {
    var i := m.p1.seen[m.idx1];
    var m' := m.(prev := m.prev.(outs := m.prev.outs + [o]));
    if m.idx2 == i.prevIndex && Total(m.p1.credits) + o.amount >= TWO64 then Die(m', DataError)
    else if m.idx2 < m.prev.head.outputsLen - 1 then
      Ask(m'.(idx2 := m.idx2 + 1), ReqPrevOutput(m.idx2 + 1, i.prevHash), NOTHING)
    else if m.prev.extraLen > 0 then
      Ask(m'.(stage := Request2PrevExtraData),
          ReqPrevExtraData(0, Min(1024, m.prev.extraLen), i.prevHash), NOTHING)
    else CheckPrevTx(m')
  }

  function Step2PrevExtraData(m: Model, data: Chunk): Outcome
    requires |m.p1.seen| == m.idx1 + 1 && m.p1.seen[m.idx1].prevIndex < |m.prev.outs|
  {
    if |data| == 0 || (m.prev.Received() as int + |data|) % TWO32 > m.prev.extraLen then Die(m, ProcessError)
    else
      var m' := m.(prev := m.prev.(extra := m.prev.extra + data));
      if m'.prev.Received() < m.prev.extraLen then
        Ask(m', ReqPrevExtraData(m'.prev.Received(), Min(1024, m.prev.extraLen - m'.prev.Received()),
                                 m.p1.seen[m.idx1].prevHash), NOTHING)
      else CheckPrevTx(m')
  }

  /** Whether `signing_check_output` lets an output skip confirmation. */
  predicate IsChange(m: Model, o: TxOutput)
    requires FpAll(m.cfg.env, m.p1.seen)
  {
    var fp := FpOf(m.cfg.env, m.p1.seen);
    && |o.addressN| > 0
    && (o.multisig.Some? ==>
          fp.isSet && !fp.mismatch && m.cfg.env.fingerprint(o.multisig.value) == Some(fp.value))
    && ChangePath(PathOf(m.p1.seen), o.addressN)
    && !((o.scriptType == PAYTOWITNESS || o.scriptType == PAYTOP2SHWITNESS) && o.amount > m.Authorized())
    && TotalShown(m.p1.shown, false) == 0
  }

  /** The threshold of `signing_check_fee`, with its 64-bit product. */
  function MaxFee(m: Model): nat
  {
    m.weight as int * m.cfg.maxfeeKb as int % TWO64 / 4000
  }

  function Phase2NextInput(m: Model, s: Serialized): Outcome
  {
    if m.idx1 == m.next then Ask(m.At(Request4Input, m.idx1, 0), ReqInput(0), s)
    else Ask(m.At(RequestSegwitInput, m.idx1, m.idx2), ReqInput(m.idx1), s)
  }

  function CheckFee(m: Model, ui: Choices): Outcome
  {
    if Spending(m.p1.shown) > Total(m.p1.credits) then Die(m, NotEnoughFunds)
    else if Total(m.p1.credits) - Spending(m.p1.shown) > MaxFee(m) && !ui.acceptHighFee then Die(m, ActionCancelled)
    else if !ui.confirmTx then Die(m, ActionCancelled)
    else Phase2NextInput(m.(idx1 := 0), NOTHING)
  }

  function AddShown(m: Model, s: Shown): Model
  {
    m.(p1 := m.p1.(shown := m.p1.shown + [s]),
       weight := Add32(m.weight, m.cfg.env.outputWeight(s.output)))
  }

  /** `phase1_request_next_output`. */
  function Phase1NextOutput(m: Model, ui: Choices): Outcome
  {
    if m.idx1 < m.cfg.outputsCount - 1 then
      Ask(m.At(Request3Output, m.idx1 + 1, m.idx2), ReqOutput(m.idx1 + 1), NOTHING)
    else CheckFee(m.Hashing({PrintOuts(Bins(m.p1.shown))}), ui)
  }

  function Step3Output(m: Model, o: TxOutput, ui: Choices): Outcome
    requires FpAll(m.cfg.env, m.p1.seen)
  {
    if |o.addressN| > 0 && o.hasAddress then Die(m, DataError)
    else if Spending(m.p1.shown) + o.amount >= TWO64 then Die(m, DataError)
    else
      match m.cfg.env.compileOutput(o)
      case None => Die(m, ProcessError)
      case Some(script) =>
        var confirm := !IsChange(m, o);
        if confirm && !ui.confirmOutput then Die(m, ActionCancelled)
        else Phase1NextOutput(AddShown(m, Shown(o, TxOut(o.amount, script), confirm)), ui)
  }

  /** The session after one more input of a signing pass. */
  function Passed(m: Model, i: TxInput, next: nat): Model
  {
    m.(pass := Pass((if m.idx2 == 0 then [] else m.pass.ins) + [i], []), next := next)
  }

  /** The next input of the pass, or the comparison with Phase 1 behind the last. */
  function Phase2NextPassInput(m: Model): Outcome
  {
    if m.idx2 < m.cfg.inputsCount - 1 then
      Ask(m.At(Request4Input, m.idx1, m.idx2 + 1), ReqInput(m.idx2 + 1), NOTHING)
    else if m.cfg.env.hash(CheckPreimage(m.pass.ins)) != m.cfg.env.hash(CheckPreimage(m.p1.seen)) then
      Die(m.Hashing({CheckPreimage(m.pass.ins)}), DataError)
    else
      Ask(m.Hashing({CheckPreimage(m.pass.ins)}).At(Request4Output, m.idx1, 0), ReqOutput(0), NOTHING)
  }

  /** How `next_nonsegwit_input` is rediscovered: the first legacy input behind the one being signed. */
  function NextTarget(m: Model, i: TxInput): nat
  {
    if m.next == m.idx1 && m.idx2 > m.idx1 && i.Legacy() then m.idx2 else m.next
  }

  function Step4Input(m: Model, i: TxInput): Outcome
    requires FpAll(m.cfg.env, m.p1.seen)
  {
    if m.idx2 == m.idx1 then
      match CompileInput(m, i)
      case None => Die(m, ProcessError)
      case Some(script) => Phase2NextPassInput(Passed(m, i.(scriptSig := script), m.next))
    else Phase2NextPassInput(Passed(m, i.(scriptSig := []), NextTarget(m, i)))
  }

  function Step4Output(m: Model, o: TxOutput): Outcome
    requires m.idx1 < |m.pass.ins|
  {
    match m.cfg.env.compileOutput(o)
    case None => Die(m, ProcessError)
    case Some(script) =>
      var m' := m.(pass := m.pass.(outs := m.pass.outs + [TxOut(o.amount, script)]));
      if m.idx2 < m.cfg.outputsCount - 1 then
        Ask(m'.(idx2 := m.idx2 + 1), ReqOutput(m.idx2 + 1), NOTHING)
      else SignLegacy(m')
  }

  /** The bytes a legacy signature is over: the transaction with one script filled in, and the hash type. */
  function LegacyPreimage(m: Model): Bytes
  {
    HashStream(m.cfg.Head(false), Wires(m.pass.ins), m.pass.outs, []) + Le32(m.cfg.HashType())
  }

  /** After `ecdsa_sign_digest`: the multisig slot filled in, and the script that spends the input. */
  function FillSignature(cfg: Config, i: TxInput, sig: Signature): Option<TxInput>
  {
    match i.multisig
    case None => Some(i.(scriptSig := SingleScriptSig(sig, cfg.env.publicKey(i.addressN), cfg.SighashByte())))
    case Some(ms) =>
      match cfg.env.publicKeyIndex(ms, i.addressN)
      case None => None
      case Some(k) =>
        var ms' := if k < |ms.signatures| then ms.(signatures := ms.signatures[k := sig]) else ms;
        var script := MultisigScriptSig(cfg.env, ms', cfg.SighashByte());
        if script == [] then None else Some(i.(multisig := Some(ms'), scriptSig := script))
  }

  /** The two failures after signing differ only in their code. */
  function FillFailure(cfg: Config, i: TxInput): FailureKind
  {
    if i.multisig.Some? && cfg.env.publicKeyIndex(i.multisig.value, i.addressN).None? then DataError else ProcessError
  }

  /** Serializes one input and moves to the next of Phase 2, or to the outputs. */
  function EmitInput(m: Model, i: TxInput, signature: Option<(nat, Signature)>): Outcome
  {
    var chunk := InputChunk(WireHeader(WireHead(m)), |m.wire.ins|, i.Wire());
    var s := Serialized(signature, Some(chunk));
    var m' := m.(wire := m.wire.(ins := m.wire.ins + [i.Wire()], emitted := m.wire.emitted + chunk));
    if m.idx1 < m.cfg.inputsCount - 1 then Phase2NextInput(m'.(idx1 := m.idx1 + 1), s)
    else Ask(m'.At(Request5Output, 0, m.idx2), ReqOutput(0), s)
  }

  /** The session once a legacy signature has been made. */
  function Recorded(m: Model): Model
  {
    m.(log := SignLog(m.log.legacy + [LegacySig(m.idx1, m.pass.ins, m.pass.outs, LegacyPreimage(m))],
                      m.log.charges, m.log.hashed + {PrintOuts(m.pass.outs)}))
  }

  /** `signing_sign_input`. */
  function SignLegacy(m: Model): Outcome
    requires m.idx1 < |m.pass.ins|
  {
    var env := m.cfg.env;
    var i := m.pass.ins[m.idx1];
    if env.hash(PrintOuts(m.pass.outs)) != env.hash(PrintOuts(Bins(m.p1.shown))) then
      Die(m.Hashing({PrintOuts(m.pass.outs)}), DataError)
    else
      match env.sign(i.addressN, env.hash(LegacyPreimage(m)))
      case None => Die(m.Hashing({PrintOuts(m.pass.outs)}), ProcessError)
      case Some(sig) =>
        match FillSignature(m.cfg, i, sig)
        case None => Die(Recorded(m), FillFailure(m.cfg, i))
        case Some(i') => EmitInput(Recorded(m), i', Some((m.idx1, sig)))
  }

  /** The preimage of BIP-143. */
  function Bip143Preimage(m: Model, i: TxInput): Bytes
  {
    Le32(m.cfg.version)
    + m.cfg.env.hash(PrevoutsPreimage(m.p1.seen))
    + m.cfg.env.hash(SequencesPreimage(m.p1.seen))
    + PrintOutpoint(i.prevHash, i.prevIndex)
    + PrintScript(i.scriptSig)
    + Le64(i.amount)
    + Le32(i.sequence)
    + m.cfg.env.hash(PrintOuts(Bins(m.p1.shown)))
    + Le32(m.cfg.lockTime)
    + Le32(m.cfg.HashType())
  }

  /** The two BIP-143 signing sites: compile, charge, sign, fill in. A refusal may come after the charge. */
  datatype Signing143 =
    | Refused(charges: seq<Charge>, kind: FailureKind)
    | Signed143(charge: Charge, input: TxInput, sig: Signature)

  function Sign143(m: Model, i: TxInput): Signing143
    requires FpAll(m.cfg.env, m.p1.seen)
  {
    match CompileInput(m, i)
    case None => Refused([], ProcessError)
    case Some(script) =>
      if i.amount > m.Authorized() then Refused([], DataError)
      else
        var i' := i.(scriptSig := script);
        var preimage := Bip143Preimage(m, i');
        var charge := Charge(m.idx1, i.amount, preimage);
        match m.cfg.env.sign(i.addressN, m.cfg.env.hash(preimage))
        case None => Refused([charge], ProcessError)
        case Some(sig) =>
          match FillSignature(m.cfg, i', sig)
          case None => Refused([charge], FillFailure(m.cfg, i'))
          case Some(i'') => Signed143(charge, i'', sig)
  }

  function Charged(m: Model, charges: seq<Charge>): Model
  {
    m.(log := m.log.(charges := m.log.charges + charges))
  }

  /** Script of a P2SH-wrapped witness program, single key or multisig. */
  function P2shWitnessScript(m: Model, i: TxInput): Option<Script>
    requires FpAll(m.cfg.env, m.p1.seen)
  {
    match i.multisig
    case Some(ms) =>
      (match m.cfg.env.multisigScriptHash(ms)
       case None => None
       case Some(h) => Some([0x22, 0x00, 0x20] + h))
    case None =>
      match CompileInput(m, i)
      case None => None
      case Some(script) => if |script| < 0x17 then None else Some([0x16, 0x00] + script[2..0x17])
  }

  function StepSegwitInput(m: Model, i: TxInput): Outcome
    requires FpAll(m.cfg.env, m.p1.seen)
  {
    if i.Legacy() then
      if !m.cfg.forceBip143 then Die(m, DataError)
      else
        match Sign143(m, i)
        case Refused(charges, kind) => Die(Charged(m, charges), kind)
        case Signed143(charge, i', sig) => EmitInput(Charged(m, [charge]), i', Some((m.idx1, sig)))
    else if i.scriptType == SPENDP2SHWITNESS then
      match P2shWitnessScript(m, i)
      case None => Die(m, ProcessError)
      case Some(script) => EmitInput(m, i.(scriptSig := script), None)
    else EmitInput(m, i.(scriptSig := []), None)
  }

  /** Serializes one output; behind the last come the witnesses of a segwit transaction, else the end. */
  function EmitOutput(m: Model, bin: TxOut): Outcome
  {
    var chunk := OutputChunk(WireHead(m), |m.wire.outs|, bin, WireFooter(WireHead(m)));
    var s := Serialized(None, Some(chunk));
    var m' := m.(wire := m.wire.(outs := m.wire.outs + [bin], emitted := m.wire.emitted + chunk));
    if m.idx1 < m.cfg.outputsCount - 1 then Ask(m'.At(Request5Output, m.idx1 + 1, m.idx2), ReqOutput(m.idx1 + 1), s)
    else if AnySegwit(m.p1.seen) then Ask(m'.At(RequestSegwitWitness, 0, m.idx2), ReqInput(0), s)
    else Ask(m'.(alive := false), ReqFinished, s)
  }

  function Step5Output(m: Model, o: TxOutput): Outcome
  {
    match m.cfg.env.compileOutput(o)
    case None => Die(m, ProcessError)
    case Some(script) => EmitOutput(m, TxOut(o.amount, script))
  }

  /** Appends a witness, the footer behind the last one, and moves on. */
  function EmitWitness(m: Model, field: Bytes, signature: Option<(nat, Signature)>): Outcome
  {
    var last := m.idx1 == m.cfg.inputsCount - 1;
    var chunk := field + (if last then WireFooter(WireHead(m)) else []);
    var s := Serialized(signature, Some(chunk));
    var m' := m.(wire := m.wire.(witnesses := m.wire.witnesses + [field], emitted := m.wire.emitted + chunk));
    if last then Ask(m'.(alive := false), ReqFinished, s)
    else Ask(m'.(idx1 := m.idx1 + 1), ReqInput(m.idx1 + 1), s)
  }

  function StepSegwitWitness(m: Model, i: TxInput): Outcome
    requires FpAll(m.cfg.env, m.p1.seen)
  {
    if i.Segwit() then
      match Sign143(m, i)
      case Refused(charges, kind) => Die(Charged(m, charges), kind)
      case Signed143(charge, i', sig) => EmitWitness(Charged(m, [charge]), Witness(m.cfg, i', sig), Some((m.idx1, sig)))
    else EmitWitness(m, [0], None)
  }

  // ------------------------------------------------- shape of a live session

  predicate InPrev(m: Model)
  {
    m.stage.Request2PrevMeta? || m.stage.Request2PrevInput? || m.stage.Request2PrevOutput?
        || m.stage.Request2PrevExtraData?
  }

  predicate Phase1(m: Model)
  {
    m.stage.Request1Input? || InPrev(m) || m.stage.Request3Output?
  }

  /** Nothing signed or serialized yet. */
  predicate Unsigned(m: Model)
  {
    m.log.legacy == [] && m.log.charges == [] && m.wire.ins == [] && m.wire.outs == [] && m.wire.witnesses == []
  }

  /** A legacy input of Phase 1 waits for its amount. */
  predicate Crediting(m: Model)
  {
    && Unsigned(m) && m.p1.shown == []
    && |m.p1.seen| == m.idx1 + 1 && |m.p1.credits| == m.idx1 < m.cfg.inputsCount
    && m.p1.seen[m.idx1].Legacy() && !m.cfg.forceBip143
  }

  /** Its previous transaction is being streamed. */
  predicate Streaming(m: Model)
  {
    && Crediting(m)
    && m.prev.head.WellFormed() && !m.prev.head.segwit
    && m.p1.seen[m.idx1].prevIndex < m.prev.head.outputsLen
  }

  /** Phase 1 is complete and the user has confirmed. */
  predicate Confirmed(m: Model)
  {
    && |m.p1.seen| == |m.p1.credits| == m.cfg.inputsCount
    && |m.p1.shown| == m.cfg.outputsCount
    && Spending(m.p1.shown) <= Total(m.p1.credits)
  }

  /** Inputs are being signed and serialized in turn. */
  predicate Signing(m: Model)
  {
    && Confirmed(m)
    && |m.wire.ins| == m.idx1 < m.cfg.inputsCount
    && m.wire.outs == [] && m.wire.witnesses == []
  }

  predicate ShapeOfStage(m: Model)
  {
    match m.stage
    case Request1Input =>
      Unsigned(m) && m.p1.shown == [] && |m.p1.seen| == |m.p1.credits| == m.idx1 < m.cfg.inputsCount
    case Request2PrevMeta => Crediting(m)
    case Request2PrevInput =>
      && Streaming(m)
      && |m.prev.ins| == m.idx2 < m.prev.head.inputsLen && m.prev.outs == [] && m.prev.extra == []
    case Request2PrevOutput =>
      && Streaming(m)
      && |m.prev.ins| == m.prev.head.inputsLen
      && |m.prev.outs| == m.idx2 < m.prev.head.outputsLen && m.prev.extra == []
    case Request2PrevExtraData =>
      && Streaming(m)
      && |m.prev.ins| == m.prev.head.inputsLen && |m.prev.outs| == m.prev.head.outputsLen
      && m.prev.Received() < m.prev.extraLen
    case Request3Output =>
      && Unsigned(m)
      && |m.p1.seen| == |m.p1.credits| == m.cfg.inputsCount
      && |m.p1.shown| == m.idx1 < m.cfg.outputsCount
    case Request4Input =>
      Signing(m) && m.idx1 <= m.next < m.cfg.inputsCount && m.idx2 < m.cfg.inputsCount
          && (m.idx2 > 0 ==> |m.pass.ins| == m.idx2 && m.pass.outs == [])
    case Request4Output =>
      Signing(m) && |m.pass.ins| == m.cfg.inputsCount && |m.pass.outs| == m.idx2 < m.cfg.outputsCount
    case RequestSegwitInput => Signing(m)
    case Request5Output =>
      && Confirmed(m)
      && |m.wire.ins| == m.cfg.inputsCount && |m.wire.outs| == m.idx1 < m.cfg.outputsCount && m.wire.witnesses == []
    case RequestSegwitWitness =>
      && Confirmed(m)
      && |m.wire.ins| == m.cfg.inputsCount && |m.wire.outs| == m.cfg.outputsCount
      && |m.wire.witnesses| == m.idx1 < m.cfg.inputsCount && AnySegwit(m.p1.seen)
  }

  /** Sums that fit their 64-bit words. */
  predicate Sums(m: Model)
  {
    m.ToSpend() < TWO64 && Spending(m.p1.shown) < TWO64 && 0 <= m.Authorized()
  }

  predicate Shape(m: Model)
  {
    && m.cfg.Valid()
    && (m.alive ==>
          && FpAll(m.cfg.env, m.p1.seen)
          && ShapeOfStage(m)
          && Sums(m)
          && (m.next == NO_LEGACY || m.next < m.cfg.inputsCount))
  }

  function Step(m: Model, a: Ack, ui: Choices): Outcome
    requires Shape(m)
  {
    if !m.alive then Outcome(m, [Failure(UnexpectedMessage)])
    else
      match m.stage
      case Request1Input => Step1Input(m, a.input)
      case Request2PrevMeta => Step2PrevMeta(m, a)
      case Request2PrevInput => Step2PrevInput(m, a.input)
      case Request2PrevOutput => Step2PrevOutput(m, a.binOutput)
      case Request2PrevExtraData => Step2PrevExtraData(m, a.extraData)
      case Request3Output => Step3Output(m, a.output, ui)
      case Request4Input => Step4Input(m, a.input)
      case Request4Output => Step4Output(m, a.output)
      case RequestSegwitInput => StepSegwitInput(m, a.input)
      case Request5Output => Step5Output(m, a.output)
      case RequestSegwitWitness => StepSegwitWitness(m, a.input)
  }
}

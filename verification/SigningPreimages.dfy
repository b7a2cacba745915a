/**
 What is signed, read back field by field: the ten fields of the BIP-143 preimage, the digests
 of the lists of Phase 1 in it, and the script of the input being signed.
 */
module SigningPreimages {
  import opened Bytes
  import Varint
  import opened Transaction
  import opened SigningModel
  import opened SigningRuns
  import opened SigningEffects
  import opened SigningLedger
  import opened SigningAgreement
  import opened SigningTheorems

  // ------------------------------------------------------------ reading BIP-143

  /** The fields of the BIP-143 Specification, in its order. */
  datatype Fields143 = Fields143(
    version: uint32, hashPrevouts: Bytes, hashSequence: Bytes, prevHash: Bytes, prevIndex: uint32,
    scriptCode: Bytes, amount: uint64, sequence: uint32, hashOutputs: Bytes, lockTime: uint32, hashType: uint32)

  function Read143(b: Bytes): Option<Fields143>
  {
    if |b| < 104 then None else
    match ParseScript(b[104..])
    case None => None
    case Some((script, r)) =>
      if |r| != 52 then None
      else Some(Fields143(
        FromLe32(b[..4]), b[4..36], b[36..68], Reverse(b[68..100]), FromLe32(b[100..104]),
        script, FromLe64(r[..8]), FromLe32(r[8..12]), r[12..44], FromLe32(r[44..48]), FromLe32(r[48..52])))
  }

  /** Outpoint k stands at byte 36 k: the hash backwards, then the index. */
  ghost predicate OutpointsAt(b: Bytes, ins: seq<TxInput>)
  {
    |b| == 36 * |ins| && forall k :: 0 <= k < |ins| ==> OutpointAt(b, ins[k], k)
  }

  predicate OutpointAt(b: Bytes, i: TxInput, k: nat)
  {
    && 36 * k + 36 <= |b|
    && b[36 * k..36 * k + 32] == Reverse(i.prevHash) && FromLe32(b[36 * k + 32..36 * k + 36]) == i.prevIndex
  }

  ghost predicate SequencesAt(b: Bytes, ins: seq<TxInput>)
  {
    |b| == 4 * |ins| && forall k :: 0 <= k < |ins| ==> SequenceAt(b, ins[k], k)
  }

  predicate SequenceAt(b: Bytes, i: TxInput, k: nat)
  {
    4 * k + 4 <= |b| && FromLe32(b[4 * k..4 * k + 4]) == i.sequence
  }

  /** Amount and script of each output in turn, and nothing else. */
  predicate OutputsAt(b: Bytes, outs: seq<TxOut>)
  {
    ParseOuts(|outs|, b) == Some((outs, []))
  }

  lemma {:induction false} PrevoutsInPlace(ins: seq<TxInput>)
    ensures OutpointsAt(PrevoutsPreimage(ins), ins)
  {
    if |ins| > 0 {
      var n := |ins| - 1;
      var front, i := PrevoutsPreimage(ins[..n]), ins[n];
      PrevoutsInPlace(ins[..n]);
      Le32RoundTrip(i.prevIndex);
      var b := PrevoutsPreimage(ins);
      forall k | 0 <= k < |ins| ensures OutpointAt(b, ins[k], k) {
        if k < n {
          assert OutpointAt(front, ins[..n][k], k);
          assert b[36 * k..36 * k + 32] == front[36 * k..36 * k + 32];
          assert b[36 * k + 32..36 * k + 36] == front[36 * k + 32..36 * k + 36];
        } else {
          assert b[36 * k..36 * k + 32] == Reverse(i.prevHash);
          assert b[36 * k + 32..36 * k + 36] == Le32(i.prevIndex);
        }
      }
    }
  }

  lemma {:induction false} SequencesInPlace(ins: seq<TxInput>)
    ensures SequencesAt(SequencesPreimage(ins), ins)
  {
    if |ins| > 0 {
      var n := |ins| - 1;
      var front, i := SequencesPreimage(ins[..n]), ins[n];
      SequencesInPlace(ins[..n]);
      Le32RoundTrip(i.sequence);
      var b := SequencesPreimage(ins);
      forall k | 0 <= k < |ins| ensures SequenceAt(b, ins[k], k) {
        if k < n {
          assert SequenceAt(front, ins[..n][k], k);
          assert b[4 * k..4 * k + 4] == front[4 * k..4 * k + 4];
        } else {
          assert b[4 * k..4 * k + 4] == Le32(i.sequence);
        }
      }
    }
  }

  lemma OutputsInPlace(outs: seq<TxOut>)
    ensures OutputsAt(PrintOuts(outs), outs)
  {
    ParsePrintOuts(outs, []);
    assert PrintOuts(outs) + [] == PrintOuts(outs);
  }

  /** The script that BIP-143 and a legacy pass commit to for this input. */
  predicate CodeOf(env: Env, i: TxInput, script: Bytes)
  {
    match i.multisig
    case Some(ms) => script == env.multisigScript(ms) != []
    case None =>
      && |script| == 25 && script[..3] == [0x76, 0xA9, 0x14] && script[3..23] == env.publicKeyHash(i.addressN)
      && script[23..] == [0x88, 0xAC]
  }

  lemma CompiledIsCode(m: Model, i: TxInput)
    requires FpAll(m.cfg.env, m.p1.seen) && CompileInput(m, i).Some?
    ensures CodeOf(m.cfg.env, i, CompileInput(m, i).value)
  {
    hide FpAll, FpOf, PathOf, Account;
  }

  /** SIGHASH_ALL alone, or with the fork flag below the fork id. */
  predicate HashTypeIs(forkid: Option<uint32>, hashType: uint32)
  {
    match forkid
    case None => hashType == 1
    case Some(id) => hashType % 256 == 0x41 && hashType / 256 == id % 0x100_0000
  }

  lemma HashTypeSays(cfg: Config)
    ensures HashTypeIs(cfg.forkid, cfg.HashType())
  {
    if cfg.forkid.Some? {
      var id := cfg.forkid.value as int;
      assert id == 0x100_0000 * (id / 0x100_0000) + id % 0x100_0000;
      assert id * 256 == TWO32 * (id / 0x100_0000) + 256 * (id % 0x100_0000);
      ModuloOf(id / 0x100_0000, 256 * (id % 0x100_0000));
    }
  }

  lemma ModuloOf(q: nat, r: nat)
    requires r < TWO32
    ensures (TWO32 * q + r) % TWO32 == r
  {
  }

  /** The fields of the preimage of an input: the digests of these lists, and the input's own values. */
  ghost predicate Signs143(cfg: Config, seen: seq<TxInput>, outs: seq<TxOut>, i: TxInput, preimage: Bytes)
  {
    exists prevouts: Bytes, sequences: Bytes, outputs: Bytes, script: Bytes, hashType: uint32 ::
      && OutpointsAt(prevouts, seen) && SequencesAt(sequences, seen) && OutputsAt(outputs, outs)
      && CodeOf(cfg.env, i, script) && HashTypeIs(cfg.forkid, hashType)
      && Read143(preimage) == Some(Fields143(
           cfg.version, cfg.env.hash(prevouts), cfg.env.hash(sequences), i.prevHash, i.prevIndex,
           script, i.amount, i.sequence, cfg.env.hash(outputs), cfg.lockTime, hashType))
  }

  /** The ten parts of a preimage, one behind the other. */
  lemma ReadParts(v: uint32, a: Hash32, b: Hash32, h: Hash32, n: uint32, s: Script, amount: uint64, q: uint32,
      c: Hash32,
                  t: uint32, y: uint32)
    ensures Read143(Le32(v) + a + b + PrintOutpoint(h,
      n) + PrintScript(s) + Le64(amount) + Le32(q) + c + Le32(t) + Le32(y))
         == Some(Fields143(v, a, b, h, n, s, amount, q, c, t, y))
  {
    hide LittleEndian, PrintScript, ParseScript;
    Le32RoundTrip(v);
    Le32RoundTrip(n);
    Le64RoundTrip(amount);
    Le32RoundTrip(q);
    Le32RoundTrip(t);
    Le32RoundTrip(y);
    ReverseInvolutive(h);
    var front := Le32(v) + a + b + Reverse(h) + Le32(n);
    var r := Le64(amount) + Le32(q) + c + Le32(t) + Le32(y);
    var all := Le32(v) + a + b + PrintOutpoint(h, n) + PrintScript(s) + Le64(amount) + Le32(q) + c + Le32(t) + Le32(y);
    assert all == front + (PrintScript(s) + r);
    ParsePrintScript(s, r);
    FrontParts(Le32(v), a, b, Reverse(h), Le32(n), PrintScript(s) + r);
    RestParts(Le64(amount), Le32(q), c, Le32(t), Le32(y));
  }

  lemma FrontParts(v: Bytes, a: Bytes, b: Bytes, h: Bytes, n: Bytes, rest: Bytes)
    requires |v| == |n| == 4 && |a| == |b| == |h| == 32
    ensures var all := v + a + b + h + n + rest;
      all[..4] == v && all[4..36] == a && all[36..68] == b && all[68..100] == h && all[100..104] == n
          && all[104..] == rest
  {
  }

  lemma RestParts(amount: Bytes, q: Bytes, c: Bytes, t: Bytes, y: Bytes)
    requires |amount| == 8 && |q| == |t| == |y| == 4 && |c| == 32
    ensures var r := amount + q + c + t + y;
      |r| == 52 && r[..8] == amount && r[8..12] == q && r[12..44] == c && r[44..48] == t && r[48..52] == y
  {
  }

  /** The preimage that is signed reads as that. */
  lemma PreimageReads(m: Model, i: TxInput, script: Script)
    requires CodeOf(m.cfg.env, i, script)
    ensures Signs143(m.cfg, m.p1.seen, Bins(m.p1.shown), i, Bip143Preimage(m, i.(scriptSig := script)))
  {
    hide Read143, PrevoutsPreimage, SequencesPreimage, PrintOuts, Bins, OutpointsAt, SequencesAt, OutputsAt, CodeOf,
         HashTypeIs, LittleEndian, PrintScript, PrintOutpoint, Config.HashType;
    var env := m.cfg.env;
    PrevoutsInPlace(m.p1.seen);
    SequencesInPlace(m.p1.seen);
    OutputsInPlace(Bins(m.p1.shown));
    HashTypeSays(m.cfg);
    ReadParts(m.cfg.version, env.hash(PrevoutsPreimage(m.p1.seen)), env.hash(SequencesPreimage(m.p1.seen)),
              i.prevHash, i.prevIndex, script, i.amount, i.sequence, env.hash(PrintOuts(Bins(m.p1.shown))),
              m.cfg.lockTime, m.cfg.HashType());
  }

  // ------------------------------------------------------------- scripts

  /** The data pushed by a script that pushes and does nothing else. */
  function Pushes(b: Bytes): Option<seq<Bytes>>
    decreases |b|
  {
    if |b| == 0 then Some([])
    else
      match PushSize(b)
      case None => None
      case Some((at, n)) =>
        if at + n > |b| then None else Ahead(b[at..at + n], Pushes(b[at + n..]))
  }

  /** Where the data of the first push begins, and how much there is. */
  function PushSize(b: Bytes): (r: Option<(nat, nat)>)
    requires |b| > 0
    ensures r.Some? ==> r.value.0 > 0
  {
    if b[0] <= 75 then Some((1, b[0]))
    else if b[0] == 76 then if |b| < 2 then None else Some((2, b[1]))
    else if b[0] == 77 then if |b| < 3 then None else Some((3, FromLe16(b[1..3])))
    else if b[0] == 78 then if |b| < 5 then None else Some((5, FromLe32(b[1..5])))
    else None
  }

  function Ahead(d: Bytes, rest: Option<seq<Bytes>>): Option<seq<Bytes>>
  {
    match rest
    case None => None
    case Some(items) => Some([d] + items)
  }

  lemma PushSizeOf(n: uint32, rest: Bytes)
    ensures PushSize(OpPush(n) + rest) == Some((|OpPush(n)|, n))
  {
    var b := OpPush(n) + rest;
    if n >= 0x100 {
      if n < 0x1_0000 {
        Le16RoundTrip(n);
        assert b[1..3] == Le16(n);
      } else {
        Le32RoundTrip(n);
        assert b[1..5] == Le32(n);
      }
    }
  }

  lemma PushIsRead(d: Bytes, rest: Bytes)
    requires |d| < TWO32
    ensures Pushes(OpPush(|d|) + d + rest) == Ahead(d, Pushes(rest))
  {
    hide OpPush, PushSize;
    var op := OpPush(|d|);
    var b := op + d + rest;
    assert b == op + (d + rest);
    PushSizeOf(|d|, d + rest);
    assert b[|op|..|op| + |d|] == d && b[|op| + |d|..] == rest;
  }

  /** Each of these pushed in turn. */
  function Pushed(items: seq<Script>): Bytes
  {
    if |items| == 0 then [] else OpPush(|items[0]|) + items[0] + Pushed(items[1..])
  }

  lemma {:induction false} PushedIsRead(items: seq<Script>)
    ensures Pushes(Pushed(items)) == Some(items)
  {
    hide OpPush;
    if |items| > 0 {
      PushedIsRead(items[1..]);
      PushIsRead(items[0], Pushed(items[1..]));
      assert [items[0]] + items[1..] == items;
    }
  }

  lemma {:induction false} PushedAppend(a: seq<Script>, b: seq<Script>)
    ensures Pushed(a + b) == Pushed(a) + Pushed(b)
  {
    hide OpPush;
    if |a| == 0 {
      assert a + b == b;
    } else {
      assert (a + b)[1..] == a[1..] + b;
      PushedAppend(a[1..], b);
    }
  }

  lemma PushedOne(d: Script)
    ensures Pushed([d]) == OpPush(|d|) + d
  {
    assert [d][1..] == [];
  }

  /** The signatures that are there, each with the hash type behind it. */
  function Filled(sigs: seq<Signature>, flag: byte): (r: seq<Script>)
    ensures |r| == CountFilled(sigs)
  {
    if |sigs| == 0 then []
    else Filled(sigs[..|sigs| - 1], flag) + (if |sigs[|sigs| - 1]| == 0 then [] else [sigs[|sigs| - 1] + [flag]])
  }

  lemma {:induction false} SignaturesArePushed(sigs: seq<Signature>, flag: byte)
    ensures PushSignatures(sigs, flag) == Pushed(Filled(sigs, flag))
  {
    hide OpPush;
    if |sigs| > 0 {
      var front, s := sigs[..|sigs| - 1], sigs[|sigs| - 1];
      SignaturesArePushed(front, flag);
      if |s| > 0 {
        PushedAppend(Filled(front, flag), [s + [flag]]);
        PushedOne(s + [flag]);
        assert PushSignatures(sigs, flag) == PushSignatures(front, flag) + (OpPush(|s| + 1) + (s + [flag]));
      } else {
        assert Filled(front, flag) + [] == Filled(front, flag);
      }
    }
  }

  /** What a signed input of this kind has to present: signature and key, or nothing, the signatures and the script. */
  function Presented(env: Env, i: TxInput, sig: Signature, flag: byte): seq<Bytes>
  {
    match i.multisig
    case None => [sig + [flag], env.publicKey(i.addressN)]
    case Some(ms) => [[]] + Filled(ms.signatures, flag) + [env.multisigScript(ms)]
  }

  /** The signature is in the slot of the key it was made with, and the other slots are as they came. */
  predicate InItsSlot(env: Env, i: TxInput, i': TxInput, sig: Signature)
  {
    match i.multisig
    case None => i'.multisig == None
    case Some(ms) =>
      && env.publicKeyIndex(ms, i.addressN).Some? && i'.multisig.Some?
      && var k := env.publicKeyIndex(ms, i.addressN).value;
         i'.multisig.value == ms.(signatures := i'.multisig.value.signatures)
         && |i'.multisig.value.signatures| == |ms.signatures|
         && forall j :: 0 <= j < |ms.signatures| ==>
              i'.multisig.value.signatures[j] == if j == k then sig else ms.signatures[j]
  }

  lemma SingleIsRead(sig: Signature, key: PublicKey, flag: byte)
    ensures Pushes(SingleScriptSig(sig, key, flag)) == Some([sig + [flag], key])
  {
    hide OpPush, Pushes;
    PushedOne(sig + [flag]);
    PushedOne(key);
    PushedAppend([sig + [flag]], [key]);
    assert [sig + [flag]] + [key] == [sig + [flag], key];
    assert SingleScriptSig(sig, key, flag) == OpPush(|sig| + 1) + (sig + [flag]) + (OpPush(33) + key);
    PushedIsRead([sig + [flag], key]);
  }

  lemma MultisigIsRead(env: Env, ms: Multisig, flag: byte)
    requires MultisigScriptSig(env, ms, flag) != []
    ensures Pushes(MultisigScriptSig(env, ms, flag))
         == Some([[]] + Filled(ms.signatures, flag) + [env.multisigScript(ms)])
  {
    hide OpPush, Pushes, PushSignatures, Filled;
    var script := env.multisigScript(ms);
    var items: seq<Script> := [[]] + Filled(ms.signatures, flag) + [script];
    SignaturesArePushed(ms.signatures, flag);
    PushedOne(script);
    PushedOne([]);
    EmptyPush();
    PushedAppend([[]], Filled(ms.signatures, flag));
    PushedAppend([[]] + Filled(ms.signatures, flag), [script]);
    assert Pushed([[]]) == [0];
    assert MultisigScriptSig(env, ms, flag)
        == [0] + PushSignatures(ms.signatures, flag) + (OpPush(|script|) + script);
    PushedIsRead(items);
  }

  lemma EmptyPush()
    ensures OpPush(0) + [] == [0]
  {
  }

  /** The script that spends an input pushes what has to be presented. */
  lemma FilledInputPresents(cfg: Config, i: TxInput, sig: Signature)
    requires FillSignature(cfg, i, sig).Some?
    ensures var i' := FillSignature(cfg, i, sig).value;
      && i' == i.(multisig := i'.multisig, scriptSig := i'.scriptSig) && InItsSlot(cfg.env, i, i', sig)
      && Pushes(i'.scriptSig) == Some(Presented(cfg.env, i', sig, cfg.SighashByte()))
  {
    hide Pushes, Filled, SingleScriptSig, MultisigScriptSig, Config.SighashByte;
    var i' := FillSignature(cfg, i, sig).value;
    match i.multisig
    case None => SingleIsRead(sig, cfg.env.publicKey(i.addressN), cfg.SighashByte());
    case Some(ms) => MultisigIsRead(cfg.env, i'.multisig.value, cfg.SighashByte());
  }

  // ------------------------------------------------------------- witnesses

  /** The items of a witness: their number, then each with its length. */
  function Items(b: Bytes): Option<seq<Bytes>>
  {
    match Varint.Decode(b)
    case None => None
    case Some((n, k)) =>
      if |b| < k then None
      else
        match ItemList(n, b[k..])
        case None => None
        case Some((items, rest)) => if rest == [] then Some(items) else None
  }

  function ItemList(n: nat, b: Bytes): Option<(seq<Bytes>, Bytes)>
  {
    if n == 0 then Some(([], b))
    else
      match ParseScript(b)
      case None => None
      case Some((item, r)) =>
        match ItemList(n - 1, r)
        case None => None
        case Some((items, rest)) => Some(([item] + items, rest))
  }

  function Printed(items: seq<Script>): Bytes
  {
    if |items| == 0 then [] else PrintScript(items[0]) + Printed(items[1..])
  }

  lemma {:induction false} ItemsAreRead(items: seq<Script>, rest: Bytes)
    ensures ItemList(|items|, Printed(items) + rest) == Some((items, rest))
  {
    hide PrintScript, ParseScript;
    if |items| > 0 {
      ParsePrintScript(items[0], Printed(items[1..]) + rest);
      ItemsAreRead(items[1..], rest);
      assert Printed(items) + rest == PrintScript(items[0]) + (Printed(items[1..]) + rest);
      assert [items[0]] + items[1..] == items;
    } else {
      assert Printed(items) + rest == rest;
    }
  }

  lemma {:induction false} PrintedAppend(a: seq<Script>, b: seq<Script>)
    ensures Printed(a + b) == Printed(a) + Printed(b)
  {
    if |a| == 0 {
      assert a + b == b;
    } else {
      assert (a + b)[1..] == a[1..] + b;
      PrintedAppend(a[1..], b);
    }
  }

  lemma PrintedOne(s: Script)
    ensures Printed([s]) == PrintScript(s)
  {
    assert [s][1..] == [];
  }

  lemma {:induction false} SignaturesArePrinted(sigs: seq<Signature>, flag: byte)
    ensures WitnessSignatures(sigs, flag) == Printed(Filled(sigs, flag))
  {
    if |sigs| > 0 {
      var front, s := sigs[..|sigs| - 1], sigs[|sigs| - 1];
      SignaturesArePrinted(front, flag);
      if |s| > 0 {
        PrintedAppend(Filled(front, flag), [s + [flag]]);
        PrintedOne(s + [flag]);
      } else {
        assert Filled(front, flag) + [] == Filled(front, flag);
      }
    }
  }

  lemma ItemsOf(items: seq<Script>)
    requires |items| < 0xFD
    ensures Items([|items|] + Printed(items)) == Some(items)
  {
    hide Printed, ItemList;
    var b := [|items|] + Printed(items);
    ItemsAreRead(items, []);
    assert Printed(items) + [] == Printed(items) == b[1..];
    Varint.RoundTrip(|items|, Printed(items));
    assert Varint.Encode(|items|) == [|items|];
  }

  /** The witness holds what has to be presented. */
  lemma WitnessPresents(cfg: Config, i: TxInput, sig: Signature)
    ensures Items(Witness(cfg, i, sig)) == Some(Presented(cfg.env, i, sig, cfg.SighashByte()))
  {
    var flag := cfg.SighashByte();
    var items := Presented(cfg.env, i, sig, flag);
    match i.multisig
    case None =>
      SingleWitness(sig + [flag], cfg.env.publicKey(i.addressN));
      assert Witness(cfg, i, sig) == [2] + (PrintScript(sig + [flag]) + PrintScript(cfg.env.publicKey(i.addressN)));
    case Some(ms) =>
      MultisigWitness(ms.signatures, flag, cfg.env.multisigScript(ms));
  }

  lemma SingleWitness(a: Script, b: Script)
    ensures Items([2] + (PrintScript(a) + PrintScript(b))) == Some([a, b])
  {
    PrintedAppend([a], [b]);
    PrintedOne(a);
    PrintedOne(b);
    ItemsOf([a, b]);
  }

  lemma MultisigWitness(sigs: Signatures, flag: byte, script: Script)
    ensures Items([2 + CountFilled(sigs), 0] + WitnessSignatures(sigs, flag) + PrintScript(script))
         == Some([[]] + Filled(sigs, flag) + [script])
  {
    hide Items, Printed, PrintScript, WitnessSignatures, Filled;
    var items: seq<Script> := [[]] + Filled(sigs, flag) + [script];
    SignaturesArePrinted(sigs, flag);
    PrintedAppend([[]] + Filled(sigs, flag), [script]);
    PrintedAppend([[]], Filled(sigs, flag));
    PrintedOne(script);
    PrintedOne([]);
    assert PrintScript([]) == [0] by { EmptyScript(); }
    ItemsOf(items);
    assert [2 + CountFilled(sigs), 0] == [2 + CountFilled(sigs)] + [0];
    assert [2 + CountFilled(sigs), 0] + WitnessSignatures(sigs, flag) + PrintScript(script)
        == [|items|] + Printed(items);
  }

  lemma EmptyScript()
    ensures PrintScript([]) == [0]
  {
  }

  // ------------------------------------------------------ signatures of a step

  /** The byte behind every signature. */
  function Flag(forkid: Option<uint32>): byte
  {
    if forkid.Some? then 0x41 else 1
  }

  lemma FlagIsLowByte(cfg: Config)
    ensures cfg.SighashByte() == Flag(cfg.forkid)
  {
    HashTypeSays(cfg);
  }

  /** A BIP-143 signature for this input: over the lists of Phase 1, and in the input that comes out. */
  ghost predicate Good143(m: Model, i: TxInput, charge: Charge, i': TxInput, sig: Signature)
  {
    && GoodCharge(m, i, charge)
    && m.cfg.env.sign(i.addressN, m.cfg.env.hash(charge.preimage)) == Some(sig)
    && Presents(m.cfg, i, i', sig)
  }

  ghost predicate GoodCharge(m: Model, i: TxInput, charge: Charge)
  {
    && charge.index == m.idx1 && charge.amount == i.amount
    && Signs143(m.cfg, m.p1.seen, Bins(m.p1.shown), i, charge.preimage)
  }

  /** The input that comes out presents the signature, and is otherwise the one that went in. */
  predicate Presents(cfg: Config, i: TxInput, i': TxInput, sig: Signature)
  {
    && i' == i.(multisig := i'.multisig, scriptSig := i'.scriptSig) && InItsSlot(cfg.env, i, i', sig)
    && Pushes(i'.scriptSig) == Some(Presented(cfg.env, i', sig, Flag(cfg.forkid)))
  }

  lemma FilledPresents(cfg: Config, i: TxInput, script: Script, sig: Signature)
    requires FillSignature(cfg, i.(scriptSig := script), sig).Some?
    ensures Presents(cfg, i, FillSignature(cfg, i.(scriptSig := script), sig).value, sig)
  {
    hide Pushes, FillSignature, Config.SighashByte, Presented;
    FlagIsLowByte(cfg);
    FilledInputPresents(cfg, i.(scriptSig := script), sig);
    SlotIgnoresScript(cfg.env, i, script, FillSignature(cfg, i.(scriptSig := script), sig).value, sig);
  }

  lemma SlotIgnoresScript(env: Env, i: TxInput, script: Script, i': TxInput, sig: Signature)
    requires InItsSlot(env, i.(scriptSig := script), i', sig)
    ensures InItsSlot(env, i, i', sig)
  {
  }

  lemma SignIsGood(m: Model, i: TxInput)
    requires FpAll(m.cfg.env, m.p1.seen)
    ensures match Sign143(m, i)
            case Refused(charges, _) => |charges| <= 1 && (|charges| == 1 ==> GoodCharge(m, i, charges[0]))
            case Signed143(charge, i', sig) => Good143(m, i, charge, i', sig)
  {
    hide FpAll, CompileInput, Bip143Preimage, Signs143, Presents, FillSignature, FillFailure, CodeOf, Bins;
    match CompileInput(m, i)
    case None =>
    case Some(script) =>
      CompiledIsCode(m, i);
      PreimageReads(m, i, script);
      var preimage := Bip143Preimage(m, i.(scriptSig := script));
      match m.cfg.env.sign(i.addressN, m.cfg.env.hash(preimage))
      case None =>
      case Some(sig) =>
        if FillSignature(m.cfg, i.(scriptSig := script), sig).Some? {
          FilledPresents(m.cfg, i, script, sig);
        }
  }

  function SignatureOf(c: Outcome): Option<(nat, Signature)>
  {
    if |c.replies| == 1 && c.replies[0].TxRequest? then c.replies[0].serialized.signature else None
  }

  /**
   A reply that carries a BIP-143 signature: it is for the current input, made over the fields of
   that input and the lists of Phase 1, and presented in what is serialized with it.
   */
  ghost predicate Replies143(m: Model, i: TxInput, c: Outcome)
  {
    && (c.m.log.charges == m.log.charges
        || (|c.m.log.charges| == |m.log.charges| + 1 && c.m.log.charges[..|m.log.charges|] == m.log.charges
            && GoodCharge(m, i, c.m.log.charges[|m.log.charges|])))
    && (SignatureOf(c).Some? ==>
          exists i': TxInput ::
            && |c.m.log.charges| == |m.log.charges| + 1 && SignatureOf(c).value.0 == m.idx1
            && Good143(m, i, c.m.log.charges[|m.log.charges|], i', SignatureOf(c).value.1)
            && if m.stage.RequestSegwitWitness?
               then |c.m.wire.witnesses| == |m.wire.witnesses| + 1
                 && Items(c.m.wire.witnesses[|m.wire.witnesses|])
                    == Some(Presented(m.cfg.env, i', SignatureOf(c).value.1, Flag(m.cfg.forkid)))
               else c.m.wire.ins == m.wire.ins + [TxIn(i'.prevHash, i'.prevIndex, i'.scriptSig, i'.sequence)])
  }

  lemma EmitsSignature(m: Model, i: TxInput, charge: Charge, i': TxInput, sig: Signature)
    requires Good143(m, i, charge, i', sig) && !m.stage.RequestSegwitWitness?
    ensures Replies143(m, i, EmitInput(Charged(m, [charge]), i', Some((m.idx1, sig))))
  {
    hide Good143, GoodCharge, InputChunk, WireHeader, WireHead;
    GoodIsCharge(m, i, charge, i', sig);
  }

  lemma GoodIsCharge(m: Model, i: TxInput, charge: Charge, i': TxInput, sig: Signature)
    requires Good143(m, i, charge, i', sig)
    ensures GoodCharge(m, i, charge)
  {
  }

  lemma WitnessesSignature(m: Model, i: TxInput, charge: Charge, i': TxInput, sig: Signature)
    requires Good143(m, i, charge, i', sig) && m.stage.RequestSegwitWitness?
    ensures Replies143(m, i, EmitWitness(Charged(m, [charge]), Witness(m.cfg, i', sig), Some((m.idx1, sig))))
  {
    hide Good143, GoodCharge, Witness, WireFooter, WireHead, Items, Presented, Config.SighashByte;
    GoodIsCharge(m, i, charge, i', sig);
    FlagIsLowByte(m.cfg);
    WitnessPresents(m.cfg, i', sig);
  }

  lemma NoSignature(m: Model, i: TxInput, c: Outcome)
    requires c.m.log.charges == m.log.charges && SignatureOf(c) == None
    ensures Replies143(m, i, c)
  {
  }

  lemma RefusedIsGood(m: Model, i: TxInput, charges: seq<Charge>, kind: FailureKind)
    requires |charges| <= 1 && (|charges| == 1 ==> GoodCharge(m, i, charges[0]))
    ensures Replies143(m, i, Die(Charged(m, charges), kind))
  {
    hide GoodCharge, Good143;
    if |charges| == 0 {
      assert m.log.charges + charges == m.log.charges;
    }
  }

  lemma SegwitInputReplies(m: Model, i: TxInput)
    requires FpAll(m.cfg.env, m.p1.seen) && m.stage.RequestSegwitInput?
    ensures Replies143(m, i, StepSegwitInput(m, i))
  {
    hide FpAll, Sign143, Good143, GoodCharge, Replies143, P2shWitnessScript, EmitInput;
    SignIsGood(m, i);
    var c := StepSegwitInput(m, i);
    if i.Legacy() && m.cfg.forceBip143 {
      match Sign143(m, i)
      case Refused(charges, kind) => RefusedIsGood(m, i, charges, kind);
      case Signed143(charge, i', sig) => EmitsSignature(m, i, charge, i', sig);
    } else {
      NothingSigned(m, i);
      NoSignature(m, i, c);
    }
  }

  lemma NothingSigned(m: Model, i: TxInput)
    requires FpAll(m.cfg.env, m.p1.seen) && !(i.Legacy() && m.cfg.forceBip143)
    ensures StepSegwitInput(m, i).m.log.charges == m.log.charges && SignatureOf(StepSegwitInput(m, i)) == None
  {
    hide FpAll, Sign143, P2shWitnessScript, InputChunk, WireHeader, WireHead;
  }

  lemma WitnessReplies(m: Model, i: TxInput)
    requires FpAll(m.cfg.env, m.p1.seen) && m.stage.RequestSegwitWitness?
    ensures Replies143(m, i, StepSegwitWitness(m, i))
  {
    hide FpAll, Sign143, Good143, GoodCharge, Replies143, EmitWitness;
    SignIsGood(m, i);
    var c := StepSegwitWitness(m, i);
    if i.Segwit() {
      match Sign143(m, i)
      case Refused(charges, kind) => RefusedIsGood(m, i, charges, kind);
      case Signed143(charge, i', sig) => WitnessesSignature(m, i, charge, i', sig);
    } else {
      EmptyWitness(m);
      NoSignature(m, i, c);
    }
  }

  lemma EmptyWitness(m: Model)
    ensures EmitWitness(m, [0], None).m.log.charges == m.log.charges && SignatureOf(EmitWitness(m, [0], None)) == None
  {
    hide WireFooter, WireHead;
  }

  // ------------------------------------------------- inputs without a signature

  /** The witness program of BIP-141: version 0 and the hash of the key or of the script. */
  predicate ProgramOf(env: Env, i: TxInput, program: Bytes)
  {
    match i.multisig
    case Some(ms) =>
      && env.multisigScriptHash(ms).Some? && |program| == 34
      && program[..2] == [0x00, 0x20] && program[2..] == env.multisigScriptHash(ms).value
    case None => |program| == 22 && program[..2] == [0x00, 0x14] && program[2..] == env.publicKeyHash(i.addressN)
  }

  /** A nested input pushes its witness program, a native one has no script. */
  ghost predicate SegwitScript(env: Env, i: TxInput, script: Script)
  {
    if i.scriptType == SPENDP2SHWITNESS
    then exists program: Bytes :: ProgramOf(env, i, program) && Pushes(script) == Some([program])
    else script == []
  }

  lemma OneShortPush(d: Script)
    requires 0 < |d| <= 75
    ensures Pushes([|d|] + d) == Some([d])
  {
    hide Pushes;
    PushedOne(d);
    PushedIsRead([d]);
  }

  lemma NestedScript(m: Model, i: TxInput)
    requires FpAll(m.cfg.env, m.p1.seen) && P2shWitnessScript(m, i).Some? && i.scriptType == SPENDP2SHWITNESS
    ensures SegwitScript(m.cfg.env, i, P2shWitnessScript(m, i).value)
  {
    hide FpAll, Pushes, CompileInput;
    match i.multisig
    case Some(ms) =>
      var h := m.cfg.env.multisigScriptHash(ms).value;
      var program: Script := [0x00, 0x20] + h;
      assert program[2..] == h && [0x22, 0x00, 0x20] + h == [|program|] + program;
      OneShortPush(program);
      assert ProgramOf(m.cfg.env, i, program);
    case None =>
      CompiledIsCode(m, i);
      var script := CompileInput(m, i).value;
      var program: Script := [0x00] + script[2..0x17];
      assert script[2] == script[..3][2] && script[2..0x17] == [script[2]] + script[3..23];
      assert program[2..] == script[3..23] && [0x16, 0x00] + script[2..0x17] == [|program|] + program;
      OneShortPush(program);
      assert ProgramOf(m.cfg.env, i, program);
  }

  /** What is serialized for an input that is not signed here. */
  lemma SegwitInputScript(m: Model, i: TxInput)
    requires FpAll(m.cfg.env, m.p1.seen) && m.alive && !i.Legacy()
    ensures var c := StepSegwitInput(m, i);
      c.m.alive ==>
        && SignatureOf(c) == None && |c.m.wire.ins| == |m.wire.ins| + 1
        && c.m.wire.ins[|m.wire.ins|]
           == TxIn(i.prevHash, i.prevIndex, c.m.wire.ins[|m.wire.ins|].scriptSig, i.sequence)
        && SegwitScript(m.cfg.env, i, c.m.wire.ins[|m.wire.ins|].scriptSig)
  {
    hide FpAll, SegwitScript, P2shWitnessScript, InputChunk, WireHeader, WireHead, Sign143;
    if i.scriptType == SPENDP2SHWITNESS {
      if P2shWitnessScript(m, i).Some? {
        NestedScript(m, i);
      }
    } else {
      NativeScript(m.cfg.env, i);
    }
  }

  lemma NativeScript(env: Env, i: TxInput)
    requires i.scriptType != SPENDP2SHWITNESS
    ensures SegwitScript(env, i, [])
  {
  }

  // ------------------------------------------------------- legacy signatures

  /** The input being signed is in the pass with its script. */
  ghost predicate Coded(m: Model)
  {
    && (|m.log.legacy| > 0 ==> |m.p1.seen| == m.cfg.inputsCount && |m.p1.shown| == m.cfg.outputsCount)
    && (forall k :: 0 <= k < |m.log.legacy| ==> CodedIn(m.cfg.env, m.log.legacy[k].inputs, m.log.legacy[k].index))
    && (m.alive && ((m.stage.Request4Input? && m.idx2 > m.idx1) || m.stage.Request4Output?) ==>
          CodedIn(m.cfg.env, m.pass.ins, m.idx1))
  }

  predicate CodedIn(env: Env, ins: seq<TxInput>, at: nat)
  {
    at < |ins| && CodeOf(env, ins[at], ins[at].scriptSig)
  }

  lemma CodeIgnoresScript(env: Env, i: TxInput, script: Script)
    requires CodeOf(env, i, script)
    ensures CodeOf(env, i.(scriptSig := script), script)
  {
  }

  /** The next input of a pass leaves the pass and the signatures as they are. */
  lemma PassGoesOn(m: Model)
    requires m.alive
    ensures var m' := Phase2NextPassInput(m).m;
      && m'.cfg == m.cfg && m'.p1 == m.p1 && m'.pass == m.pass && m'.log.legacy == m.log.legacy && m'.idx1 == m.idx1
      && (m'.alive ==> (m'.stage.Request4Input? && m'.idx2 == m.idx2 + 1) || m'.stage.Request4Output?)
      && (m'.stage.Request4Output? && m'.alive ==> m.idx2 >= m.cfg.inputsCount - 1)
  {
    hide CheckPreimage;
  }

  lemma CodedAfterInput(m: Model, i: TxInput)
    requires FpAll(m.cfg.env, m.p1.seen) && m.alive && m.stage.Request4Input? && Coded(m)
    requires (m.idx2 > 0 ==> |m.pass.ins| == m.idx2) && m.idx1 < m.cfg.inputsCount
    ensures Coded(Step4Input(m, i).m)
  {
    hide FpAll, CompileInput, CodeOf, Phase2NextPassInput;
    if m.idx2 == m.idx1 {
      if CompileInput(m, i).Some? {
        var script := CompileInput(m, i).value;
        CompiledIsCode(m, i);
        CodeIgnoresScript(m.cfg.env, i, script);
        PassGoesOn(Passed(m, i.(scriptSig := script), m.next));
      }
    } else {
      PassGoesOn(Passed(m, i.(scriptSig := []), NextTarget(m, i)));
    }
  }

  lemma CodedAfterSigning(m: Model)
    requires m.alive && m.idx1 < |m.pass.ins| && CodedIn(m.cfg.env, m.pass.ins, m.idx1)
    requires |m.p1.seen| == m.cfg.inputsCount && |m.p1.shown| == m.cfg.outputsCount
    requires forall k :: 0 <= k < |m.log.legacy| ==> CodedIn(m.cfg.env, m.log.legacy[k].inputs, m.log.legacy[k].index)
    ensures Coded(SignLegacy(m).m)
  {
    hide PrintOuts, Bins, FillSignature, LegacyPreimage, InputChunk, WireHeader, WireHead, CodedIn;
  }

  lemma CodedAfterOutput(m: Model, o: TxOutput)
    requires m.alive && m.stage.Request4Output? && Coded(m) && m.idx1 < |m.pass.ins|
    requires |m.p1.seen| == m.cfg.inputsCount && |m.p1.shown| == m.cfg.outputsCount
    ensures Coded(Step4Output(m, o).m)
  {
    hide SignLegacy, CodedIn;
    match m.cfg.env.compileOutput(o)
    case None =>
    case Some(script) => CodedAfterSigning(m.(pass := m.pass.(outs := m.pass.outs + [TxOut(o.amount, script)])));
  }

  /** No other message touches the pass or signs a legacy input. */
  lemma CodedElsewhere(m: Model, a: Ack, ui: Choices)
    requires Shape(m) && m.alive && Coded(m) && !m.stage.Request4Input? && !m.stage.Request4Output?
    ensures Coded(Step(m, a, ui).m)
  {
    hide Shape, Step, CodedIn, Phase1Effect, ChargeEffect, WireEffect;
    InPass(m);
    StepEffect(m, a, ui);
    NoPassBegun(m, a, ui);
  }

  /** It can only begin a pass. */
  ghost predicate BeginsPass(c: Outcome)
  {
    c.m.alive ==> !c.m.stage.Request4Output? && (c.m.stage.Request4Input? ==> c.m.idx2 == 0)
  }

  lemma NoPassInPhase1(m: Model, a: Ack, ui: Choices)
    requires Shape(m) && m.alive && Phase1(m)
    ensures BeginsPass(Step(m, a, ui))
  {
    hide FpAll, FpOf, FpAccepts, Total, TotalShown, TotalClaimed, TotalCharged, CheckPreimage, PrevoutsPreimage,
         SequencesPreimage, WeightWithInput, IsChange, PrintOuts, Bins, MaxFee, Add32, PrevTx.Stream, Reverse;
  }

  lemma NoPassInPhase2(m: Model, a: Ack)
    requires FpAll(m.cfg.env, m.p1.seen)
    ensures BeginsPass(StepSegwitInput(m, a.input))
    ensures m.stage.Request5Output? ==> BeginsPass(Step5Output(m, a.output))
    ensures m.stage.RequestSegwitWitness? ==> BeginsPass(StepSegwitWitness(m, a.input))
  {
    hide FpAll, Sign143, P2shWitnessScript, InputChunk, OutputChunk, WireHeader, WireFooter, WireHead, Witness,
         AnySegwit;
  }

  lemma NoPassBegun(m: Model, a: Ack, ui: Choices)
    requires Shape(m) && m.alive && !m.stage.Request4Input? && !m.stage.Request4Output?
    ensures BeginsPass(Step(m, a, ui))
  {
    hide Shape, FpAll, StepSegwitInput, StepSegwitWitness, Step5Output, Step1Input, Step3Output, BeginsPass;
    if Phase1(m) {
      NoPassInPhase1(m, a, ui);
    } else {
      InPass(m);
      NoPassInPhase2(m, a);
    }
  }

  lemma StepKeepsCoded(m: Model, a: Ack, ui: Choices)
    requires Shape(m) && Coded(m)
    ensures Coded(Step(m, a, ui).m)
  {
    hide Shape, Coded, FpAll, Step4Input, Step4Output;
    if m.alive {
      InPass(m);
      if m.stage.Request4Input? {
        CodedAfterInput(m, a.input);
      } else if m.stage.Request4Output? {
        CodedAfterOutput(m, a.output);
      } else {
        CodedElsewhere(m, a, ui);
      }
    }
  }

  lemma InPass(m: Model)
    requires Shape(m) && m.alive
    ensures FpAll(m.cfg.env, m.p1.seen)
    ensures m.stage.Request4Input? ==> (m.idx2 > 0 ==> |m.pass.ins| == m.idx2) && m.idx1 < m.cfg.inputsCount
    ensures m.stage.Request4Output? ==> m.idx1 < |m.pass.ins|
    ensures m.stage.Request4Output? ==> |m.p1.seen| == m.cfg.inputsCount && |m.p1.shown| == m.cfg.outputsCount
    ensures Phase1(m) ==> m.log.legacy == []
  {
    hide FpAll, Total, TotalShown, TotalClaimed, TotalCharged;
  }

  /** A reply that carries a legacy signature. */
  ghost predicate RepliesLegacy(m: Model, c: Outcome)
  {
    SignatureOf(c).Some? ==>
      exists i': TxInput ::
        && |c.m.log.legacy| == |m.log.legacy| + 1 && SignatureOf(c).value.0 == m.idx1
        && var r := c.m.log.legacy[|m.log.legacy|]; var sig := SignatureOf(c).value.1;
           && r.index == m.idx1 < |r.inputs|
           && m.cfg.env.sign(r.inputs[m.idx1].addressN, m.cfg.env.hash(r.preimage)) == Some(sig)
           && Presents(m.cfg, r.inputs[m.idx1], i', sig)
           && c.m.wire.ins == m.wire.ins + [TxIn(i'.prevHash, i'.prevIndex, i'.scriptSig, i'.sequence)]
  }

  lemma LegacyReplies(m: Model)
    requires m.idx1 < |m.pass.ins|
    ensures RepliesLegacy(m, SignLegacy(m))
  {
    hide PrintOuts, Bins, FillSignature, LegacyPreimage, Presents, EmitInput;
    var i := m.pass.ins[m.idx1];
    var signed := m.cfg.env.sign(i.addressN, m.cfg.env.hash(LegacyPreimage(m)));
    if signed.Some? && FillSignature(m.cfg, i, signed.value).Some? {
      var i' := FillSignature(m.cfg, i, signed.value).value;
      assert i.(scriptSig := i.scriptSig) == i;
      FilledPresents(m.cfg, i, i.scriptSig, signed.value);
      EmittedInput(Recorded(m), i', signed.value);
    }
  }

  lemma EmittedInput(m: Model, i: TxInput, sig: Signature)
    ensures var c := EmitInput(m, i, Some((m.idx1, sig)));
      SignatureOf(c) == Some((m.idx1, sig)) && c.m.log == m.log && c.m.wire.ins == m.wire.ins + [i.Wire()]
  {
    hide InputChunk, WireHeader, WireHead;
  }

  lemma OutputReplies(m: Model, o: TxOutput)
    requires m.idx1 < |m.pass.ins|
    ensures RepliesLegacy(m, Step4Output(m, o))
  {
    hide SignLegacy, Presents;
    match m.cfg.env.compileOutput(o)
    case None =>
    case Some(script) => LegacyReplies(m.(pass := m.pass.(outs := m.pass.outs + [TxOut(o.amount, script)])));
  }

  /** Messages of the other stages are answered without a signature. */
  lemma Unsigned1(m: Model, a: Ack, ui: Choices)
    requires Shape(m) && m.alive
    requires !m.stage.Request4Output? && !m.stage.RequestSegwitInput? && !m.stage.RequestSegwitWitness?
    ensures SignatureOf(Step(m, a, ui)) == None
  {
    hide FpAll, FpOf, FpAccepts, Total, TotalShown, TotalClaimed, TotalCharged, CheckPreimage, PrevoutsPreimage,
         SequencesPreimage, WeightWithInput, IsChange, PrintOuts, Bins, MaxFee, Add32, PrevTx.Stream, Reverse, Sign143,
         P2shWitnessScript, InputChunk, OutputChunk, WireHeader, WireFooter, WireHead, Witness, AnySegwit, CompileInput;
  }

  /**
   Whatever the host sends: a signature in a reply is one of the preimage just recorded, of the
   current input, and what is serialized with it presents it.
   */
  lemma SignatureInReply(m: Model, a: Ack, ui: Choices)
    requires Shape(m) && m.alive
    ensures var c := Step(m, a, ui);
      match m.stage
      case Request4Output => RepliesLegacy(m, c)
      case RequestSegwitInput => Replies143(m, a.input, c)
      case RequestSegwitWitness => Replies143(m, a.input, c)
      case _ => SignatureOf(c) == None
  {
    InPass(m);
    hide RepliesLegacy, Replies143, Step4Output, StepSegwitInput, StepSegwitWitness, FpAll;
    match m.stage
    case Request4Output => OutputReplies(m, a.output);
    case RequestSegwitInput => SegwitInputReplies(m, a.input);
    case RequestSegwitWitness => WitnessReplies(m, a.input);
    case _ => Unsigned1(m, a, ui);
  }

  // ------------------------------------------------------------- over any run

  /** The charge is for an input that the host has sent. */
  ghost predicate ForMessage(m: Model, host: seq<(Ack, Choices)>, charge: Charge)
  {
    exists j :: 0 <= j < |host| && ForInput(m, host[j].0.input, charge)
  }

  ghost predicate ForInput(m: Model, i: TxInput, charge: Charge)
  {
    charge.amount == i.amount && Signs143(m.cfg, m.p1.seen, Bins(m.p1.shown), i, charge.preimage)
  }

  ghost predicate AllForMessages(m: Model, host: seq<(Ack, Choices)>)
  {
    forall k :: 0 <= k < |m.log.charges| ==> ForMessage(m, host, m.log.charges[k])
  }

  lemma MoreMessages(m: Model, m': Model, host: seq<(Ack, Choices)>, last: (Ack, Choices), charge: Charge)
    requires ForMessage(m, host, charge) && m'.cfg == m.cfg && m'.p1 == m.p1
    ensures ForMessage(m', host + [last], charge)
  {
    hide ForInput;
    var j :| 0 <= j < |host| && ForInput(m, host[j].0.input, charge);
    assert (host + [last])[j] == host[j];
    SameLists(m, m', host[j].0.input, charge);
  }

  lemma SameLists(m: Model, m': Model, i: TxInput, charge: Charge)
    requires ForInput(m, i, charge) && m'.cfg == m.cfg && m'.p1 == m.p1
    ensures ForInput(m', i, charge)
  {
    hide Signs143;
  }

  lemma NewCharge(m: Model, m': Model, host: seq<(Ack, Choices)>, a: Ack, ui: Choices, charge: Charge)
    requires GoodCharge(m, a.input, charge) && m'.cfg == m.cfg && m'.p1 == m.p1
    ensures ForMessage(m', host + [(a, ui)], charge)
  {
    hide Signs143;
    assert ForInput(m', (host + [(a, ui)])[|host|].0.input, charge);
  }

  lemma StepCharges(m: Model, host: seq<(Ack, Choices)>, a: Ack, ui: Choices)
    requires Shape(m) && AllForMessages(m, host)
    ensures AllForMessages(Step(m, a, ui).m, host + [(a, ui)])
  {
    hide Step, Shape, ForMessage, GoodCharge, Good143, Presents, Items;
    var m' := Step(m, a, ui).m;
    ChargesGrow(m, a, ui);
    forall k | 0 <= k < |m'.log.charges| ensures ForMessage(m', host + [(a, ui)], m'.log.charges[k]) {
      if k < |m.log.charges| {
        MoreMessages(m, m', host, (a, ui), m.log.charges[k]);
      } else {
        NewCharge(m, m', host, a, ui, m'.log.charges[k]);
      }
    }
  }

  /** One message adds at most one charge, for its own input; charges come when the lists are final. */
  lemma ChargesGrow(m: Model, a: Ack, ui: Choices)
    requires Shape(m)
    ensures var m' := Step(m, a, ui).m;
      && m'.cfg == m.cfg && |m.log.charges| <= |m'.log.charges| <= |m.log.charges| + 1
      && m'.log.charges[..|m.log.charges|] == m.log.charges
      && (|m'.log.charges| > 0 ==> m'.p1 == m.p1)
      && (|m'.log.charges| > |m.log.charges| ==> GoodCharge(m, a.input, m'.log.charges[|m.log.charges|]))
  {
    if m.alive {
      if Phase1(m) {
        NoChargeBefore(m);
      }
      StepEffect(m, a, ui);
      SignatureInReply(m, a, ui);
      hide Shape, Step, GoodCharge, Good143, Presents, Phase1Effect, WireEffect, ChargeOk;
    }
  }

  lemma NoChargeBefore(m: Model)
    requires Shape(m) && m.alive && Phase1(m)
    ensures m.log.charges == []
  {
    hide FpAll, Total, TotalShown, TotalClaimed, TotalCharged;
  }

  /**
   Whatever the host sends: each BIP-143 preimage ever signed has the ten fields of one input that
   it sent, with the digests of the outpoints, sequences and outputs of Phase 1 in their places.
   */
  lemma {:induction false} SignedFields(cfg: Config, host: seq<(Ack, Choices)>)
    requires cfg.Valid()
    ensures AllForMessages(Run(cfg, host), host)
  {
    hide Step, Shape, ForMessage;
    if |host| == 0 {
      RunStarts(cfg);
    } else {
      var front, last := host[..|host| - 1], host[|host| - 1];
      SignedFields(cfg, front);
      RunGrows(cfg, front, last.0, last.1);
      StepCharges(Run(cfg, front), front, last.0, last.1);
      assert front + [last] == host;
    }
  }

  lemma {:induction false} RunIsCoded(cfg: Config, host: seq<(Ack, Choices)>)
    requires cfg.Valid()
    ensures Coded(Run(cfg, host))
  {
    hide Step, Shape, CodedIn;
    if |host| == 0 {
      RunStarts(cfg);
    } else {
      var front, last := host[..|host| - 1], host[|host| - 1];
      RunIsCoded(cfg, front);
      StepKeepsCoded(Run(cfg, front), last.0, last.1);
      RunGrows(cfg, front, last.0, last.1);
      assert front + [last] == host;
    }
  }

  /** What a legacy signature is over: a whole transaction of these inputs and outputs, lock time and hash type. */
  ghost predicate SignsLegacy(cfg: Config, inputs: seq<TxInput>, outs: seq<TxOut>, preimage: Bytes)
  {
    exists hashType: uint32 ::
      && HashTypeIs(cfg.forkid, hashType)
      && Parse(false, preimage).Some?
      && var tx := Parse(false, preimage).value;
         && tx.version == cfg.version && tx.preblock == (if cfg.version == 12 then Reverse(cfg.preblock) else [])
         && |tx.ins| == |inputs| && (forall k :: 0 <= k < |inputs| ==>
              tx.ins[k] == TxIn(inputs[k].prevHash, inputs[k].prevIndex, inputs[k].scriptSig, inputs[k].sequence))
         && tx.outs == outs && tx.rest == Le32(cfg.lockTime) + Le32(hashType)
  }

  lemma LegacyReads(cfg: Config, inputs: seq<TxInput>, outs: seq<TxOut>)
    requires cfg.Valid() && |inputs| == cfg.inputsCount && |outs| == cfg.outputsCount
    ensures SignsLegacy(cfg, inputs, outs, HashStream(cfg.Head(false), Wires(inputs), outs, []) + Le32(cfg.HashType()))
  {
    hide Parse, HashTypeIs, LittleEndian;
    HashTypeSays(cfg);
    WholeLegacy(cfg, inputs, outs);
    StreamTail(cfg.Head(false), Wires(inputs), outs, Le32(cfg.HashType()));
    ParseHashStream(cfg.Head(false), Wires(inputs), outs, Le32(cfg.HashType()));
  }

  lemma WholeLegacy(cfg: Config, inputs: seq<TxInput>, outs: seq<TxOut>)
    requires cfg.Valid() && |inputs| == cfg.inputsCount && |outs| == cfg.outputsCount
    ensures WholeTx(cfg.Head(false), Wires(inputs), outs)
  {
  }

  lemma StreamTail(h: Header, ins: seq<TxIn>, outs: seq<TxOut>, tail: Bytes)
    ensures HashStream(h, ins, outs, []) + tail == HashStream(h, ins, outs, tail)
  {
    hide HashBody;
    var b, none: Bytes := HashBody(h, ins, outs), [];
    assert b + none == b;
    assert HashStream(h, ins, outs, none) == b;
    assert HashStream(h, ins, outs, tail) == b + tail;
  }

  /**
   Whatever the host sends: each legacy preimage reads as the transaction of Phase 1, with the
   script of the input being signed in its place and no other script.
   */
  lemma LegacyFields(cfg: Config, host: seq<(Ack, Choices)>, k: nat)
    requires cfg.Valid() && k < |Run(cfg, host).log.legacy|
    requires CollisionFree(cfg.env, Run(cfg, host).log.hashed)
    ensures var m := Run(cfg, host); var r := m.log.legacy[k];
      && SignsLegacy(cfg, r.inputs, Bins(m.p1.shown), r.preimage)
      && r.index < |r.inputs| && CodeOf(cfg.env, r.inputs[r.index], r.inputs[r.index].scriptSig)
      && forall j :: 0 <= j < |r.inputs| && j != r.index ==> r.inputs[j].scriptSig == []
  {
    hide Run, SignsLegacy, SameInput, CollisionFree, CodeOf, HashStream, Wires;
    var m := Run(cfg, host);
    LegacyAgreement(cfg, host, k);
    RunIsCoded(cfg, host);
    assert CodedIn(m.cfg.env, m.log.legacy[k].inputs, m.log.legacy[k].index);
    LegacyReads(cfg, m.log.legacy[k].inputs, Bins(m.p1.shown));
  }
}

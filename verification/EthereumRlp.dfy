/**
 RLP as firmware/ethereum.c writes it: lengths are computed in one pass and bytes in
 another. The decoder is that of the Yellow Paper, Appendix B.
 */
module EthereumRlp {
  import opened Bytes

  const TWO24: int := 0x100_0000

  // ---------------------------------------------------------------- writing

  /** `hash_rlp_length`: nothing in front of a single byte below 0x80. */
  function StringHeader(length: nat, first: byte): (r: Bytes)
    requires length < TWO24
  {
    if length == 1 && first <= 0x7f then [] else LengthHeader(length, 0x80)
  }

  /** `hash_rlp_list_length`. */
  function ListHeader(length: nat): (r: Bytes)
    requires length < TWO24
  {
    LengthHeader(length, 0xc0)
  }

  function LengthHeader(length: nat, base: byte): Bytes
    requires length < TWO24 && base <= 0xc0
  {
    if length <= 55 then [base as int + length]
    else if length <= 0xff then [base as int + 56, length]
    else if length <= 0xffff then [base as int + 57, length / 256, length % 256]
    else [base as int + 58, length / 65536, length / 256 % 256, length % 256]
  }

  function FirstByte(b: Bytes): byte
  {
    if |b| == 0 then 0 else b[0]
  }

  /** `hash_rlp_field`. */
  function Field(b: Bytes): Bytes
    requires |b| < TWO24
  {
    StringHeader(|b|, FirstByte(b)) + b
  }

  predicate Small(items: seq<Bytes>)
  {
    forall i :: 0 <= i < |items| ==> |items[i]| < TWO24
  }

  function Fields(items: seq<Bytes>): Bytes
    requires Small(items)
  {
    if |items| == 0 then [] else Field(items[0]) + Fields(items[1..])
  }

  /** Big-endian without leading zeros; zero is the empty string. */
  function NumberBytes(n: nat): Bytes
  {
    if n == 0 then [] else NumberBytes(n / 256) + [n % 256]
  }

  /** `rlp_calculate_length`. */
  function CalculatedLength(length: nat, first: byte): nat
  {
    if length == 1 && first <= 0x7f then 1
    else if length <= 55 then 1 + length
    else if length <= 0xff then 2 + length
    else if length <= 0xffff then 3 + length
    else 4 + length
  }

  /** The length computed for a field is the length of the field. */
  lemma CalculatedIsWritten(b: Bytes)
    requires |b| < TWO24
    ensures CalculatedLength(|b|, FirstByte(b)) == |Field(b)|
  {
  }

  // --------------------------------------------------------------- decoding

  /** One string item: its bytes and what follows; None for lists and truncated input. */
  function DecodeItem(b: Bytes): Option<(Bytes, Bytes)>
  {
    if |b| == 0 then None
    else if b[0] < 0x80 then Some((b[..1], b[1..]))
    else if b[0] >= 0xc0 then None
    else
      match DecodeLength(b, 0x80)
      case None => None
      case Some((length, at)) =>
        if |b| < at + length then None else Some((b[at..at + length], b[at + length..]))
  }

  /** The length and the end of the header that starts with `base` plus a length or a length of length. */
  function DecodeLength(b: Bytes, base: byte): (r: Option<(nat, nat)>)
    requires |b| > 0 && base <= b[0]
  {
    var d := b[0] as int - base as int;
    if d <= 55 then Some((d, 1))
    else if |b| < 1 + (d - 55) then None
    else Some((BigEndian(b[1..1 + (d - 55)]), 1 + (d - 55)))
  }

  function BigEndian(b: Bytes): nat
  {
    if |b| == 0 then 0 else 256 * BigEndian(b[..|b| - 1]) + b[|b| - 1] as int
  }

  function DecodeItems(b: Bytes): Option<seq<Bytes>>
    decreases |b|
  {
    if |b| == 0 then Some([])
    else
      match DecodeItem(b)
      case None => None
      case Some((item, rest)) =>
        if |rest| >= |b| then None
        else
          match DecodeItems(rest)
          case None => None
          case Some(items) => Some([item] + items)
  }

  /** A whole message: one list whose payload is exactly the announced length. */
  function DecodeList(b: Bytes): Option<seq<Bytes>>
  {
    if |b| == 0 || b[0] < 0xc0 then None
    else
      match DecodeLength(b, 0xc0)
      case None => None
      case Some((length, at)) => if |b| != at + length then None else DecodeItems(b[at..])
  }

  lemma HeaderDecodes(length: nat, base: byte, rest: Bytes)
    requires length < TWO24 && base <= 0xc0
    ensures LengthHeader(length, base) != [] && base <= LengthHeader(length, base)[0]
    ensures DecodeLength(LengthHeader(length, base) + rest, base) == Some((length, |LengthHeader(length, base)|))
  {
    var h := LengthHeader(length, base);
    var b := h + rest;
    if length > 55 {
      assert b[1..|h|] == h[1..];
      if length <= 0xff {
        BigEndianOne(length);
      } else if length <= 0xffff {
        BigEndianTwo(length / 256, length % 256);
      } else {
        BigEndianThree(length / 65536, length / 256 % 256, length % 256);
      }
    }
  }

  lemma BigEndianOne(x: byte)
    ensures BigEndian([x]) == x
  {
    assert [x][..0] == [];
  }

  lemma BigEndianTwo(x: byte, y: byte)
    ensures BigEndian([x, y]) == 256 * x + y
  {
    assert [x, y][..1] == [x];
    BigEndianOne(x);
  }

  lemma BigEndianThree(x: byte, y: byte, z: byte)
    ensures BigEndian([x, y, z]) == 65536 * x + 256 * y + z
  {
    assert [x, y, z][..2] == [x, y];
    BigEndianTwo(x, y);
  }

  /** A field decodes to its bytes, whatever follows. */
  lemma FieldDecodes(item: Bytes, rest: Bytes)
    requires |item| < TWO24
    ensures DecodeItem(Field(item) + rest) == Some((item, rest))
    ensures |Field(item)| > 0
  {
    var b := Field(item) + rest;
    if |item| == 1 && item[0] <= 0x7f {
      assert b[..1] == item && b[1..] == rest;
    } else {
      var h := LengthHeader(|item|, 0x80);
      HeaderDecodes(|item|, 0x80, item + rest);
      AppendAssoc(h, item, rest);
      assert b[0] == h[0] < 0xc0;
      assert b[|h|..|h| + |item|] == item && b[|h| + |item|..] == rest;
    }
  }

  lemma {:induction false} FieldsAppend(a: seq<Bytes>, b: seq<Bytes>)
    requires Small(a) && Small(b)
    ensures Small(a + b) && Fields(a + b) == Fields(a) + Fields(b)
  {
    hide Field;
    if |a| == 0 {
      assert a + b == b;
    } else {
      assert a + b == [a[0]] + (a[1..] + b) && (a + b)[1..] == a[1..] + b;
      FieldsAppend(a[1..], b);
      AppendAssoc(Field(a[0]), Fields(a[1..]), Fields(b));
    }
  }

  lemma OneField(item: Bytes)
    requires |item| < TWO24
    ensures Small([item]) && Fields([item]) == Field(item)
  {
    hide Field;
    assert [item][1..] == [];
    assert Field(item) + [] == Field(item);
  }

  lemma FieldsSnoc(items: seq<Bytes>, item: Bytes)
    requires |item| < TWO24 && Small(items)
    ensures Small(items + [item]) && Fields(items + [item]) == Fields(items) + Field(item)
  {
    hide Field, Fields;
    OneField(item);
    FieldsAppend(items, [item]);
  }

  /** The payload decodes to exactly its items. */
  lemma {:induction false} FieldsDecode(items: seq<Bytes>)
    requires Small(items)
    ensures DecodeItems(Fields(items)) == Some(items)
    decreases |items|
  {
    if |items| == 0 {
    } else {
      FieldsDecode(items[1..]);
      OneMoreDecodes(items[0], items[1..]);
      assert items == [items[0]] + items[1..];
    }
  }

  /** A field in front of a payload is decoded first. */
  lemma OneMoreDecodes(item: Bytes, items: seq<Bytes>)
    requires |item| < TWO24 && Small(items) && DecodeItems(Fields(items)) == Some(items)
    ensures DecodeItems(Field(item) + Fields(items)) == Some([item] + items)
  {
    hide Field, DecodeItem, Fields, Small;
    FieldDecodes(item, Fields(items));
  }

  /** A list whose announced length is right decodes to its items; a wrong length never decodes. */
  lemma ListDecodes(announced: nat, items: seq<Bytes>)
    requires announced < TWO24 && Small(items)
    ensures DecodeList(ListHeader(announced) + Fields(items))
         == if announced == |Fields(items)| then Some(items) else None
  {
    var h, payload := ListHeader(announced), Fields(items);
    HeaderDecodes(announced, 0xc0, payload);
    assert (h + payload)[|h|..] == payload;
    FieldsDecode(items);
  }

  // ---------------------------------------------------------- transactions

  const MAX_CHAIN_ID: nat := 2147483630
  const MAX_DATA: nat := 16000000

  /** What is signed: the field sizes are those the messages allow, the fee bound that of the safety check. */
  datatype Tx = Tx(nonce: Bytes, gasPrice: Bytes, gasLimit: Bytes, to: Bytes, value: Bytes, data: Bytes, chainId: nat)
  {
    predicate Valid()
    {
      && |nonce| <= 32 && |gasPrice| + |gasLimit| <= 30 && (|to| == 20 || |to| == 0) && |value| <= 32
      && |data| <= MAX_DATA && chainId <= MAX_CHAIN_ID
    }

    /** Six fields, nine with replay protection (EIP-155). */
    function Items(): seq<Bytes>
    {
      [nonce, gasPrice, gasLimit, to, value, data] + (if chainId == 0 then [] else [NumberBytes(chainId), [], []])
    }

    /** Stage 1, for `total` bytes of data that begin with `first`; for the chain id a single byte is assumed. */
    function AnnouncedFor(total: nat, first: byte): nat
    {
      CalculatedLength(|nonce|, FirstByte(nonce)) + CalculatedLength(|gasPrice|, FirstByte(gasPrice))
      + CalculatedLength(|gasLimit|, FirstByte(gasLimit)) + CalculatedLength(|to|, FirstByte(to))
      + CalculatedLength(|value|, FirstByte(value)) + CalculatedLength(total, first)
      + (if chainId == 0 then 0
         else CalculatedLength(1, chainId % 256) + CalculatedLength(0, 0) + CalculatedLength(0, 0))
    }

    function Announced(): nat
    {
      AnnouncedFor(|data|, FirstByte(data))
    }
  }

  lemma {:induction false} NumberBytesLength(n: nat)
    requires n < TWO32
    ensures |NumberBytes(n)| <= 4 && (|NumberBytes(n)| <= 1 <==> n < 256)
    ensures n < 16777216 ==> |NumberBytes(n)| <= 3
    ensures n < 65536 ==> |NumberBytes(n)| <= 2
    ensures 0 < n < 256 ==> NumberBytes(n) == [n]
  {
    if n >= 256 {
      NumberBytesLength(n / 256);
    }
  }

  /** The bytes of a number have its value, and the first of them is not zero. */
  lemma {:induction false} NumberBytesValue(n: nat)
    ensures BigEndian(NumberBytes(n)) == n
    ensures if n == 0 then NumberBytes(n) == [] else NumberBytes(n) != [] && NumberBytes(n)[0] != 0
  {
    if n > 0 {
      NumberBytesValue(n / 256);
      var b := NumberBytes(n);
      assert b[..|b| - 1] == NumberBytes(n / 256) && b[|b| - 1] as int == n % 256;
    }
  }

  lemma ItemsSmall(t: Tx)
    requires t.Valid()
    ensures Small(t.Items())
  {
    NumberBytesLength(t.chainId);
  }

  /** The fields in front of the data. */
  function FiveFields(t: Tx): Bytes
    requires t.Valid()
  {
    Field(t.nonce) + Field(t.gasPrice) + Field(t.gasLimit) + Field(t.to) + Field(t.value)
  }

  function SixFields(t: Tx): Bytes
    requires t.Valid()
  {
    FiveFields(t) + Field(t.data)
  }

  lemma SixFieldsAre(t: Tx)
    requires t.Valid()
    ensures var six := [t.nonce, t.gasPrice, t.gasLimit, t.to, t.value, t.data];
      Small(six) && Fields(six) == SixFields(t)
  {
    hide Field, Fields;
    var a := [t.nonce];
    var b := a + [t.gasPrice];
    var c := b + [t.gasLimit];
    var d := c + [t.to];
    var e := d + [t.value];
    OneField(t.nonce);
    FieldsSnoc(a, t.gasPrice);
    FieldsSnoc(b, t.gasLimit);
    FieldsSnoc(c, t.to);
    FieldsSnoc(d, t.value);
    FieldsSnoc(e, t.data);
    assert [t.nonce, t.gasPrice, t.gasLimit, t.to, t.value, t.data] == e + [t.data];
  }

  /** The three replay protection fields as they are written. */
  function ReplayFields(chainId: nat): Bytes
    requires chainId <= MAX_CHAIN_ID
  {
    if chainId == 0 then []
    else
      NumberBytesLength(chainId);
      Field(NumberBytes(chainId)) + Field([]) + Field([])
  }

  lemma PayloadIs(t: Tx)
    requires t.Valid()
    ensures Small(t.Items()) && Fields(t.Items()) == SixFields(t) + ReplayFields(t.chainId)
  {
    hide Field, Fields;
    ItemsSmall(t);
    SixFieldsAre(t);
    var six := [t.nonce, t.gasPrice, t.gasLimit, t.to, t.value, t.data];
    if t.chainId == 0 {
      assert t.Items() == six;
    } else {
      NumberBytesLength(t.chainId);
      FieldsSnoc(six, NumberBytes(t.chainId));
      FieldsSnoc(six + [NumberBytes(t.chainId)], []);
      FieldsSnoc(six + [NumberBytes(t.chainId)] + [[]], []);
      assert t.Items() == six + [NumberBytes(t.chainId)] + [[]] + [[]];
      Regroup(SixFields(t), Field(NumberBytes(t.chainId)), Field([]), Field([]));
    }
  }

  lemma Regroup(a: Bytes, b: Bytes, c: Bytes, d: Bytes)
    ensures a + b + c + d == a + (b + c + d)
  {
  }

  lemma ReplayLength(chainId: nat)
    requires 0 < chainId <= MAX_CHAIN_ID
    ensures |ReplayFields(chainId)| == CalculatedLength(1, chainId % 256) + 2 <==> chainId <= 255
  {
    NumberBytesLength(chainId);
    CalculatedIsWritten(NumberBytes(chainId));
    CalculatedIsWritten([]);
  }

  /** The announced length stays below 2^24, and it is the length written exactly when the chain id fits one byte. */
  lemma AnnouncedIsWritten(t: Tx)
    requires t.Valid()
    ensures t.Announced() < TWO24
    ensures Small(t.Items())
    ensures t.Announced() == |Fields(t.Items())| <==> t.chainId <= 255
  {
    hide Field, Fields, NumberBytes, FirstByte;
    PayloadIs(t);
    hide Tx.Items, Small;
    CalculatedIsWritten(t.nonce);
    CalculatedIsWritten(t.gasPrice);
    CalculatedIsWritten(t.gasLimit);
    CalculatedIsWritten(t.to);
    CalculatedIsWritten(t.value);
    CalculatedIsWritten(t.data);
    if t.chainId > 0 {
      ReplayLength(t.chainId);
    }
  }

  /** Everything that is hashed for a transaction. */
  function Preimage(t: Tx): Bytes
    requires t.Valid()
  {
    AnnouncedIsWritten(t);
    ListHeader(t.Announced()) + SixFields(t) + ReplayFields(t.chainId)
  }

  /** What is signed decodes to exactly the transaction's fields if and only if the chain id fits one byte. */
  lemma SignedBytesDecode(t: Tx)
    requires t.Valid()
    ensures DecodeList(Preimage(t)) == (if t.chainId <= 255 then Some(t.Items()) else None)
  {
    AnnouncedIsWritten(t);
    PayloadIs(t);
    AppendAssoc(ListHeader(t.Announced()), SixFields(t), ReplayFields(t.chainId));
    ListDecodes(t.Announced(), t.Items());
  }

  /** Behind the one to four bytes of the list's header the fields follow, whatever the chain id. */
  lemma PayloadDecodes(t: Tx) returns (skip: nat)
    requires t.Valid()
    ensures 1 <= skip <= 4 && skip <= |Preimage(t)| && DecodeItems(Preimage(t)[skip..]) == Some(t.Items())
  {
    hide Field, Fields, NumberBytes, Tx.Items, DecodeItems;
    AnnouncedIsWritten(t);
    PayloadIs(t);
    hide Small;
    var h := ListHeader(t.Announced());
    AppendAssoc(h, SixFields(t), ReplayFields(t.chainId));
    skip := |h|;
    assert Preimage(t)[skip..] == Fields(t.Items());
    FieldsDecode(t.Items());
  }

  /** Different transactions with one-byte chain ids are never signed as the same bytes. */
  lemma SignedBytesInjective(t: Tx, u: Tx)
    requires t.Valid() && u.Valid() && t.chainId <= 255 && u.chainId <= 255 && Preimage(t) == Preimage(u)
    ensures t == u
  {
    SignedBytesDecode(t);
    SignedBytesDecode(u);
    var a, b := t.Items(), u.Items();
    assert a == b && a[0] == b[0] && a[1] == b[1] && a[2] == b[2] && a[3] == b[3] && a[4] == b[4] && a[5] == b[5];
    assert |a| == 6 <==> t.chainId == 0;
    assert |b| == 6 <==> u.chainId == 0;
    if t.chainId > 0 {
      assert a[6] == b[6];
      NumberBytesLength(t.chainId);
      NumberBytesLength(u.chainId);
      assert [t.chainId][0] == [u.chainId][0];
    }
  }

  /** The recovery value of a signature, a 32-bit sum. */
  function SignatureV(v: nat, chainId: nat): nat
  {
    if chainId == 0 then (v + 27) % TWO32 else (v + 2 * chainId + 35) % TWO32
  }

  /** It is the value of EIP-155 except at the largest chain id with an odd v, where it wraps to 0. */
  lemma SignatureVFits(v: nat, chainId: nat)
    requires v <= 1 && 0 < chainId <= MAX_CHAIN_ID
    ensures SignatureV(v, chainId) == v + 2 * chainId + 35 <==> !(chainId == MAX_CHAIN_ID && v == 1)
  {
  }
}

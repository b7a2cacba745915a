/**
 Flash behind the bootloader (memory.h): two sectors of firmware metadata, settings and
 counters, then eight code sectors. Programming a word clears bits, erasing a sector sets
 them, and the power can go between any two operations or during an erase.
 */
module FlashMemory {
  import opened Bytes

  const WORDS: nat := 253952
  const META_WORDS: nat := 8192
  const SECTOR: nat := 4096
  const ERASED: uint32 := 0xffff_ffff

  type Addr = x: int | 0 <= x < 253952
  type Image = s: seq<uint32> | |s| == 253952 witness seq(253952, _ => 0)

  type CodeSector = x: int | 0 <= x < 8

  datatype Sector = First | Last | Code(n: CodeSector)

  datatype Op = Write(at: Addr, word: uint32) | Erase(sector: Sector)

  // -------------------------------------------------------------- bits

  function Pow2(n: nat): (r: nat)
    ensures r > 0
  {
    if n == 0 then 1 else 2 * Pow2(n - 1)
  }

  lemma Pow2Monotone(a: nat, b: nat)
    requires a <= b
    ensures Pow2(a) <= Pow2(b)
  {
    if a < b {
      Pow2Monotone(a, b - 1);
    }
  }

  lemma Pow2Of32()
    ensures Pow2(32) == TWO32 && Pow2(5) == 32 && Pow2(15) == 32768 && Pow2(16) == 65536
  {
    assert Pow2(5) == 32;
    assert Pow2(10) == 1024 by { assert Pow2(8) == 256; }
    assert Pow2(15) == 32768 by { assert Pow2(12) == 4096; }
    assert Pow2(16) == 65536;
    assert Pow2(20) == 1048576 by { assert Pow2(18) == 262144; }
    assert Pow2(24) == 16777216 by { assert Pow2(22) == 4194304; }
    assert Pow2(28) == 268435456 by { assert Pow2(26) == 67108864; }
    assert Pow2(32) == TWO32 by { assert Pow2(30) == 1073741824; }
  }

  /** Bitwise and. */
  function And(a: nat, b: nat): (r: nat)
    ensures r <= a && r <= b
  {
    if a == 0 || b == 0 then 0
    else 2 * And(a / 2, b / 2) + (if a % 2 == 1 && b % 2 == 1 then 1 else 0)
  }

  /** The `n`-bit number whose bits `k` and above are set. */
  function High(n: nat, k: nat): (r: nat)
    requires k <= n
  {
    Pow2Monotone(k, n);
    Pow2(n) - Pow2(k)
  }

  lemma HighHalves(n: nat, k: nat)
    requires k <= n && 0 < n
    ensures High(n, k) / 2 == High(n - 1, if k == 0 then 0 else k - 1)
    ensures High(n, k) % 2 == if k == 0 then 1 else 0
  {
    Pow2Monotone(if k == 0 then 0 else k - 1, n - 1);
  }

  /** Clearing low bits of a word whose low bits are cleared leaves the larger number of them cleared. */
  lemma {:induction false} AndHigh(n: nat, j: nat, k: nat)
    requires j <= n && k <= n
    ensures And(High(n, j), High(n, k)) == High(n, if j < k then k else j)
  {
    if n > 0 && High(n, j) != 0 && High(n, k) != 0 {
      HighHalves(n, j);
      HighHalves(n, k);
      HighHalves(n, if j < k then k else j);
      AndHigh(n - 1, if j == 0 then 0 else j - 1, if k == 0 then 0 else k - 1);
    } else if n > 0 {
      HighZero(n, j);
      HighZero(n, k);
    }
  }

  lemma {:induction false} HighZero(n: nat, k: nat)
    requires k <= n
    ensures High(n, k) == 0 <==> k == n
  {
    if k < n {
      Pow2Monotone(k, n - 1);
    }
  }

  lemma {:induction false} AndOnes(n: nat, x: nat)
    requires x < Pow2(n)
    ensures And(High(n, 0), x) == x
  {
    if n > 0 && x > 0 {
      HighHalves(n, 0);
      AndOnes(n - 1, x / 2);
    }
  }

  /** Programming a word of erased flash stores it. */
  lemma AndErased(x: uint32)
    ensures And(ERASED, x) == x
  {
    Pow2Of32();
    AndOnes(32, x);
  }

  /** Every bit that is set in `b` was set in `a`. */
  predicate ClearsOnly(a: uint32, b: uint32)
  {
    And(a, b) == b
  }

  // ---------------------------------------------------------- operations

  /** Metadata sectors are 16 kB, the first code sector 64 kB, the others 128 kB. */
  function Start(sector: Sector): nat
  {
    match sector
    case First => 0
    case Last => SECTOR
    case Code(n) => if n == 0 then META_WORDS else 24576 + (n as int - 1) * 32768
  }

  function Size(sector: Sector): (r: nat)
    ensures Start(sector) + r <= WORDS
  {
    match sector
    case First => SECTOR
    case Last => SECTOR
    case Code(n) => if n == 0 then 16384 else 32768
  }

  predicate Inside(sector: Sector, i: nat)
  {
    Start(sector) <= i < Start(sector) + Size(sector)
  }

  function Do(s: Image, op: Op): Image
  {
    match op
    case Write(at, word) => s[at := And(s[at], word)]
    case Erase(sector) => seq(253952, i requires 0 <= i < 253952 => if Inside(sector, i) then ERASED else s[i])
  }

  function DoAll(s: Image, ops: seq<Op>): Image
  {
    if |ops| == 0 then s else Do(DoAll(s, ops[..|ops| - 1]), ops[|ops| - 1])
  }

  lemma {:induction false} DoAllAppend(s: Image, a: seq<Op>, b: seq<Op>)
    ensures DoAll(s, a + b) == DoAll(DoAll(s, a), b)
  {
    if |b| == 0 {
      assert a + b == a;
    } else {
      assert (a + b)[..|a + b| - 1] == a + b[..|b| - 1];
      DoAllAppend(s, a, b[..|b| - 1]);
    }
  }

  lemma DoNone(s: Image)
    ensures DoAll(s, []) == s
  {
  }

  lemma DoOne(s: Image, op: Op)
    ensures DoAll(s, [op]) == Do(s, op)
  {
    assert [op][..0] == [];
  }

  // ----------------------------------------------------------- power cuts

  /** An interrupted erase leaves anything in its sector. */
  ghost predicate Torn(s: Image, op: Op, t: Image)
  {
    op.Erase? && forall i :: 0 <= i < WORDS && !Inside(op.sector, i) ==> t[i] == s[i]
  }

  /** What a power cut may leave of a list of operations: some of them done, perhaps one erase torn. */
  ghost predicate CutAt(s: Image, ops: seq<Op>, k: nat, t: Image)
    requires k <= |ops|
  {
    || t == DoAll(s, ops[..k])
    || (k < |ops| && Torn(DoAll(s, ops[..k]), ops[k], t))
  }

  ghost predicate Cut(s: Image, ops: seq<Op>, t: Image)
  {
    exists k :: 0 <= k <= |ops| && CutAt(s, ops, k, t)
  }

  /** A cut of two lists in a row falls into the first or into the second. */
  lemma CutAppend(s: Image, a: seq<Op>, b: seq<Op>, t: Image)
    requires Cut(s, a + b, t)
    ensures Cut(s, a, t) || Cut(DoAll(s, a), b, t)
  {
    var k :| 0 <= k <= |a + b| && CutAt(s, a + b, k, t);
    if k < |a| {
      assert (a + b)[..k] == a[..k] && (a + b)[k] == a[k];
      assert CutAt(s, a, k, t);
    } else {
      assert (a + b)[..k] == a + b[..k - |a|];
      DoAllAppend(s, a, b[..k - |a|]);
      assert CutAt(DoAll(s, a), b, k - |a|, t);
    }
  }

  /** A list that leaves a word alone leaves it alone wherever it is cut. */
  predicate Touches(op: Op, i: nat)
  {
    match op
    case Write(at, _) => at == i
    case Erase(sector) => Inside(sector, i)
  }

  lemma {:induction false} Untouched(s: Image, ops: seq<Op>, i: Addr)
    requires forall k :: 0 <= k < |ops| ==> !Touches(ops[k], i)
    ensures DoAll(s, ops)[i] == s[i]
  {
    if |ops| > 0 {
      Untouched(s, ops[..|ops| - 1], i);
    }
  }

  lemma UntouchedByCut(s: Image, ops: seq<Op>, t: Image, i: Addr)
    requires Cut(s, ops, t) && forall k :: 0 <= k < |ops| ==> !Touches(ops[k], i)
    ensures t[i] == s[i]
  {
    var k :| 0 <= k <= |ops| && CutAt(s, ops, k, t);
    Untouched(s, ops[..k], i);
    if k < |ops| {
      assert !Touches(ops[k], i);
    }
  }

  // ------------------------------------------------------- runs of words

  function WriteWords(at: nat, words: seq<uint32>): (ops: seq<Op>)
    requires at + |words| <= WORDS
    ensures |ops| == |words|
  {
    seq(|words|, i requires 0 <= i < |words| => Write(at + i, words[i]))
  }

  lemma WriteWordsSnoc(at: nat, words: seq<uint32>, w: uint32)
    requires at + |words| + 1 <= WORDS
    ensures WriteWords(at, words + [w]) == WriteWords(at, words) + [Write(at + |words|, w)]
  {
  }

  /** Words written to erased flash are stored; everything else stays. */
  lemma {:induction false} WrittenWords(s: Image, at: nat, words: seq<uint32>)
    requires at + |words| <= WORDS
    requires forall i :: at <= i < at + |words| ==> s[i] == ERASED
    ensures forall i :: 0 <= i < WORDS ==>
      DoAll(s, WriteWords(at, words))[i] == if at <= i < at + |words| then words[i - at] else s[i]
    decreases |words|
  {
    if |words| > 0 {
      var front, w := words[..|words| - 1], words[|words| - 1];
      assert words == front + [w];
      WriteWordsSnoc(at, front, w);
      WrittenWords(s, at, front);
      DoAllAppend(s, WriteWords(at, front), [Write(at + |front|, w)]);
      DoOne(DoAll(s, WriteWords(at, front)), Write(at + |front|, w));
      AndErased(w);
    }
  }

  // ------------------------------------------------------------- the chip

  /** The flash words with a record of every operation. */
  class Chip {
    const words: array<uint32>
    ghost var ops: seq<Op>
    ghost var origin: Image

    ghost predicate Valid()
      reads this, words
    {
      words.Length == WORDS && words[..] == DoAll(origin, ops)
    }

    function Contents(): Image
      requires words.Length == WORDS
      reads this, words
    {
      words[..]
    }

    constructor (words: array<uint32>)
      requires words.Length == WORDS
      ensures Valid() && this.words == words && ops == [] && origin == words[..]
    {
      this.words, ops, origin := words, [], words[..];
    }

    /** `flash_write32`: programming only clears bits. */
    method Write32(at: Addr, word: uint32)
      requires Valid()
      modifies this`ops, words
      ensures Valid() && ops == old(ops) + [Write(at, word)] && Contents() == Do(old(Contents()), Write(at, word))
    {
      ghost var before := words[..];
      words[at] := And(words[at], word);
      DoAllAppend(origin, ops, [Write(at, word)]);
      DoOne(before, Write(at, word));
      ops := ops + [Write(at, word)];
      assert words[..] == Do(before, Write(at, word));
    }

    method EraseSector(sector: Sector)
      requires Valid()
      modifies this`ops, words
      ensures Valid() && ops == old(ops) + [Erase(sector)] && Contents() == Do(old(Contents()), Erase(sector))
    {
      ghost var before := words[..];
      var first := Start(sector);
      for i := first to first + Size(sector)
        invariant ops == old(ops)
        invariant forall j :: 0 <= j < WORDS ==> words[j] == if first <= j < i then ERASED else before[j]
      {
        words[i] := ERASED;
      }
      ghost var after := Do(before, Erase(sector));
      assert words[..] == after;
      DoAllAppend(origin, ops, [Erase(sector)]);
      DoOne(before, Erase(sector));
      ops := ops + [Erase(sector)];
    }
  }
}

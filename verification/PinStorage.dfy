/**
 What the settings sector and the counter sector mean (firmware/storage.c): when a
 rebooted device accepts them, where the PIN failures and the U2F counter stand, and
 what a power cut can do to either.
 */
module PinStorage {
  import opened Bytes
  import opened FlashMemory

  const STORAGE_MAGIC: uint32 := 0x726f_7473
  const STORAGE_VERSION: uint32 := 0x10001

  const MAGIC_AT: Addr := 64
  const STORAGE_AT: Addr := 68
  const U2F_COUNTER: nat := 371  // the word of the counter in the storage structure
  const PINAREA: Addr := 4096
  const PINAREA_END: Addr := 5120
  const U2FAREA: Addr := 5120
  const REST_WORDS: nat := 3072  // the U2F area and the reserved words behind it

  const MAX_WRONG_PINS: nat := 15

  /** `storage_from_flash`: anything else is wiped at boot. */
  predicate Accepts(s: Image)
  {
    s[MAGIC_AT] == STORAGE_MAGIC && s[STORAGE_AT] == STORAGE_VERSION
  }

  // -------------------------------------------------------------- PIN area

  /** `storage_getPinFailsOffset` stops here. */
  function FirstNonzero(s: Image, from: nat): (p: nat)
    requires from <= PINAREA_END
    ensures from <= p <= PINAREA_END
    ensures forall i :: from <= i < p ==> s[i] == 0
    ensures p < PINAREA_END ==> s[p] != 0
    decreases PINAREA_END - from
  {
    if from == PINAREA_END || s[from] != 0 then from else FirstNonzero(s, from + 1)
  }

  /** The PIN failure word. */
  function PinWord(s: Image): uint32
  {
    var p := FirstNonzero(s, PINAREA);
    if p < PINAREA_END then s[p] else 0
  }

  /** A word with `k` low bits cleared. */
  function Mask(k: nat): uint32
    requires k <= 32
  {
    Pow2Of32();
    High(32, k)
  }

  /** Zeros, one word with `k` low bits cleared at `p`, then erased words: `k` failures since the last success. */
  ghost predicate PinArea(s: Image, p: nat, k: nat)
  {
    && PINAREA <= p < PINAREA_END && k < 32
    && (forall i :: PINAREA <= i < p ==> s[i] == 0)
    && s[p] == Mask(k)
    && (forall i :: p < i < PINAREA_END ==> s[i] == ERASED)
  }

  /** The scan finds the failure word, so it stops inside the area. */
  lemma ScanFindsWord(s: Image, p: nat, k: nat)
    requires PinArea(s, p, k)
    ensures PINAREA <= p < PINAREA_END && k < 32
    ensures FirstNonzero(s, PINAREA) == p && PinWord(s) == Mask(k) != 0
  {
    HighZero(32, k);
  }

  /** The wait before the next attempt, in seconds, is 2^k - 1. */
  function PinWait(word: uint32): uint32
  {
    0xffff_ffff - word
  }

  lemma WaitIsExponential(k: nat)
    requires k < 32
    ensures PinWait(Mask(k)) == Pow2(k) - 1
    ensures PinWait(Mask(k)) >= 32768 <==> k > MAX_WRONG_PINS
  {
    Pow2Of32();
    if k <= 15 {
      Pow2Monotone(k, 15);
    } else {
      Pow2Monotone(16, k);
    }
    Pow2Monotone(k, 32);
  }

  /** The failure word after one more failure: shifted left by one. */
  lemma ShiftedHigh(k: nat)
    requires k < 32
    ensures Mask(k) * 2 % TWO32 == Mask(k + 1)
  {
    Pow2Of32();
    Pow2Monotone(k + 1, 32);
    if k == 31 {
      HighZero(32, 32);
    }
  }

  function Shifted(word: uint32): uint32
  {
    word * 2 % TWO32
  }

  // -------------------------------------------------------- lists of operations

  /** `storage_commit_locked`: the settings sector erased and written with a whole page. */
  function CommitOps(page: seq<uint32>): seq<Op>
    requires |page| == SECTOR
  {
    [Erase(First)] + WriteWords(0, page)
  }

  /** `storage_area_recycle`: the marker goes first. */
  function RecycleOps(page: seq<uint32>, pinFails: uint32): seq<Op>
    requires |page| == SECTOR
  {
    [Write(MAGIC_AT, 0), Erase(Last), Write(PINAREA, pinFails)] + CommitOps(page)
  }

  /** `storage_wipe`. */
  function WipeOps(page: seq<uint32>): seq<Op>
    requires |page| == SECTOR
  {
    CommitOps(page) + [Erase(Last)]
  }

  ghost predicate SameLast(s: Image, t: Image)
  {
    forall i :: SECTOR <= i < WORDS ==> t[i] == s[i]
  }

  /** A commit, wherever it is cut, leaves the counter sector alone. */
  lemma CommitKeepsLast(s: Image, page: seq<uint32>, t: Image)
    requires |page| == SECTOR && Cut(s, CommitOps(page), t)
    ensures SameLast(s, t)
  {
    forall i: Addr | SECTOR <= i < WORDS ensures t[i] == s[i] {
      UntouchedByCut(s, CommitOps(page), t, i);
    }
  }

  lemma SameLastSamePins(s: Image, t: Image, p: nat, k: nat)
    requires SameLast(s, t) && PinArea(s, p, k)
    ensures PinArea(t, p, k) && PinWord(t) == PinWord(s)
  {
    ScanFindsWord(s, p, k);
    ScanFindsWord(t, p, k);
  }

  /** A complete commit stores the page. */
  lemma CommitStores(s: Image, page: seq<uint32>)
    requires |page| == SECTOR
    ensures DoAll(s, CommitOps(page))[..SECTOR] == page
    ensures SameLast(s, DoAll(s, CommitOps(page)))
  {
    DoAllAppend(s, [Erase(First)], WriteWords(0, page));
    DoOne(s, Erase(First));
    WrittenWords(Do(s, Erase(First)), 0, page);
  }

  // ----------------------------------------------------- recycling is crash safe

  function RecycleStart(pinFails: uint32): seq<Op>
  {
    [Write(MAGIC_AT, 0), Erase(Last), Write(PINAREA, pinFails)]
  }

  /** The image once the marker is gone and the counter sector is new. */
  lemma RecycleStarted(s: Image, pinFails: uint32)
    ensures var r := DoAll(s, RecycleStart(pinFails));
      && r[MAGIC_AT] == 0 && r[PINAREA] == pinFails
      && (forall i :: SECTOR <= i < META_WORDS && i != PINAREA ==> r[i] == ERASED)
  {
    var a := Do(s, Write(MAGIC_AT, 0));
    var b := Do(a, Erase(Last));
    var ops := RecycleStart(pinFails);
    assert ops[..2] == [Write(MAGIC_AT, 0), Erase(Last)];
    assert ops[..2][..1] == [Write(MAGIC_AT, 0)];
    DoOne(s, Write(MAGIC_AT, 0));
    assert DoAll(s, ops[..2]) == b;
    AndErased(pinFails);
  }

  /** Before that point a cut leaves the old image, or no marker. */
  lemma RecycleStartCut(s: Image, pinFails: uint32, t: Image)
    requires Cut(s, RecycleStart(pinFails), t)
    ensures t == s || t[MAGIC_AT] == 0
  {
    var ops := RecycleStart(pinFails);
    var k :| 0 <= k <= |ops| && CutAt(s, ops, k, t);
    if k > 0 {
      DoOne(s, ops[0]);
      assert ops[..k] == [ops[0]] + ops[1..k];
      DoAllAppend(s, [ops[0]], ops[1..k]);
      Untouched(Do(s, ops[0]), ops[1..k], MAGIC_AT);
    } else {
      assert ops[..0] == [];
    }
  }

  /**
   Wherever recycling is cut, if the rebooted device accepts its storage, the PIN failures
   are the old ones or the new ones, never none by accident.
   */
  lemma RecycleCrashSafe(s: Image, page: seq<uint32>, pinFails: uint32, t: Image)
    requires |page| == SECTOR && pinFails != 0
    requires Cut(s, RecycleOps(page, pinFails), t) && Accepts(t)
    ensures t == s || (t[PINAREA] == pinFails && PinWord(t) == pinFails
                       && forall i :: PINAREA < i < META_WORDS ==> t[i] == ERASED)
  {
    CutAppend(s, RecycleStart(pinFails), CommitOps(page), t);
    if Cut(s, RecycleStart(pinFails), t) {
      RecycleStartCut(s, pinFails, t);
    } else {
      RecycleStarted(s, pinFails);
      CommitKeepsLast(DoAll(s, RecycleStart(pinFails)), page, t);
    }
  }

  /**
   Exactly when a cut between two operations leaves storage that is accepted: before the
   first operation, or once the version word of the new page is written.
   */
  lemma RecycleAcceptedWhen(s: Image, page: seq<uint32>, pinFails: uint32, k: nat)
    requires |page| == SECTOR && page[MAGIC_AT] == STORAGE_MAGIC && page[STORAGE_AT] == STORAGE_VERSION
    requires k <= |RecycleOps(page, pinFails)|
    ensures Accepts(DoAll(s, RecycleOps(page, pinFails)[..k])) <==> (k == 0 && Accepts(s)) || k > 4 + STORAGE_AT
  {
    var ops := RecycleOps(page, pinFails);
    var t := DoAll(s, ops[..k]);
    if k == 0 {
    } else if k <= 3 {
      assert ops[..k] == RecycleStart(pinFails)[..k];
      assert CutAt(s, RecycleStart(pinFails), k, t);
      RecycleStartCut(s, pinFails, t);
      MarkerGone(s, pinFails, k);
    } else {
      var r := DoAll(s, RecycleStart(pinFails));
      RecycleStarted(s, pinFails);
      var j := k - 4;
      assert ops[..k] == RecycleStart(pinFails) + ([Erase(First)] + WriteWords(0, page[..j]));
      DoAllAppend(s, RecycleStart(pinFails), [Erase(First)] + WriteWords(0, page[..j]));
      DoAllAppend(r, [Erase(First)], WriteWords(0, page[..j]));
      DoOne(r, Erase(First));
      WrittenWords(Do(r, Erase(First)), 0, page[..j]);
    }
  }

  lemma MarkerGone(s: Image, pinFails: uint32, k: nat)
    requires 0 < k <= 3
    ensures DoAll(s, RecycleStart(pinFails)[..k])[MAGIC_AT] == 0
  {
    var ops := RecycleStart(pinFails);
    DoOne(s, ops[0]);
    assert ops[..k] == [ops[0]] + ops[1..k];
    DoAllAppend(s, [ops[0]], ops[1..k]);
    Untouched(Do(s, ops[0]), ops[1..k], MAGIC_AT);
  }

  /** A wiped page is never accepted; until it is, the failures are still there. */
  lemma WipeCrashSafe(s: Image, page: seq<uint32>, t: Image)
    requires |page| == SECTOR && page[STORAGE_AT] != STORAGE_VERSION
    requires Cut(s, WipeOps(page), t) && Accepts(t)
    ensures SameLast(s, t)
  {
    CutAppend(s, CommitOps(page), [Erase(Last)], t);
    if Cut(s, CommitOps(page), t) {
      CommitKeepsLast(s, page, t);
    } else {
      CommitStores(s, page);
      assert DoAll(s, CommitOps(page))[STORAGE_AT] == page[STORAGE_AT];
      UntouchedByCut(DoAll(s, CommitOps(page)), [Erase(Last)], t, STORAGE_AT);
    }
  }
}

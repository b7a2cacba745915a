/**
 What one PIN attempt and one use of the U2F counter do to flash, whole or cut by the
 power (firmware/storage.c, firmware/protect.c).
 */
module PinRuns {
  import opened Bytes
  import opened FlashMemory
  import opened PinStorage

  /** A page of settings as the firmware writes it. */
  predicate SettingsPage(page: seq<uint32>)
  {
    |page| == SECTOR && page[MAGIC_AT] == STORAGE_MAGIC && page[STORAGE_AT] == STORAGE_VERSION
  }

  /** The page a wipe writes: the marker, but no settings. */
  predicate BlankPage(page: seq<uint32>)
  {
    |page| == SECTOR && page[STORAGE_AT] == 0
  }

  // ------------------------------------------------------------ PIN attempts

  /** `storage_increasePinFails`. */
  function IncreaseOps(s: Image): seq<Op>
    requires FirstNonzero(s, PINAREA) < PINAREA_END
  {
    var p := FirstNonzero(s, PINAREA);
    if Shifted(s[p]) == 0 then [] else [Write(p, Shifted(s[p]))]
  }

  /** `storage_resetPinFails` for the failure word at `p`. */
  function ResetOps(p: Addr, page: seq<uint32>): seq<Op>
    requires |page| == SECTOR
  {
    if p + 1 >= PINAREA_END then RecycleOps(page, ERASED) else [Write(p, 0)]
  }

  /** `protectPin` once a PIN has been entered: count first, then compare. */
  function TryOps(s: Image, right: bool, page: seq<uint32>, blank: seq<uint32>): seq<Op>
    requires FirstNonzero(s, PINAREA) < PINAREA_END && |page| == SECTOR && |blank| == SECTOR
  {
    var p := FirstNonzero(s, PINAREA);
    IncreaseOps(s)
    + (if right then ResetOps(p, page)
       else if PinWait(DoAll(s, IncreaseOps(s))[p]) >= 32768 then WipeOps(blank) else [])
  }

  /** The count goes up by one bit, in one word. */
  lemma Increased(s: Image, p: nat, k: nat)
    requires PinArea(s, p, k) && k < 31
    ensures FirstNonzero(s, PINAREA) == p && IncreaseOps(s) == [Write(p, Mask(k + 1))]
    ensures DoAll(s, IncreaseOps(s)) == s[p := Mask(k + 1)]
    ensures PinArea(DoAll(s, IncreaseOps(s)), p, k + 1)
    ensures ClearsOnly(s[p], Mask(k + 1))
  {
    ScanFindsWord(s, p, k);
    ShiftedHigh(k);
    HighZero(32, k + 1);
    AndHigh(32, k, k + 1);
    DoOne(s, Write(p, Mask(k + 1)));
  }

  /** Past 31 failures the word counts no further and nothing is written. */
  lemma IncreaseSaturates(s: Image, p: nat)
    requires PinArea(s, p, 31)
    ensures FirstNonzero(s, PINAREA) == p && IncreaseOps(s) == []
  {
    ScanFindsWord(s, p, 31);
    ShiftedHigh(31);
    HighZero(32, 32);
  }

  /** A cut while counting leaves the old count or the new one. */
  lemma IncreasedCut(s: Image, p: nat, k: nat, t: Image)
    requires PinArea(s, p, k) && k < 31 && FirstNonzero(s, PINAREA) < PINAREA_END && Cut(s, IncreaseOps(s), t)
    ensures t == s || t == DoAll(s, IncreaseOps(s))
  {
    Increased(s, p, k);
    var ops := IncreaseOps(s);
    var j :| 0 <= j <= |ops| && CutAt(s, ops, j, t);
    if j == 0 {
      assert ops[..0] == [];
    } else {
      assert ops[..1] == ops;
    }
  }

  lemma FreshArea(t: Image)
    requires t[PINAREA] == ERASED && forall i :: PINAREA < i < META_WORDS ==> t[i] == ERASED
    ensures PinArea(t, PINAREA, 0)
  {
    Pow2Of32();
  }

  /** What a right PIN leaves when the failure word is written to zero or the area starts over. */
  lemma ResetDone(s: Image, p: nat, k: nat, page: seq<uint32>) returns (p': nat)
    requires PinArea(s, p, k) && |page| == SECTOR
    ensures PinArea(DoAll(s, ResetOps(p, page)), p', 0)
  {
    if p + 1 >= PINAREA_END {
      var r := DoAll(s, RecycleStart(ERASED));
      RecycleStarted(s, ERASED);
      DoAllAppend(s, RecycleStart(ERASED), CommitOps(page));
      CommitStores(r, page);
      FreshArea(DoAll(s, RecycleOps(page, ERASED)));
      p' := PINAREA;
    } else {
      DoOne(s, Write(p, 0));
      Pow2Of32();
      p' := p + 1;
    }
  }

  lemma ResetCut(s: Image, p: nat, k: nat, page: seq<uint32>, t: Image) returns (p': nat, k': nat)
    requires PinArea(s, p, k) && |page| == SECTOR && Cut(s, ResetOps(p, page), t) && Accepts(t)
    ensures PinArea(t, p', k') && (k' == k || k' == 0)
  {
    if p + 1 >= PINAREA_END {
      RecycleCrashSafe(s, page, ERASED, t);
      if t == s {
        p', k' := p, k;
      } else {
        FreshArea(t);
        p', k' := PINAREA, 0;
      }
    } else {
      var ops := ResetOps(p, page);
      var j :| 0 <= j <= |ops| && CutAt(s, ops, j, t);
      if j == 0 {
        assert ops[..0] == [];
        p', k' := p, k;
      } else {
        assert ops[..1] == ops;
        p' := ResetDone(s, p, k, page);
        k' := 0;
      }
    }
  }

  lemma NothingCut(s: Image, t: Image)
    requires Cut(s, [], t)
    ensures t == s
  {
    var j :| 0 <= j <= 0 && CutAt(s, [], j, t);
    var none: seq<Op> := [];
    assert none[..j] == [];
  }

  /** What follows the count: the area starts over, the storage is wiped, or nothing. */
  function TryRest(s: Image, p: Addr, right: bool, page: seq<uint32>, blank: seq<uint32>): seq<Op>
    requires |page| == SECTOR && |blank| == SECTOR
  {
    if right then ResetOps(p, page) else if PinWait(s[p]) >= 32768 then WipeOps(blank) else []
  }

  lemma TryRestCut(mid: Image, p: nat, k: nat, right: bool, page: seq<uint32>, blank: seq<uint32>, t: Image)
    returns (p': nat, k': nat)
    requires PinArea(mid, p, k) && |page| == SECTOR && BlankPage(blank)
    requires Cut(mid, TryRest(mid, p, right, page, blank), t) && Accepts(t)
    ensures PinArea(t, p', k') && (k' == k || (right && k' == 0))
  {
    if right {
      p', k' := ResetCut(mid, p, k, page, t);
    } else {
      p', k' := p, k;
      if PinWait(mid[p]) >= 32768 {
        WipeCrashSafe(mid, blank, t);
        SameLastSamePins(mid, t, p, k);
      } else {
        NothingCut(mid, t);
      }
    }
  }

  /** The failure count after an attempt that was cut anywhere and is accepted after the reboot. */
  lemma TryCut(s: Image, p: nat, k: nat, right: bool, page: seq<uint32>, blank: seq<uint32>, t: Image)
    returns (p': nat, k': nat)
    requires PinArea(s, p, k) && k <= MAX_WRONG_PINS && |page| == SECTOR && BlankPage(blank)
    requires FirstNonzero(s, PINAREA) < PINAREA_END && Cut(s, TryOps(s, right, page, blank), t) && Accepts(t)
    ensures PinArea(t, p', k') && (k' == k || k' == k + 1 || (right && k' == 0))
  {
    hide Cut, WipeOps, ResetOps, DoAll, Accepts, Mask;
    Increased(s, p, k);
    var mid := DoAll(s, IncreaseOps(s));
    assert TryOps(s, right, page, blank) == IncreaseOps(s) + TryRest(mid, p, right, page, blank);
    CutAppend(s, IncreaseOps(s), TryRest(mid, p, right, page, blank), t);
    if Cut(s, IncreaseOps(s), t) {
      IncreasedCut(s, p, k, t);
      p', k' := p, if t == s then k else k + 1;
    } else {
      p', k' := TryRestCut(mid, p, k + 1, right, page, blank, t);
    }
  }

  /**
   Right or wrong, the first thing that an attempt does to flash is to count: the failure word is
   written shifted left by one before anything that depends on the PIN.
   */
  lemma CountedFirst(s: Image, p: nat, k: nat, right: bool, page: seq<uint32>, blank: seq<uint32>)
    requires PinArea(s, p, k) && k <= MAX_WRONG_PINS && |page| == SECTOR && |blank| == SECTOR
    requires FirstNonzero(s, PINAREA) < PINAREA_END
    ensures var ops := TryOps(s, right, page, blank);
      && |ops| > 0 && ops[0].Write? && ops[0].at == p < WORDS && ops[0].word as int == 2 * (s[p] as int) % 0x1_0000_0000
      && PinArea(DoAll(s, ops[..1]), p, k + 1)
  {
    Increased(s, p, k);
    ShiftedHigh(k);
    hide PinArea, DoAll, ResetOps, WipeOps, Mask;
    assert TryOps(s, right, page, blank)[..1] == IncreaseOps(s);
  }

  lemma WipeDone(s: Image, blank: seq<uint32>)
    requires BlankPage(blank)
    ensures !Accepts(DoAll(s, WipeOps(blank))) && PinArea(DoAll(s, WipeOps(blank)), PINAREA, 0)
    ensures U2fArea(DoAll(s, WipeOps(blank)), 0)
  {
    var mid := DoAll(s, CommitOps(blank));
    CommitStores(s, blank);
    assert mid[STORAGE_AT] == blank[STORAGE_AT];
    DoAllAppend(s, CommitOps(blank), [Erase(Last)]);
    DoOne(mid, Erase(Last));
    FreshArea(DoAll(s, WipeOps(blank)));
    FreshCounter(DoAll(s, WipeOps(blank)));
  }

  /** A complete attempt with the right PIN starts over at no failures. */
  lemma RightPinDone(s: Image, p: nat, k: nat, page: seq<uint32>, blank: seq<uint32>) returns (p': nat)
    requires PinArea(s, p, k) && k <= MAX_WRONG_PINS && |page| == SECTOR && |blank| == SECTOR
    requires FirstNonzero(s, PINAREA) < PINAREA_END
    ensures PinArea(DoAll(s, TryOps(s, true, page, blank)), p', 0)
  {
    Increased(s, p, k);
    hide PinArea, DoAll, ResetOps, Mask;
    DoAllAppend(s, IncreaseOps(s), ResetOps(p, page));
    p' := ResetDone(DoAll(s, IncreaseOps(s)), p, k + 1, page);
  }

  /** A complete attempt with a wrong PIN counts and, exactly when that makes sixteen, wipes the storage. */
  lemma WrongPinDone(s: Image, p: nat, k: nat, page: seq<uint32>, blank: seq<uint32>)
    requires PinArea(s, p, k) && k <= MAX_WRONG_PINS && |page| == SECTOR && BlankPage(blank)
    requires FirstNonzero(s, PINAREA) < PINAREA_END
    ensures TryOps(s, false, page, blank)
         == IncreaseOps(s) + (if k + 1 > MAX_WRONG_PINS then WipeOps(blank) else [])
    ensures if k + 1 > MAX_WRONG_PINS then !Accepts(DoAll(s, TryOps(s, false, page, blank)))
            else PinArea(DoAll(s, TryOps(s, false, page, blank)), p, k + 1)
  {
    Increased(s, p, k);
    WaitIsExponential(k + 1);
    var mid := DoAll(s, IncreaseOps(s));
    assert mid[p] == Mask(k + 1);
    hide PinArea, DoAll, Accepts, WipeOps, Mask, IncreaseOps;
    if k + 1 > MAX_WRONG_PINS {
      DoAllAppend(s, IncreaseOps(s), WipeOps(blank));
      WipeDone(mid, blank);
    } else {
      assert IncreaseOps(s) + [] == IncreaseOps(s);
    }
  }

  // ------------------------------------------------------------- U2F counter

  /** How many low bits of word `i` are cleared when `n` bits of the area are. */
  function Cleared(n: nat, i: nat): (c: nat)
    ensures c <= 32
  {
    if n <= 32 * i then 0 else if n >= 32 * i + 32 then 32 else n - 32 * i
  }

  function U2fWord(s: Image, i: nat): uint32
    requires i < REST_WORDS
  {
    s[U2FAREA + i]
  }

  /**
   The first `n` bits from the U2F area on are cleared, in order, and no other. Beyond 2048
   there are only bits that were used when the power went before a new area was started.
   */
  ghost predicate U2fArea(s: Image, n: nat)
  {
    n < U2F_ROOM && forall i :: 0 <= i < REST_WORDS ==> U2fWord(s, i) == Mask(Cleared(n, i))
  }

  const U2F_BITS: nat := 2048
  const U2F_ROOM: nat := 98304

  /** `0xfffffffe << (n & 31)`. */
  function NextWord(n: nat): uint32
  {
    0xffff_fffe * Pow2(n % 32) % TWO32
  }

  lemma NextWordIsMask(n: nat)
    ensures NextWord(n) == Mask(n % 32 + 1)
  {
    var k := n % 32;
    Pow2Of32();
    Pow2Monotone(k + 1, 32);
    assert 0xffff_fffe * Pow2(k) == TWO32 * Pow2(k) - Pow2(k + 1);
    if Pow2(k + 1) == TWO32 {
      assert k == 31 by {
        if k < 31 {
          Pow2Monotone(k + 1, 31);
        }
      }
      assert TWO32 * Pow2(k) - Pow2(k + 1) == TWO32 * (Pow2(k) - 1);
      MultipleModulo(Pow2(k) - 1, 0);
    } else {
      assert TWO32 * Pow2(k) - Pow2(k + 1) == TWO32 * (Pow2(k) - 1) + (TWO32 - Pow2(k + 1));
      MultipleModulo(Pow2(k) - 1, TWO32 - Pow2(k + 1));
    }
  }

  lemma MultipleModulo(q: nat, r: nat)
    requires r < TWO32
    ensures (TWO32 * q + r) % TWO32 == r
  {
  }

  /** `storage_nextU2FCounter` with offset `n`: that bit, and a new area when it is full. */
  function CountOps(s: Image, n: nat, page: seq<uint32>): seq<Op>
    requires n < U2F_ROOM && |page| == SECTOR
  {
    [Write(U2FAREA + n / 32, NextWord(n))] + (if n + 1 >= U2F_BITS then RecycleOps(page, PinWord(s)) else [])
  }

  /** One use clears exactly the next bit. */
  lemma CountClearsNextBit(s: Image, n: nat)
    requires U2fArea(s, n) && n + 1 < U2F_ROOM
    ensures U2fArea(Do(s, Write(U2FAREA + n / 32, NextWord(n))), n + 1)
    ensures ClearsOnly(s[U2FAREA + n / 32], NextWord(n))
  {
    hide Mask, And, NextWord, Cleared;
    var w := n / 32;
    NextBit(n);
    ClearedNext(n, w);
    assert U2fWord(s, w) == Mask(Cleared(n, w));
    var t := Do(s, Write(U2FAREA + w, NextWord(n)));
    forall i | 0 <= i < REST_WORDS ensures U2fWord(t, i) == Mask(Cleared(n + 1, i)) {
      assert i != w ==> U2fWord(t, i) == U2fWord(s, i);
    }
  }

  lemma ClearedNext(n: nat, w: nat)
    requires w == n / 32
    ensures Cleared(n, w) == n % 32 && Cleared(n + 1, w) == n % 32 + 1
    ensures forall i: nat :: i != w ==> Cleared(n + 1, i) == Cleared(n, i)
  {
  }

  lemma NextBit(n: nat)
    ensures And(Mask(n % 32), NextWord(n)) == NextWord(n) == Mask(n % 32 + 1)
  {
    NextWordIsMask(n);
    AndHigh(32, n % 32, n % 32 + 1);
  }

  lemma FreshCounter(t: Image)
    requires forall i :: PINAREA < i < META_WORDS ==> t[i] == ERASED
    ensures U2fArea(t, 0)
  {
    Pow2Of32();
  }

  /** A recycled sector has no cleared bits. */
  lemma RecycleClears(s: Image, pinFails: uint32, page: seq<uint32>)
    requires |page| == SECTOR
    ensures U2fArea(DoAll(s, RecycleOps(page, pinFails)), 0)
    ensures DoAll(s, RecycleOps(page, pinFails))[..SECTOR] == page
    ensures DoAll(s, RecycleOps(page, pinFails))[PINAREA] == pinFails
    ensures forall i :: PINAREA < i < META_WORDS ==> DoAll(s, RecycleOps(page, pinFails))[i] == ERASED
  {
    var r := DoAll(s, RecycleStart(pinFails));
    RecycleStarted(s, pinFails);
    DoAllAppend(s, RecycleStart(pinFails), CommitOps(page));
    CommitStores(r, page);
    FreshCounter(DoAll(s, RecycleOps(page, pinFails)));
  }

  /** A new area starts at no cleared bits and keeps the PIN failures. */
  lemma CountRecycles(s: Image, p: nat, k: nat, page: seq<uint32>)
    requires PinArea(s, p, k) && |page| == SECTOR
    ensures U2fArea(DoAll(s, RecycleOps(page, PinWord(s))), 0)
    ensures PinArea(DoAll(s, RecycleOps(page, PinWord(s))), PINAREA, k)
    ensures DoAll(s, RecycleOps(page, PinWord(s)))[..SECTOR] == page
  {
    hide DoAll, U2fArea, Mask;
    ScanFindsWord(s, p, k);
    RecycleClears(s, PinWord(s), page);
  }

  /** The offset after one use. */
  function NextCount(o: nat): nat
  {
    if o + 1 >= U2F_BITS then 0 else o + 1
  }

  /** The number of cleared bits when bit `o` is cleared, too: below the cleared bits nothing happens. */
  function Advance(n: nat, o: nat): nat
  {
    if o < n then n else o + 1
  }

  /** A bit that is cleared already stays cleared, and nothing else changes. */
  lemma UsedBitStays(s: Image, n: nat, o: nat)
    requires U2fArea(s, n) && o < n
    ensures Do(s, Write(U2FAREA + o / 32, NextWord(o))) == s
  {
    hide And, NextWord;
    var w := o / 32;
    assert U2fWord(s, w) == Mask(Cleared(n, w)) && Cleared(n, w) >= o % 32 + 1;
    NextWordIsMask(o);
    AndHigh(32, Cleared(n, w), o % 32 + 1);
  }

  /** One use from an offset at or below the cleared bits keeps a run of cleared bits. */
  lemma BitAdvances(s: Image, n: nat, o: nat)
    requires U2fArea(s, n) && o <= n && (o < n || n + 1 < U2F_ROOM)
    ensures U2fArea(Do(s, Write(U2FAREA + o / 32, NextWord(o))), Advance(n, o))
  {
    hide U2fArea, Do, NextWord;
    if o < n {
      UsedBitStays(s, n, o);
    } else {
      CountClearsNextBit(s, n);
    }
  }

  /** Writing the next bit leaves the PIN area alone. */
  lemma BitKeepsFailures(s: Image, n: nat, p: nat, k: nat)
    requires PinArea(s, p, k) && n < U2F_ROOM
    ensures PinArea(Do(s, Write(U2FAREA + n / 32, NextWord(n))), p, k)
    ensures PinWord(Do(s, Write(U2FAREA + n / 32, NextWord(n)))) == PinWord(s)
  {
    hide NextWord, Mask;
    ScanFindsWord(s, p, k);
    ScanFindsWord(Do(s, Write(U2FAREA + n / 32, NextWord(n))), p, k);
  }

  /** One whole use of the counter moves the number of cleared bits on, or starts a new area. */
  lemma CountAdvances(s: Image, n: nat, o: nat, p: nat, k: nat, page: seq<uint32>)
    requires U2fArea(s, n) && o <= n && (o < n || n + 1 < U2F_ROOM) && PinArea(s, p, k) && |page| == SECTOR
    ensures U2fArea(DoAll(s, CountOps(s, o, page)), if o + 1 >= U2F_BITS then 0 else Advance(n, o))
  {
    hide DoAll, U2fArea, PinArea, NextWord, RecycleOps, PinWord, Advance;
    assert n < U2F_ROOM by { CounterFits(s, n); }
    var use := Write(U2FAREA + o / 32, NextWord(o));
    var mid := Do(s, use);
    BitAdvances(s, n, o);
    BitKeepsFailures(s, o, p, k);
    DoOne(s, use);
    if o + 1 >= U2F_BITS {
      DoAllAppend(s, [use], RecycleOps(page, PinWord(s)));
      CountRecycles(mid, p, k, page);
    } else {
      assert [use] + [] == [use];
    }
  }

  lemma CounterFits(s: Image, n: nat)
    requires U2fArea(s, n)
    ensures n < U2F_ROOM
  {
  }

  /** And it keeps the PIN failures. */
  lemma CountDoneKeepsFailures(s: Image, o: nat, p: nat, k: nat, page: seq<uint32>) returns (p': nat)
    requires PinArea(s, p, k) && o < U2F_ROOM && |page| == SECTOR
    ensures PinArea(DoAll(s, CountOps(s, o, page)), p', k)
  {
    hide DoAll, U2fArea, PinArea, NextWord, RecycleOps, PinWord;
    var use := Write(U2FAREA + o / 32, NextWord(o));
    BitKeepsFailures(s, o, p, k);
    DoOne(s, use);
    p' := p;
    if o + 1 >= U2F_BITS {
      DoAllAppend(s, [use], RecycleOps(page, PinWord(s)));
      CountRecycles(Do(s, use), p, k, page);
      p' := PINAREA;
    } else {
      assert [use] + [] == [use];
    }
  }

  /** A cut of one operation leaves the old or the new image. */
  lemma OneCut(s: Image, op: Op, t: Image)
    requires Cut(s, [op], t) && op.Write?
    ensures t == s || t == Do(s, op)
  {
    var ops := [op];
    var j :| 0 <= j <= |ops| && CutAt(s, ops, j, t);
    DoOne(s, op);
    assert ops[..0] == [] && ops[..1] == ops;
  }

  /** Where a cut use of the counter leaves the flash: before it, after the bit, or on the way to a new area. */
  lemma CountCut(s: Image, n: nat, p: nat, k: nat, page: seq<uint32>, t: Image)
    requires PinArea(s, p, k) && n < U2F_ROOM && |page| == SECTOR && Cut(s, CountOps(s, n, page), t) && Accepts(t)
    ensures var mid := Do(s, Write(U2FAREA + n / 32, NextWord(n)));
      || t == s || t == mid
      || (n + 1 >= U2F_BITS && t[PINAREA] == PinWord(s) && forall i :: PINAREA < i < META_WORDS ==> t[i] == ERASED)
  {
    hide Cut, PinArea, NextWord, Accepts, RecycleOps, Mask, PinWord, DoAll;
    var use := Write(U2FAREA + n / 32, NextWord(n));
    var mid := Do(s, use);
    var rest := if n + 1 >= U2F_BITS then RecycleOps(page, PinWord(s)) else [];
    ScanFindsWord(s, p, k);
    CutAppend(s, [use], rest, t);
    DoOne(s, use);
    if Cut(s, [use], t) {
      OneCut(s, use, t);
    } else if n + 1 >= U2F_BITS {
      RecycleCrashSafe(mid, page, PinWord(s), t);
    } else {
      NothingCut(mid, t);
    }
  }

  /** Using the counter never changes the PIN failures, cut or not. */
  lemma CountKeepsFailures(s: Image, n: nat, p: nat, k: nat, page: seq<uint32>, t: Image) returns (p': nat)
    requires PinArea(s, p, k) && n < U2F_ROOM && |page| == SECTOR && Cut(s, CountOps(s, n, page), t) && Accepts(t)
    ensures PinArea(t, p', k)
  {
    hide Cut, NextWord, Accepts, CountOps, Do, PinWord;
    CountCut(s, n, p, k, page, t);
    BitKeepsFailures(s, n, p, k);
    ScanFindsWord(s, p, k);
    p' := if t == s || t == Do(s, Write(U2FAREA + n / 32, NextWord(n))) then p else PINAREA;
    Pow2Of32();
  }

  /** A cut use of the counter has cleared no bit, the next bit, or started a new area. */
  lemma CountKeepsCounter(s: Image, n: nat, o: nat, p: nat, k: nat, page: seq<uint32>, t: Image) returns (n': nat)
    requires PinArea(s, p, k) && U2fArea(s, n) && o <= n && (o < n || n + 1 < U2F_ROOM) && |page| == SECTOR
    requires o < U2F_ROOM && Cut(s, CountOps(s, o, page), t) && Accepts(t)
    ensures U2fArea(t, n') && (n' == n || n' == Advance(n, o) || (o + 1 >= U2F_BITS && n' == 0))
  {
    hide Cut, NextWord, Accepts, CountOps, Do, U2fArea, PinArea, Advance;
    CountCut(s, o, p, k, page, t);
    BitAdvances(s, n, o);
    if t == s {
      n' := n;
    } else if t == Do(s, Write(U2FAREA + o / 32, NextWord(o))) {
      n' := Advance(n, o);
    } else {
      FreshCounter(t);
      n' := 0;
    }
  }

  // -------------------------------------------------- the counter and attempts

  /** The commit of a settings page leaves the counter alone. */
  lemma SameLastSameCounter(s: Image, t: Image, n: nat)
    requires SameLast(s, t) && U2fArea(s, n)
    ensures U2fArea(t, n)
  {
    hide Mask, Cleared;
    forall i | 0 <= i < REST_WORDS ensures U2fWord(t, i) == Mask(Cleared(n, i)) {
      assert U2fWord(t, i) == U2fWord(s, i);
    }
  }

  /** Where an attempt leaves the words behind the PIN area: as they were, or erased. */
  ghost predicate SameRest(s: Image, t: Image)
  {
    || (forall i :: U2FAREA <= i < META_WORDS ==> t[i] == s[i])
    || (forall i :: PINAREA < i < META_WORDS ==> t[i] == ERASED)
  }

  lemma SameRestCounter(s: Image, t: Image, n: nat) returns (n': nat)
    requires SameRest(s, t) && U2fArea(s, n)
    ensures U2fArea(t, n') && (n' == n || n' == 0)
  {
    hide Mask, Cleared;
    if forall i :: PINAREA < i < META_WORDS ==> t[i] == ERASED {
      FreshCounter(t);
      n' := 0;
    } else {
      n' := n;
      forall i | 0 <= i < REST_WORDS ensures U2fWord(t, i) == Mask(Cleared(n, i)) {
        assert U2fWord(t, i) == U2fWord(s, i);
      }
    }
  }

  /** What follows the count of an attempt, cut and accepted. */
  lemma RestKeepsCounter(mid: Image, p: nat, k: nat, right: bool, page: seq<uint32>, blank: seq<uint32>, t: Image)
    requires PinArea(mid, p, k) && |page| == SECTOR && BlankPage(blank)
    requires Cut(mid, TryRest(mid, p, right, page, blank), t) && Accepts(t)
    ensures SameRest(mid, t)
  {
    hide Cut, Accepts, RecycleOps, WipeOps, Mask;
    if right && p + 1 >= PINAREA_END {
      RecycleCrashSafe(mid, page, ERASED, t);
    } else if right {
      OneCut(mid, Write(p, 0), t);
    } else if PinWait(mid[p]) >= 32768 {
      WipeCrashSafe(mid, blank, t);
    } else {
      NothingCut(mid, t);
    }
  }

  lemma AttemptKeepsCounter(s: Image, right: bool, page: seq<uint32>, blank: seq<uint32>, t: Image, p: nat, k: nat)
    requires FirstNonzero(s, PINAREA) < PINAREA_END && |page| == SECTOR && BlankPage(blank)
    requires PinArea(s, p, k) && k <= MAX_WRONG_PINS && Cut(s, TryOps(s, right, page, blank), t) && Accepts(t)
    ensures SameRest(s, t)
  {
    hide Cut, Accepts, DoAll, WipeOps, ResetOps, RecycleOps, Mask;
    Increased(s, p, k);
    var mid := DoAll(s, IncreaseOps(s));
    assert TryOps(s, right, page, blank) == IncreaseOps(s) + TryRest(mid, p, right, page, blank);
    CutAppend(s, IncreaseOps(s), TryRest(mid, p, right, page, blank), t);
    if Cut(s, IncreaseOps(s), t) {
      IncreasedCut(s, p, k, t);
    } else {
      RestKeepsCounter(mid, p, k + 1, right, page, blank, t);
    }
  }

  /** A whole attempt that does not wipe: only a right PIN at the end of the PIN area starts the counter over. */
  lemma RightPinRest(s: Image, p: nat, k: nat, page: seq<uint32>, blank: seq<uint32>)
    requires PinArea(s, p, k) && k <= MAX_WRONG_PINS && |page| == SECTOR && |blank| == SECTOR
    requires FirstNonzero(s, PINAREA) < PINAREA_END
    ensures var t := DoAll(s, TryOps(s, true, page, blank));
      if p + 1 >= PINAREA_END then forall i :: PINAREA < i < META_WORDS ==> t[i] == ERASED
      else forall i :: U2FAREA <= i < META_WORDS ==> t[i] == s[i]
  {
    Increased(s, p, k);
    hide PinArea, DoAll, RecycleOps, Mask;
    var mid := DoAll(s, IncreaseOps(s));
    DoAllAppend(s, IncreaseOps(s), ResetOps(p, page));
    if p + 1 >= PINAREA_END {
      RecycleClears(mid, ERASED, page);
    } else {
      DoOne(mid, Write(p, 0));
    }
  }

  lemma WrongPinRest(s: Image, p: nat, k: nat, page: seq<uint32>, blank: seq<uint32>)
    requires PinArea(s, p, k) && k < MAX_WRONG_PINS && |page| == SECTOR && BlankPage(blank)
    requires FirstNonzero(s, PINAREA) < PINAREA_END
    ensures forall i :: U2FAREA <= i < META_WORDS ==> DoAll(s, TryOps(s, false, page, blank))[i] == s[i]
  {
    Increased(s, p, k);
    WrongPinDone(s, p, k, page, blank);
    hide DoAll, TryOps, IncreaseOps, Mask;
    assert IncreaseOps(s) + [] == IncreaseOps(s);
  }
}

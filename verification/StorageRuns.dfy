/**
 PIN failures and the U2F counter over whole runs of attempts, counter uses, changed
 settings, wipes, power cuts and boots (firmware/storage.c, firmware/protect.c).
 */
module StorageRuns {
  import opened Bytes
  import opened FlashMemory
  import opened PinStorage
  import opened PinRuns

  // ------------------------------------------------------------- what happens

  /** The flash, whether the device is up, and `storage_u2f_offset` while it is. */
  datatype Device = Device(flash: Image, live: bool, offset: nat)

  /** `done` when no power cut intervened; after one only a boot can follow. */
  datatype Event =
    | WrongPin(page: seq<uint32>, blank: seq<uint32>, done: bool)
    | Exhausted(page: seq<uint32>, blank: seq<uint32>)  // the wrong PIN that wipes and stops the device
    | RightPin(page: seq<uint32>, blank: seq<uint32>, done: bool)
    | UseCounter(page: seq<uint32>, done: bool)
    | Save(page: seq<uint32>, done: bool)
    | Wipe(blank: seq<uint32>, done: bool)
    | Boot
    | BootWipe(blank: seq<uint32>, done: bool)  // the boot that refuses the storage

  /**
   A page for the settings sector of this flash: a commit rewrites the firmware descriptor in front
   of the storage.
   */
  predicate PageFor(s: Image, page: seq<uint32>)
  {
    |page| == SECTOR && page[..MAGIC_AT] == s[..MAGIC_AT]
  }

  predicate BlankFor(s: Image, blank: seq<uint32>)
  {
    PageFor(s, blank) && BlankPage(blank)
  }

  ghost predicate Leaves(d: Device, ops: seq<Op>, done: bool, d': Device)
  {
    d'.live == done && if done then d'.flash == DoAll(d.flash, ops) else Cut(d.flash, ops, d'.flash)
  }

  /** `protectPin` lets an attempt through. */
  predicate MayTry(d: Device)
  {
    d.live && FirstNonzero(d.flash, PINAREA) < PINAREA_END && PinWait(PinWord(d.flash)) < 32768
  }

  /** One more failure is one too many. */
  predicate LastTry(s: Image)
    requires FirstNonzero(s, PINAREA) < PINAREA_END
  {
    PinWait(DoAll(s, IncreaseOps(s))[FirstNonzero(s, PINAREA)]) >= 32768
  }

  /** What a boot makes of the offset: the scan is compiled in or not. */
  ghost predicate Scans(scans: bool, d: Device)
  {
    if scans then forall n :: U2fArea(d.flash, n) ==> d.offset == n else d.offset == 0
  }

  ghost predicate Happens(scans: bool, d: Device, e: Event, d': Device)
  {
    match e
    case WrongPin(page, blank, done) =>
      && MayTry(d) && PageFor(d.flash, page) && BlankFor(d.flash, blank)
      && Leaves(d, TryOps(d.flash, false, page, blank), done, d')
      && (done ==> !LastTry(d.flash) && d'.offset == d.offset)
    case Exhausted(page, blank) =>
      && MayTry(d) && PageFor(d.flash, page) && BlankFor(d.flash, blank) && LastTry(d.flash)
      && !d'.live && d'.flash == DoAll(d.flash, TryOps(d.flash, false, page, blank))
    case RightPin(page, blank, done) =>
      && MayTry(d) && PageFor(d.flash, page) && BlankFor(d.flash, blank)
      && Leaves(d, TryOps(d.flash, true, page, blank), done, d')
      && (done ==> d'.offset == if FirstNonzero(d.flash, PINAREA) + 1 >= PINAREA_END then 0 else d.offset)
    case UseCounter(page, done) =>
      && d.live && d.offset < U2F_ROOM && PageFor(d.flash, page)
      && Leaves(d, CountOps(d.flash, d.offset, page), done, d') && (done ==> d'.offset == NextCount(d.offset))
    case Save(page, done) =>
      && d.live && PageFor(d.flash, page)
      && Leaves(d, CommitOps(page), done, d') && (done ==> d'.offset == d.offset)
    case Wipe(blank, done) =>
      && d.live && BlankFor(d.flash, blank)
      && Leaves(d, WipeOps(blank), done, d') && (done ==> d'.offset == 0)
    case Boot =>
      Accepts(d.flash) && d'.live && d'.flash == d.flash && Scans(scans, d')
    case BootWipe(blank, done) =>
      && !Accepts(d.flash) && BlankFor(d.flash, blank)
      && Leaves(d, WipeOps(blank), done, d') && (done ==> d'.offset == 0)
  }

  ghost predicate IsRun(scans: bool, ds: seq<Device>, events: seq<Event>)
  {
    |ds| == |events| + 1 && forall i :: 0 <= i < |events| ==> Happens(scans, ds[i], events[i], ds[i + 1])
  }

  /** The counters matter while the device is up, or when the next boot accepts the storage. */
  predicate Usable(d: Device)
  {
    d.live || Accepts(d.flash)
  }

  /** A boot that refused the storage, lost its power while wiping, and left storage that is accepted. */
  predicate Revives(e: Event, d': Device)
  {
    e.BootWipe? && !e.done && Accepts(d'.flash)
  }

  predicate NoneRevived(ds: seq<Device>, events: seq<Event>)
    requires |ds| == |events| + 1
  {
    forall i :: 0 <= i < |events| ==> !Revives(events[i], ds[i + 1])
  }

  // ------------------------------------------------------------- PIN failures

  /** One event counts a failure, forgets all of them, or neither; a cut one may do what it would have done or not. */
  function AtLeastAfter(e: Event, k: nat): nat
  {
    match e
    case WrongPin(_, _, done) => if done then k + 1 else k
    case RightPin(_, _, _) => 0
    case Exhausted(_, _) => 0
    case Wipe(_, done) => if done then 0 else k
    case BootWipe(_, done) => if done then 0 else k
    case _ => k
  }

  function AtMostAfter(e: Event, k: nat): nat
  {
    match e
    case WrongPin(_, _, _) => k + 1
    case RightPin(_, _, done) => if done then 0 else k + 1
    case Exhausted(_, _) => 0
    case Wipe(_, done) => if done then 0 else k
    case BootWipe(_, done) => if done then 0 else k
    case _ => k
  }

  /** The completed failures since the last right PIN or wipe. */
  function AtLeast(events: seq<Event>, k: nat): nat
  {
    if |events| == 0 then k else AtLeastAfter(events[|events| - 1], AtLeast(events[..|events| - 1], k))
  }

  /** The attempts, completed or cut, since the last completed right PIN or wipe. */
  function AtMost(events: seq<Event>, k: nat): nat
  {
    if |events| == 0 then k else AtMostAfter(events[|events| - 1], AtMost(events[..|events| - 1], k))
  }

  lemma TriesBelowSixteen(d: Device, p: nat, k: nat)
    requires MayTry(d) && PinArea(d.flash, p, k)
    ensures k <= MAX_WRONG_PINS && FirstNonzero(d.flash, PINAREA) == p
    ensures LastTry(d.flash) <==> k == MAX_WRONG_PINS
  {
    ScanFindsWord(d.flash, p, k);
    WaitIsExponential(k);
    Increased(d.flash, p, k);
    WaitIsExponential(k + 1);
    hide DoAll, Mask, IncreaseOps;
    assert DoAll(d.flash, IncreaseOps(d.flash))[p] == Mask(k + 1);
  }

  lemma TryCounts(scans: bool, d: Device, e: Event, d': Device, p: nat, k: nat) returns (p': nat, k': nat)
    requires (e.WrongPin? || e.RightPin?) && Happens(scans, d, e, d') && PinArea(d.flash, p, k) && Usable(d')
    ensures PinArea(d'.flash, p', k') && AtLeastAfter(e, k) <= k' <= AtMostAfter(e, k)
  {
    hide DoAll, Cut, TryOps, Accepts, PinArea, LastTry;
    TriesBelowSixteen(d, p, k);
    if !e.done {
      p', k' := TryCut(d.flash, p, k, e.RightPin?, e.page, e.blank, d'.flash);
    } else if e.RightPin? {
      p' := RightPinDone(d.flash, p, k, e.page, e.blank);
      k' := 0;
    } else {
      WrongPinDone(d.flash, p, k, e.page, e.blank);
      p', k' := p, k + 1;
    }
  }

  lemma CommitDoneKeepsPins(s: Image, page: seq<uint32>, p: nat, k: nat)
    requires |page| == SECTOR && PinArea(s, p, k)
    ensures PinArea(DoAll(s, CommitOps(page)), p, k)
  {
    hide DoAll, CommitOps, PinArea;
    CommitStores(s, page);
    SameLastSamePins(s, DoAll(s, CommitOps(page)), p, k);
  }

  /** Any event keeps the area well formed and counts no less and no more than it should. */
  lemma EventCounts(scans: bool, d: Device, e: Event, d': Device, p: nat, k: nat) returns (p': nat, k': nat)
    requires Happens(scans, d, e, d') && !Revives(e, d') && (Usable(d) ==> PinArea(d.flash, p, k))
    ensures Usable(d') ==> PinArea(d'.flash, p', k') && AtLeastAfter(e, k) <= k' <= AtMostAfter(e, k)
  {
    hide PinArea, Cut, DoAll, CountOps, CommitOps, WipeOps, TryOps, LastTry, Scans;
    p', k' := p, k;
    if !Usable(d') {
      return;
    }
    match e
    case WrongPin(page, blank, done) =>
      p', k' := TryCounts(scans, d, e, d', p, k);
    case RightPin(page, blank, done) =>
      p', k' := TryCounts(scans, d, e, d', p, k);
    case Exhausted(page, blank) =>
      ExhaustedIsRefused(scans, d, e, d', p, k);
    case UseCounter(page, done) =>
      if done {
        p' := CountDoneKeepsFailures(d.flash, d.offset, p, k, page);
      } else {
        p' := CountKeepsFailures(d.flash, d.offset, p, k, page, d'.flash);
      }
    case Save(page, done) =>
      if done {
        CommitDoneKeepsPins(d.flash, page, p, k);
      } else {
        CommitKeepsLast(d.flash, page, d'.flash);
        SameLastSamePins(d.flash, d'.flash, p, k);
      }
    case Wipe(blank, done) =>
      if done {
        WipeDone(d.flash, blank);
        p', k' := PINAREA, 0;
      } else {
        WipeCrashSafe(d.flash, blank, d'.flash);
        SameLastSamePins(d.flash, d'.flash, p, k);
      }
    case Boot =>
    case BootWipe(blank, done) =>
      WipeDone(d.flash, blank);
      p', k' := PINAREA, 0;
  }

  lemma ExhaustedIsRefused(scans: bool, d: Device, e: Event, d': Device, p: nat, k: nat)
    requires Happens(scans, d, e, d') && e.Exhausted? && PinArea(d.flash, p, k)
    ensures !Usable(d')
  {
    hide DoAll, TryOps, Accepts, PinArea, LastTry;
    TriesBelowSixteen(d, p, k);
    WrongPinDone(d.flash, p, k, e.page, e.blank);
  }

  lemma CountsMonotone(e: Event, a: nat, b: nat)
    requires a <= b
    ensures AtLeastAfter(e, a) <= AtLeastAfter(e, b) && AtMostAfter(e, a) <= AtMostAfter(e, b)
  {
  }

  /**
   Over any run, whatever is cut and wherever, in which no boot's wipe is cut so that refused
   storage is accepted again: the PIN area is zeros, one failure word and ones, and it counts at
   least the completed failures since the last right PIN or wipe and at most the attempts since
   the last completed one.
   */
  lemma {:induction false} FailuresAreKept(scans: bool, ds: seq<Device>, events: seq<Event>, p: nat, k: nat)
    returns (p': nat, k': nat)
    requires IsRun(scans, ds, events) && NoneRevived(ds, events) && (Usable(ds[0]) ==> PinArea(ds[0].flash, p, k))
    ensures Usable(ds[|ds| - 1]) ==>
      PinArea(ds[|ds| - 1].flash, p', k') && AtLeast(events, k) <= k' <= AtMost(events, k)
    decreases |events|
  {
    hide Happens, PinArea, Usable, Revives;
    p', k' := p, k;
    if |events| > 0 {
      var n := |events| - 1;
      assert NoneRevived(ds[..n + 1], events[..n]);
      var q, j := FailuresAreKept(scans, ds[..n + 1], events[..n], p, k);
      p', k' := EventCounts(scans, ds[n], events[n], ds[n + 1], q, j);
      if Usable(ds[n]) {
        CountsMonotone(events[n], AtLeast(events[..n], k), j);
        CountsMonotone(events[n], j, AtMost(events[..n], k));
      } else {
        OnlyBootWipe(scans, ds[n], events[n], ds[n + 1]);
      }
    }
  }

  /** Refused storage is wiped at boot: no other event starts from it. */
  lemma OnlyBootWipe(scans: bool, d: Device, e: Event, d': Device)
    requires Happens(scans, d, e, d') && !Usable(d)
    ensures e.BootWipe? && (Usable(d') ==> e.done || Revives(e, d'))
  {
    hide Cut, DoAll, Accepts;
  }

  /** In a run that leaves no doubt about the count, the next wrong attempt wipes exactly when it is the sixteenth. */
  lemma WipedOnTheSixteenth(scans: bool, ds: seq<Device>, events: seq<Event>, p: nat, k: nat)
    requires IsRun(scans, ds, events) && NoneRevived(ds, events) && (Usable(ds[0]) ==> PinArea(ds[0].flash, p, k))
    requires AtLeast(events, k) == AtMost(events, k) && MayTry(ds[|ds| - 1])
    ensures AtLeast(events, k) <= 15 && (LastTry(ds[|ds| - 1].flash) <==> AtLeast(events, k) == 15)
  {
    hide Happens, PinArea, LastTry, Accepts;
    var q, j := FailuresAreKept(scans, ds, events, p, k);
    TriesBelowSixteen(ds[|ds| - 1], q, j);
  }

  /** Neither a right PIN, nor a cut wrong one, nor a wipe. */
  predicate NoDoubt(events: seq<Event>)
  {
    forall i :: 0 <= i < |events| ==>
      match events[i]
      case WrongPin(_, _, done) => done
      case UseCounter(_, _) => true
      case Save(_, _) => true
      case Boot => true
      case _ => false
  }

  function Wrong(events: seq<Event>): nat
  {
    if |events| == 0 then 0 else Wrong(events[..|events| - 1]) + (if events[|events| - 1].WrongPin? then 1 else 0)
  }

  /** Behind a completed right PIN the count is that of the wrong PINs since, whatever came before it. */
  lemma {:induction false} CountSinceSuccess(before: seq<Event>, success: Event, since: seq<Event>, k: nat)
    requires success.RightPin? && success.done && NoDoubt(since)
    ensures AtLeast(before + [success] + since, k) == AtMost(before + [success] + since, k) == Wrong(since)
    decreases |since|
  {
    var events := before + [success] + since;
    if |since| == 0 {
      assert events == before + [success] && events[..|events| - 1] == before;
    } else {
      var n := |since| - 1;
      assert events[..|events| - 1] == before + [success] + since[..n];
      CountSinceSuccess(before, success, since[..n], k);
    }
  }

  /**
   The wipe comes with exactly the sixteenth consecutive failure, counted from the last completed
   success of any run.
   */
  lemma SixteenthConsecutive(scans: bool, ds: seq<Device>, before: seq<Event>, success: Event, since: seq<Event>,
                             p: nat, k: nat)
    requires IsRun(scans, ds, before + [success] + since) && NoneRevived(ds, before + [success] + since)
    requires (Usable(ds[0]) ==> PinArea(ds[0].flash, p, k)) && success.RightPin? && success.done && NoDoubt(since)
    requires MayTry(ds[|ds| - 1])
    ensures Wrong(since) <= 15 && (LastTry(ds[|ds| - 1].flash) <==> Wrong(since) == 15)
  {
    hide IsRun, NoneRevived, PinArea, LastTry;
    CountSinceSuccess(before, success, since, k);
    WipedOnTheSixteenth(scans, ds, before + [success] + since, p, k);
  }

  // ------------------------------------------------------- storage that comes back

  /** A cut wipe that revives refused storage leaves the counters that the refused storage had, good or bad. */
  lemma RevivedIsUnchanged(scans: bool, d: Device, e: Event, d': Device)
    requires Happens(scans, d, e, d') && Revives(e, d')
    ensures SameLast(d.flash, d'.flash)
    ensures forall p, k :: PinArea(d'.flash, p, k) <==> PinArea(d.flash, p, k)
    ensures forall n :: U2fArea(d'.flash, n) <==> U2fArea(d.flash, n)
  {
    hide Cut, WipeOps, DoAll, Accepts, PinArea, U2fArea;
    WipeCrashSafe(d.flash, e.blank, d'.flash);
    forall p, k ensures PinArea(d'.flash, p, k) <==> PinArea(d.flash, p, k) {
      if PinArea(d.flash, p, k) {
        SameLastSamePins(d.flash, d'.flash, p, k);
      }
      if PinArea(d'.flash, p, k) {
        SameLastSamePins(d'.flash, d.flash, p, k);
      }
    }
    forall n ensures U2fArea(d'.flash, n) <==> U2fArea(d.flash, n) {
      if U2fArea(d.flash, n) {
        SameLastSameCounter(d.flash, d'.flash, n);
      }
      if U2fArea(d'.flash, n) {
        SameLastSameCounter(d'.flash, d.flash, n);
      }
    }
  }

  /** What recycling leaves when the power goes after its erase: no marker and no failures. */
  lemma ErasedMidway(s: Image, o: nat, page: seq<uint32>) returns (r: Image)
    requires o < U2F_ROOM && o + 1 >= U2F_BITS && |page| == SECTOR
    ensures Cut(s, CountOps(s, o, page), r) && r[MAGIC_AT] == 0 && r[..MAGIC_AT] == s[..MAGIC_AT]
    ensures forall i :: SECTOR <= i < META_WORDS ==> r[i] == ERASED
  {
    hide NextWord, PinWord, CommitOps;
    var use := Write(U2FAREA + o / 32, NextWord(o));
    var ops := CountOps(s, o, page);
    var a := Do(s, use);
    var b := Do(a, Write(MAGIC_AT, 0));
    r := Do(b, Erase(Last));
    assert ops[..3] == [use, Write(MAGIC_AT, 0)] + [Erase(Last)];
    assert [use] + [Write(MAGIC_AT, 0)] == [use, Write(MAGIC_AT, 0)];
    DoOne(s, use);
    DoAllAppend(s, [use], [Write(MAGIC_AT, 0)]);
    DoOne(a, Write(MAGIC_AT, 0));
    DoAllAppend(s, [use, Write(MAGIC_AT, 0)], [Erase(Last)]);
    DoOne(b, Erase(Last));
    assert CutAt(s, ops, 3, r);
  }

  /** What a wipe may leave when the power goes during its first erase: any settings, the same counters. */
  lemma TornWipe(r: Image, page: seq<uint32>, blank: seq<uint32>) returns (t: Image)
    requires SettingsPage(page) && BlankPage(blank)
    ensures Cut(r, WipeOps(blank), t) && Accepts(t) && SameLast(r, t)
  {
    t := page + r[SECTOR..];
    var ops := WipeOps(blank);
    assert ops[..0] == [] && ops[0] == Erase(First);
    assert Torn(DoAll(r, ops[..0]), ops[0], t);
    assert CutAt(r, ops, 0, t);
  }

  /**
   So the failures are not safe from two cuts in a row, one in a recycling and one in the wipe
   at the boot after it: whatever had been counted, there is such a run to none.
   */
  lemma TwoCutsForget(scans: bool, d: Device, page: seq<uint32>, blank: seq<uint32>)
    returns (ds: seq<Device>, events: seq<Event>)
    requires d.live && d.offset < U2F_ROOM && d.offset + 1 >= U2F_BITS && SettingsPage(page)
    requires PageFor(d.flash, page) && BlankFor(d.flash, blank)
    ensures IsRun(scans, ds, events) && ds[0] == d && Accepts(ds[|ds| - 1].flash)
    ensures PinArea(ds[|ds| - 1].flash, PINAREA, 0) && events == [UseCounter(page, false), BootWipe(blank, false)]
  {
    hide Cut, CountOps, WipeOps, PinArea, DoAll;
    var r := ErasedMidway(d.flash, d.offset, page);
    var t := TornWipe(r, page, blank);
    events := [UseCounter(page, false), BootWipe(blank, false)];
    ds := [d, Device(r, false, 0), Device(t, false, 0)];
    FreshArea(t);
  }

  // ---------------------------------------------------------- the U2F counter

  /** What the offset says about the cleared bits: with the scan their number, without it no more than that. */
  predicate Shows(scans: bool, o: nat, n: nat)
  {
    if scans then o == n else o <= n && o < U2F_BITS
  }

  ghost predicate CounterOk(scans: bool, d: Device, n: nat)
  {
    Usable(d) ==> U2fArea(d.flash, n) && (d.live ==> Shows(scans, d.offset, n))
  }

  lemma TryKeepsCounter(scans: bool, d: Device, e: Event, d': Device, p: nat, k: nat, n: nat) returns (n': nat)
    requires (e.WrongPin? || e.RightPin?) && Happens(scans, d, e, d') && Usable(d')
    requires PinArea(d.flash, p, k) && CounterOk(scans, d, n)
    ensures CounterOk(scans, d', n') && (n' == n || n' == 0)
  {
    hide Cut, TryOps, Accepts, PinArea, LastTry, U2fArea, SameRest;
    TriesBelowSixteen(d, p, k);
    if !e.done {
      AttemptKeepsCounter(d.flash, e.RightPin?, e.page, e.blank, d'.flash, p, k);
      n' := SameRestCounter(d.flash, d'.flash, n);
    } else if e.RightPin? {
      RightPinRest(d.flash, p, k, e.page, e.blank);
      if p + 1 >= PINAREA_END {
        assert d'.flash == DoAll(d.flash, TryOps(d.flash, true, e.page, e.blank));
        FreshCounter(d'.flash);
        n' := 0;
      } else {
        SameRestSameCounter(d.flash, d'.flash, n);
        n' := n;
      }
    } else {
      WrongPinRest(d.flash, p, k, e.page, e.blank);
      SameRestSameCounter(d.flash, d'.flash, n);
      n' := n;
    }
  }

  lemma SameRestSameCounter(s: Image, t: Image, n: nat)
    requires U2fArea(s, n) && forall i :: U2FAREA <= i < META_WORDS ==> t[i] == s[i]
    ensures U2fArea(t, n)
  {
    hide Mask, Cleared;
    forall i | 0 <= i < REST_WORDS ensures U2fWord(t, i) == Mask(Cleared(n, i)) {
      assert U2fWord(t, i) == U2fWord(s, i);
    }
  }

  /** The cleared bits after one use, and where that leaves the offset. */
  lemma UseKeepsCounter(scans: bool, d: Device, e: Event, d': Device, p: nat, k: nat, n: nat) returns (n': nat)
    requires e.UseCounter? && Happens(scans, d, e, d') && Usable(d') && (d.offset < n || n + 1 < U2F_ROOM)
    requires PinArea(d.flash, p, k) && CounterOk(scans, d, n)
    ensures CounterOk(scans, d', n')
    ensures if e.done then n' == if d.offset + 1 >= U2F_BITS then 0 else Advance(n, d.offset)
            else n' == n || n' == Advance(n, d.offset) || n' == 0
  {
    hide DoAll, Cut, CountOps, Accepts, PinArea, U2fArea;
    if e.done {
      CountAdvances(d.flash, n, d.offset, p, k, e.page);
      n' := if d.offset + 1 >= U2F_BITS then 0 else Advance(n, d.offset);
    } else {
      n' := CountKeepsCounter(d.flash, n, d.offset, p, k, e.page, d'.flash);
    }
  }

  /** Every event keeps a run of cleared bits: the same, one more by a use, or none in a new area. */
  lemma EventKeepsCounter(scans: bool, d: Device, e: Event, d': Device, p: nat, k: nat, n: nat) returns (n': nat)
    requires Happens(scans, d, e, d') && !Revives(e, d') && CounterOk(scans, d, n)
    requires (Usable(d) ==> PinArea(d.flash, p, k)) && (e.UseCounter? && d.offset == n ==> n + 1 < U2F_ROOM)
    ensures CounterOk(scans, d', n')
    ensures n' == n || n' == 0 || (e.UseCounter? && n' == Advance(n, d.offset))
    ensures e.UseCounter? && e.done ==> n' == if d.offset + 1 >= U2F_BITS then 0 else Advance(n, d.offset)
  {
    hide PinArea, Cut, DoAll, CountOps, CommitOps, WipeOps, TryOps, LastTry, U2fArea, Accepts;
    n' := n;
    match e
    case WrongPin(page, blank, done) =>
      if Usable(d') {
        n' := TryKeepsCounter(scans, d, e, d', p, k, n);
      }
    case RightPin(page, blank, done) =>
      if Usable(d') {
        n' := TryKeepsCounter(scans, d, e, d', p, k, n);
      }
    case Exhausted(page, blank) =>
      ExhaustedIsRefused(scans, d, e, d', p, k);
    case UseCounter(page, done) =>
      if Usable(d') {
        n' := UseKeepsCounter(scans, d, e, d', p, k, n);
      }
    case Save(page, done) =>
      SaveKeepsCounter(d.flash, page, done, d'.flash, n);
    case Wipe(blank, done) =>
      if done {
        WipeDone(d.flash, blank);
        n' := 0;
      } else if Usable(d') {
        WipeCrashSafe(d.flash, blank, d'.flash);
        SameLastSameCounter(d.flash, d'.flash, n);
      }
    case Boot =>
    case BootWipe(blank, done) =>
      WipeDone(d.flash, blank);
      n' := 0;
  }

  lemma SaveKeepsCounter(s: Image, page: seq<uint32>, done: bool, t: Image, n: nat)
    requires |page| == SECTOR && U2fArea(s, n)
    requires if done then t == DoAll(s, CommitOps(page)) else Cut(s, CommitOps(page), t)
    ensures U2fArea(t, n)
  {
    hide DoAll, CommitOps, Cut, U2fArea;
    if done {
      CommitStores(s, page);
    } else {
      CommitKeepsLast(s, page, t);
    }
    SameLastSameCounter(s, t, n);
  }

  /** Uses that the power cut: only they can clear a bit behind the area. */
  function CutUses(events: seq<Event>): nat
  {
    if |events| == 0 then 0
    else
      var e := events[|events| - 1];
      CutUses(events[..|events| - 1]) + if e.UseCounter? && !e.done then 1 else 0
  }

  /** How many bits can ever be cleared: the area, and with the scan one more for every cut use. */
  function Most(scans: bool, n: nat, cuts: nat): nat
  {
    var last := if scans then U2F_BITS - 1 else U2F_BITS;
    (if n > last then n else last) + if scans then cuts else 0
  }

  /**
   Over any run that revives no storage, the U2F area holds a run of cleared low bits, in order.
   Without the scan they never pass the area; with it, only uses cut by the power can.
   */
  lemma {:induction false} CounterIsKept(scans: bool, ds: seq<Device>, events: seq<Event>, p: nat, k: nat, n: nat)
    returns (n': nat)
    requires IsRun(scans, ds, events) && NoneRevived(ds, events) && (Usable(ds[0]) ==> PinArea(ds[0].flash, p, k))
    requires CounterOk(scans, ds[0], n) && Most(scans, n, CutUses(events)) + 1 < U2F_ROOM
    ensures CounterOk(scans, ds[|ds| - 1], n') && n' <= Most(scans, n, CutUses(events))
    decreases |events|
  {
    hide Happens, PinArea, U2fArea, Usable, Revives, CounterOk;
    n' := n;
    if |events| > 0 {
      var m := |events| - 1;
      assert NoneRevived(ds[..m + 1], events[..m]);
      var j := CounterIsKept(scans, ds[..m + 1], events[..m], p, k, n);
      var q, f := FailuresAreKept(scans, ds[..m + 1], events[..m], p, k);
      if events[m].UseCounter? {
        OffsetShown(scans, ds[m], events[m], ds[m + 1], j);
      }
      n' := EventKeepsCounter(scans, ds[m], events[m], ds[m + 1], q, f, j);
    }
  }

  lemma OffsetShown(scans: bool, d: Device, e: Event, d': Device, n: nat)
    requires Happens(scans, d, e, d') && CounterOk(scans, d, n) && e.UseCounter?
    ensures Shows(scans, d.offset, n)
  {
    hide Cut, DoAll, U2fArea, PinArea;
  }

  /** The value that a use would have answered last: the stored counter and the offset. */
  function Told(d: Device): uint32
  {
    (d.flash[STORAGE_AT + U2F_COUNTER] + d.offset) % TWO32
  }

  /**
   A boot keeps the counter if and only if the offset comes back: with the scan always, without
   it only if it was zero, so that the uses since the last new area are answered again.
   */
  lemma BootKeepsCounter(scans: bool, d: Device, d': Device, n: nat)
    requires Happens(scans, d, Boot, d') && d.live && U2fArea(d.flash, n) && Shows(scans, d.offset, n)
    ensures Told(d') == Told(d) <==> scans || d.offset == 0
    ensures d'.offset == if scans then n else 0
  {
    hide U2fArea;
    CounterFits(d.flash, n);
    SumsDiffer(d.flash[STORAGE_AT + U2F_COUNTER], d.offset, d'.offset);
  }

  lemma SumsDiffer(base: uint32, a: nat, b: nat)
    requires a < TWO32 && b < TWO32
    ensures (base + a) % TWO32 == (base + b) % TWO32 <==> a == b
  {
    var x, y := (base + a) / TWO32, (base + b) / TWO32;
    assert base + a == TWO32 * x + (base + a) % TWO32 && base + b == TWO32 * y + (base + b) % TWO32;
    if (base + a) % TWO32 == (base + b) % TWO32 {
      assert a - b == TWO32 * (x - y);
    }
  }
}

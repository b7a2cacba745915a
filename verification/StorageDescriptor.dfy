/**
 The firmware descriptor in words 0 to 63 shares its sector with the settings: every commit
 erases it and writes it back (firmware/storage.c:401-411). Exactly which power cuts lose it.
 */
module StorageDescriptor {
  import opened Bytes
  import opened FlashMemory
  import opened PinStorage
  import opened PinRuns
  import opened StorageRuns

  /** What stands in words 0 to 63: magic, code length, signatures. */
  function Descriptor(s: Image): seq<uint32>
  {
    s[..64]
  }

  lemma SameDescriptor(s: Image, t: Image)
    requires forall i :: 0 <= i < 64 ==> t[i] == s[i]
    ensures Descriptor(t) == Descriptor(s)
  {
  }

  // ------------------------------------------------------------- one commit

  /**
   After the erase and `j - 1` words of a commit the descriptor is the old one if and only if
   the words still missing were erased before: else it is lost until word 63 is back.
   */
  lemma CommitPrefix(s: Image, page: seq<uint32>, j: nat)
    requires PageFor(s, page) && j <= 4097
    ensures Descriptor(DoAll(s, CommitOps(page)[..j])) == Descriptor(s)
       <==> j == 0 || forall i :: j - 1 <= i < 64 ==> s[i] == 0xffff_ffff
  {
    if j == 0 {
      assert CommitOps(page)[..0] == [];
      return;
    }
    assert CommitOps(page)[..j] == [Erase(First)] + WriteWords(0, page[..j - 1]);
    hide WriteWords, CommitOps;
    DoAllAppend(s, [Erase(First)], WriteWords(0, page[..j - 1]));
    DoOne(s, Erase(First));
    var erased := Do(s, Erase(First));
    WrittenWords(erased, 0, page[..j - 1]);
    var t := DoAll(erased, WriteWords(0, page[..j - 1]));
    hide DoAll;
    assert forall i :: 0 <= i < 64 ==> page[i] == page[..MAGIC_AT][i] == s[i];
    assert forall i :: 0 <= i < 64 ==> t[i] == if i < j - 1 then s[i] else 0xffff_ffff;
    if Descriptor(t) == Descriptor(s) {
      forall i | j - 1 <= i < 64 ensures s[i] == 0xffff_ffff {
        assert s[i] == Descriptor(s)[i] == Descriptor(t)[i];
      }
    }
  }

  /** The operations contain one commit of this page, from position `c` on, and none else touches the descriptor. */
  ghost predicate CommitsAt(ops: seq<Op>, c: nat, page: seq<uint32>)
    requires |page| == SECTOR
  {
    && c + 4097 <= |ops| && ops[c..c + 4097] == CommitOps(page)
    && Quiet(ops[..c]) && Quiet(ops[c + 4097..])
  }

  ghost predicate Quiet(ops: seq<Op>)
  {
    forall n, i :: 0 <= n < |ops| && 0 <= i < 64 ==> !Touches(ops[n], i)
  }

  lemma QuietKeeps(s: Image, ops: seq<Op>)
    requires Quiet(ops)
    ensures Descriptor(DoAll(s, ops)) == Descriptor(s)
  {
    hide DoAll, Touches;
    forall i | 0 <= i < 64 ensures DoAll(s, ops)[i] == s[i] {
      Untouched(s, ops, i);
    }
  }

  /** Whether the descriptor is there once `k` operations are done, of which the commit begins at `c`. */
  predicate Intact(s: Image, c: nat, k: nat)
  {
    k <= c || forall i :: k - c - 1 <= i < 64 ==> s[i] == 0xffff_ffff
  }

  lemma AroundCommit(s: Image, ops: seq<Op>, c: nat, page: seq<uint32>, k: nat)
    requires PageFor(s, page) && CommitsAt(ops, c, page) && k <= |ops|
    ensures Descriptor(DoAll(s, ops[..k])) == Descriptor(s) <==> Intact(s, c, k)
  {
    hide DoAll, CommitOps, Touches;
    if k <= c {
      assert ops[..k] == ops[..c][..k];
      QuietKeeps(s, ops[..k]);
      return;
    }
    QuietKeeps(s, ops[..c]);
    var mid := DoAll(s, ops[..c]);
    assert forall i :: 0 <= i < 64 ==> mid[i] == Descriptor(mid)[i] == s[i];
    var j := if k <= c + 4097 then k - c else 4097;
    assert ops[..c + j] == ops[..c] + CommitOps(page)[..j];
    DoAllAppend(s, ops[..c], CommitOps(page)[..j]);
    CommitPrefix(mid, page, j);
    if j < k - c {
      assert ops[..k] == ops[..c + 4097] + ops[c + 4097..][..k - c - 4097];
      DoAllAppend(s, ops[..c + 4097], ops[c + 4097..][..k - c - 4097]);
      QuietKeeps(DoAll(s, ops[..c + 4097]), ops[c + 4097..][..k - c - 4097]);
    }
  }

  // ------------------------------------------------------------- every event

  predicate Starts(d: Device, e: Event)
  {
    match e
    case WrongPin(page, blank, _) => MayTry(d) && PageFor(d.flash, page) && BlankFor(d.flash, blank)
    case Exhausted(page, blank) => MayTry(d) && PageFor(d.flash, page) && BlankFor(d.flash, blank)
    case RightPin(page, blank, _) => MayTry(d) && PageFor(d.flash, page) && BlankFor(d.flash, blank)
    case UseCounter(page, _) => d.offset < U2F_ROOM && PageFor(d.flash, page)
    case Save(page, _) => PageFor(d.flash, page)
    case Wipe(blank, _) => BlankFor(d.flash, blank)
    case Boot => true
    case BootWipe(blank, _) => BlankFor(d.flash, blank)
  }

  /** The flash operations of an event. */
  function OpsOf(d: Device, e: Event): seq<Op>
    requires Starts(d, e)
  {
    match e
    case WrongPin(page, blank, _) => TryOps(d.flash, false, page, blank)
    case Exhausted(page, blank) => TryOps(d.flash, false, page, blank)
    case RightPin(page, blank, _) => TryOps(d.flash, true, page, blank)
    case UseCounter(page, _) => CountOps(d.flash, d.offset, page)
    case Save(page, _) => CommitOps(page)
    case Wipe(blank, _) => WipeOps(blank)
    case Boot => []
    case BootWipe(blank, _) => WipeOps(blank)
  }

  predicate Whole(e: Event)
  {
    e.Exhausted? || e.Boot? || e.done
  }

  lemma HappensAs(scans: bool, d: Device, e: Event, d': Device)
    requires Happens(scans, d, e, d')
    ensures Starts(d, e)
    ensures if Whole(e) then d'.flash == DoAll(d.flash, OpsOf(d, e)) else Cut(d.flash, OpsOf(d, e), d'.flash)
  {
    hide Cut, TryOps, CountOps, CommitOps, WipeOps, Scans, MayTry, Accepts, LastTry, BlankPage;
  }

  /** Where an event commits, if it does. */
  function CommitAt(d: Device, e: Event): Option<nat>
    requires Starts(d, e)
  {
    match e
    case WrongPin(_, _, _) => if LastTry(d.flash) then Some(|IncreaseOps(d.flash)|) else None
    case Exhausted(_, _) => if LastTry(d.flash) then Some(|IncreaseOps(d.flash)|) else None
    case RightPin(_, _, _) =>
      if FirstNonzero(d.flash, PINAREA) + 1 >= PINAREA_END then Some(|IncreaseOps(d.flash)| + 3) else None
    case UseCounter(_, _) => if d.offset + 1 >= 2048 then Some(4) else None
    case Boot => None
    case _ => Some(0)
  }

  function PageOf(d: Device, e: Event): (page: seq<uint32>)
    requires Starts(d, e) && CommitAt(d, e).Some?
    ensures PageFor(d.flash, page)
  {
    match e
    case WrongPin(_, blank, _) => blank
    case Exhausted(_, blank) => blank
    case RightPin(page, _, _) => page
    case UseCounter(page, _) => page
    case Save(page, _) => page
    case Wipe(blank, _) => blank
    case BootWipe(blank, _) => blank
  }

  lemma Assembled(front: seq<Op>, page: seq<uint32>, back: seq<Op>)
    requires |page| == SECTOR && Quiet(front) && Quiet(back)
    ensures CommitsAt(front + CommitOps(page) + back, |front|, page)
  {
    var ops := front + CommitOps(page) + back;
    assert ops[|front|..|front| + 4097] == CommitOps(page);
    assert ops[..|front|] == front && ops[|front| + 4097..] == back;
  }

  lemma RecycleAssembled(front: seq<Op>, page: seq<uint32>, pinFails: uint32)
    requires |page| == SECTOR && Quiet(front)
    ensures CommitsAt(front + RecycleOps(page, pinFails), |front| + 3, page)
  {
    Assembled(front + RecycleStart(pinFails), page, []);
    assert front + RecycleStart(pinFails) + CommitOps(page) + [] == front + RecycleOps(page, pinFails);
  }

  lemma EventCommits(d: Device, e: Event)
    requires Starts(d, e)
    ensures if CommitAt(d, e).Some? then CommitsAt(OpsOf(d, e), CommitAt(d, e).value, PageOf(d, e))
            else Quiet(OpsOf(d, e))
  {
    hide CommitOps, DoAll, CommitsAt, NextWord, RecycleOps;
    var s := d.flash;
    match e {
      case WrongPin(page, blank, _) =>
        WrongPinCommits(d, e, page, blank);
      case Exhausted(page, blank) =>
        WrongPinCommits(d, e, page, blank);
      case RightPin(page, blank, _) =>
        if CommitAt(d, e).Some? {
          RecycleAssembled(IncreaseOps(s), page, ERASED);
        }
      case UseCounter(page, _) =>
        if CommitAt(d, e).Some? {
          RecycleAssembled([Write(U2FAREA + d.offset / 32, NextWord(d.offset))], page, PinWord(s));
        }
      case Save(page, _) =>
        Assembled([], page, []);
        assert [] + CommitOps(page) + [] == CommitOps(page);
      case Boot =>
      case _ =>
        Assembled([], e.blank, [Erase(Last)]);
        assert [] + CommitOps(e.blank) + [Erase(Last)] == WipeOps(e.blank);
    }
  }

  lemma WrongPinCommits(d: Device, e: Event, page: seq<uint32>, blank: seq<uint32>)
    requires Starts(d, e) && (e == Exhausted(page, blank) || (e.WrongPin? && e.page == page && e.blank == blank))
    ensures if CommitAt(d, e).Some? then CommitsAt(OpsOf(d, e), CommitAt(d, e).value, PageOf(d, e))
            else Quiet(OpsOf(d, e))
  {
    hide CommitOps, DoAll, CommitsAt;
    if LastTry(d.flash) {
      Assembled(IncreaseOps(d.flash), blank, [Erase(Last)]);
      assert IncreaseOps(d.flash) + CommitOps(blank) + [Erase(Last)] == IncreaseOps(d.flash) + WipeOps(blank);
    }
  }

  /**
   Between any two operations of any event the descriptor is the old one, except exactly from
   the erase of a commit until its last word that was not erased before is written again.
   */
  lemma DescriptorBetween(d: Device, e: Event, k: nat)
    requires Starts(d, e) && k <= |OpsOf(d, e)|
    ensures Descriptor(DoAll(d.flash, OpsOf(d, e)[..k])) == Descriptor(d.flash)
       <==> CommitAt(d, e).None? || Intact(d.flash, CommitAt(d, e).value, k)
    ensures CommitAt(d, e).Some? && d.flash[63] != 0xffff_ffff ==>
      (Descriptor(DoAll(d.flash, OpsOf(d, e)[..k])) == Descriptor(d.flash)
       <==> !(CommitAt(d, e).value + 1 <= k <= CommitAt(d, e).value + 64))
  {
    hide DoAll, OpsOf, CommitAt, CommitsAt, Starts, PageOf, Touches;
    EventCommits(d, e);
    if CommitAt(d, e).Some? {
      AroundCommit(d.flash, OpsOf(d, e), CommitAt(d, e).value, PageOf(d, e), k);
    } else {
      QuietKeeps(d.flash, OpsOf(d, e)[..k]);
    }
  }

  /** Every whole event keeps the descriptor. */
  lemma WholeEventKeepsDescriptor(scans: bool, d: Device, e: Event, d': Device)
    requires Happens(scans, d, e, d') && Whole(e)
    ensures Descriptor(d'.flash) == Descriptor(d.flash)
  {
    hide Happens, DoAll, OpsOf, CommitsAt, Starts, PageOf, Touches, CommitAt;
    HappensAs(scans, d, e, d');
    EventCommits(d, e);
    var ops := OpsOf(d, e);
    assert ops[..|ops|] == ops;
    DescriptorBetween(d, e, |ops|);
    if CommitAt(d, e).Some? {
      assert |ops| >= CommitAt(d, e).value + 4097 by { CommitFits(ops, CommitAt(d, e).value, PageOf(d, e)); }
    }
  }

  lemma CommitFits(ops: seq<Op>, c: nat, page: seq<uint32>)
    requires |page| == SECTOR && CommitsAt(ops, c, page)
    ensures |ops| >= c + 4097 && ops[c] == Erase(First)
    ensures forall n, i :: 0 <= n < |ops| && 0 <= i < 64 && !(c <= n < c + 4097) ==> !Touches(ops[n], i)
    ensures forall n :: c < n < c + 4097 ==> ops[n].Write?
  {
    var middle := ops[c..c + 4097];
    assert middle[0] == ops[c];
    assert forall n :: c < n < c + 4097 ==> ops[n] == middle[n - c];
    assert forall n :: 0 <= n < c ==> ops[n] == ops[..c][n];
    assert forall n :: c + 4097 <= n < |ops| ==> ops[n] == ops[c + 4097..][n - c - 4097];
  }

  /** The power went while the commit of this event was erasing, or before the descriptor was back. */
  ghost predicate InWindow(d: Device, e: Event, k: nat, t: Image)
    requires Starts(d, e) && k <= |OpsOf(d, e)|
  {
    && CommitAt(d, e).Some?
    && if t == DoAll(d.flash, OpsOf(d, e)[..k]) then !Intact(d.flash, CommitAt(d, e).value, k)
       else k == CommitAt(d, e).value
  }

  /**
   A cut loses the descriptor if and only if it comes in that window; while erasing only if the
   words that it leaves are others.
   */
  lemma CutLosesDescriptor(d: Device, e: Event, k: nat, t: Image)
    requires Starts(d, e) && k <= |OpsOf(d, e)| && CutAt(d.flash, OpsOf(d, e), k, t)
    ensures Descriptor(t) != Descriptor(d.flash) ==> InWindow(d, e, k, t)
    ensures InWindow(d, e, k, t) && t == DoAll(d.flash, OpsOf(d, e)[..k]) ==> Descriptor(t) != Descriptor(d.flash)
  {
    hide DoAll, OpsOf, CommitAt, CommitsAt, Starts, PageOf, Touches;
    DescriptorBetween(d, e, k);
    var ops := OpsOf(d, e);
    if t != DoAll(d.flash, ops[..k]) && !(CommitAt(d, e).Some? && k == CommitAt(d, e).value) {
      TornElsewhere(d, e, k, t);
    }
  }

  lemma TornElsewhere(d: Device, e: Event, k: nat, t: Image)
    requires Starts(d, e) && k < |OpsOf(d, e)| && Torn(DoAll(d.flash, OpsOf(d, e)[..k]), OpsOf(d, e)[k], t)
    requires CommitAt(d, e).Some? ==> k != CommitAt(d, e).value
    ensures Descriptor(t) == Descriptor(d.flash)
  {
    hide DoAll, OpsOf, CommitAt, CommitsAt, Starts, PageOf;
    EventCommits(d, e);
    var ops := OpsOf(d, e);
    if CommitAt(d, e).Some? {
      CommitFits(ops, CommitAt(d, e).value, PageOf(d, e));
    }
    var op := ops[k];
    forall i | 0 <= i < 64 ensures t[i] == DoAll(d.flash, ops[..k])[i] {
      assert !Touches(op, i);
    }
    DescriptorBetween(d, e, k);
    SameDescriptor(DoAll(d.flash, ops[..k]), t);
  }

  /** And a cut while the commit erases can leave any descriptor at all. */
  lemma AnyDescriptorAfterTear(d: Device, e: Event, words: seq<uint32>) returns (t: Image)
    requires Starts(d, e) && CommitAt(d, e).Some? && |words| == 64
    ensures Cut(d.flash, OpsOf(d, e), t) && Descriptor(t) == words
    ensures CommitAt(d, e).value < |OpsOf(d, e)| && CutAt(d.flash, OpsOf(d, e), CommitAt(d, e).value, t)
  {
    hide DoAll, OpsOf, CommitAt, CommitsAt, Starts, PageOf;
    EventCommits(d, e);
    var ops, c := OpsOf(d, e), CommitAt(d, e).value;
    CommitFits(ops, c, PageOf(d, e));
    var mid := DoAll(d.flash, ops[..c]);
    t := words + mid[64..];
    assert Torn(mid, ops[c], t);
    assert CutAt(d.flash, ops, c, t);
  }

  // ------------------------------------------------------------------- runs

  /** No cut of this event came in the window of its commit. */
  ghost predicate Spares(d: Device, e: Event, d': Device)
  {
    Starts(d, e) && (Whole(e) || exists k ::
      0 <= k <= |OpsOf(d, e)| && CutAt(d.flash, OpsOf(d, e), k, d'.flash) && !InWindow(d, e, k, d'.flash))
  }

  /** Over every run in which no cut comes in the window of a commit, the descriptor is the one of the beginning. */
  lemma {:induction false} DescriptorIsKept(scans: bool, ds: seq<Device>, events: seq<Event>)
    requires IsRun(scans, ds, events) && forall i :: 0 <= i < |events| ==> Spares(ds[i], events[i], ds[i + 1])
    ensures Descriptor(ds[|ds| - 1].flash) == Descriptor(ds[0].flash)
    decreases |events|
  {
    hide Happens, InWindow, OpsOf, Starts, CutAt, Whole, Spares;
    if |events| > 0 {
      var n := |events| - 1;
      assert forall i :: 0 <= i < n ==> Spares(ds[..n + 1][i], events[..n][i], ds[..n + 1][i + 1]) by {
        assert forall i :: 0 <= i < n ==> Spares(ds[i], events[i], ds[i + 1]);
      }
      DescriptorIsKept(scans, ds[..n + 1], events[..n]);
      var d, e, d' := ds[n], events[n], ds[n + 1];
      assert Spares(d, e, d');
      SparedKeepsDescriptor(scans, d, e, d');
    }
  }

  lemma SparedKeepsDescriptor(scans: bool, d: Device, e: Event, d': Device)
    requires Happens(scans, d, e, d') && Spares(d, e, d')
    ensures Descriptor(d'.flash) == Descriptor(d.flash)
  {
    hide Happens, InWindow, OpsOf, Starts, CutAt, Whole;
    if Whole(e) {
      WholeEventKeepsDescriptor(scans, d, e, d');
    } else {
      var k :| 0 <= k <= |OpsOf(d, e)| && CutAt(d.flash, OpsOf(d, e), k, d'.flash) && !InWindow(d, e, k, d'.flash);
      CutLosesDescriptor(d, e, k, d'.flash);
    }
  }
}

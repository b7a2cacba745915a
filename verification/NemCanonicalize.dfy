/**
 `nem_canonicalizeMosaics` (firmware/nem2.c) in place: duplicates are merged with a skip
 array, then the merged prefix is sorted by exchanges. The prefix is the canonical form of
 the list exactly when the comparator orders the names of the list.
 */
module NemCanonicalize {
  import opened Bytes
  import opened NemMosaics

  // -------------------------------------------------------------- merging

  /** The prefix merged so far stands for the first `i` mosaics, with the sums of the whole list. */
  ghost predicate MergedUpTo(r: seq<Mosaic>, s: seq<Mosaic>, i: nat)
  {
    && i <= |s| && Distinct(r)
    && (forall m: Mosaic :: Has(r, m) <==> Has(s[..i], m))
    && (forall k :: 0 <= k < |r| ==> r[k].quantity == SumOf(s, r[k]))
  }

  lemma HasSnoc(r: seq<Mosaic>, x: Mosaic, m: Mosaic)
    ensures Has(r + [x], m) <==> Has(r, m) || SameName(x, m)
  {
    HasFront(r + [x], m);
    assert (r + [x])[..|r|] == r;
  }

  lemma HasSameName(r: seq<Mosaic>, m: Mosaic, m': Mosaic)
    requires SameName(m, m') && Has(r, m)
    ensures Has(r, m')
  {
    var i :| 0 <= i < |r| && SameName(r[i], m);
    assert SameName(r[i], m');
  }

  lemma OtherName(r: seq<Mosaic>, x: Mosaic, key: Mosaic)
    requires Has(r, x) && !Has(r, key)
    ensures !SameName(x, key)
  {
    if SameName(x, key) {
      HasSameName(r, x, key);
    }
  }

  /** A mosaic whose name is already there is skipped. */
  lemma MergeSkips(r: seq<Mosaic>, s: seq<Mosaic>, i: nat)
    requires MergedUpTo(r, s, i) && i < |s| && Has(r, s[i])
    ensures MergedUpTo(r, s, i + 1)
  {
    forall m: Mosaic ensures Has(r, m) <==> Has(s[..i + 1], m) {
      assert s[..i + 1] == s[..i] + [s[i]];
      HasSnoc(s[..i], s[i], m);
      if SameName(s[i], m) {
        HasSameName(r, s[i], m);
      }
    }
  }

  lemma AppendedNames(r: seq<Mosaic>, s: seq<Mosaic>, i: nat, x: Mosaic, m: Mosaic)
    requires i < |s| && SameName(x, s[i]) && (Has(r, m) <==> Has(s[..i], m))
    ensures Has(r + [x], m) <==> Has(s[..i + 1], m)
  {
    assert s[..i + 1] == s[..i] + [s[i]];
    HasSnoc(s[..i], s[i], m);
    HasSnoc(r, x, m);
  }

  lemma AppendedDistinct(r: seq<Mosaic>, x: Mosaic)
    requires Distinct(r) && !Has(r, x)
    ensures Distinct(r + [x])
  {
    forall k | 0 <= k < |r| ensures !SameName(r[k], x) {
      assert Has(r, r[k]);
      OtherName(r, r[k], x);
    }
  }

  /** A new name is appended with the sum of all its quantities. */
  lemma MergeAppends(r: seq<Mosaic>, s: seq<Mosaic>, i: nat, x: Mosaic)
    requires MergedUpTo(r, s, i) && i < |s| && !Has(r, s[i])
    requires SameName(x, s[i]) && x.quantity == SumOf(s, s[i])
    ensures MergedUpTo(r + [x], s, i + 1)
  {
    if Has(r, x) {
      HasSameName(r, x, s[i]);
    }
    AppendedDistinct(r, x);
    SumSameName(s, x, s[i]);
    hide SumOf, Has, SameName, Distinct;
    forall m: Mosaic ensures Has(r + [x], m) <==> Has(s[..i + 1], m) {
      AppendedNames(r, s, i, x, m);
    }
  }

  /** A complete merge keeps every name and every sum. */
  lemma MergeComplete(r: seq<Mosaic>, s: seq<Mosaic>, m: Mosaic)
    requires MergedUpTo(r, s, |s|)
    ensures (Has(r, m) <==> Has(s, m)) && SumOf(r, m) == SumOf(s, m)
  {
    assert s[..|s|] == s;
    assert Has(r, m) <==> Has(s, m);
    if Has(r, m) {
      var k :| 0 <= k < |r| && SameName(r[k], m);
      SumOfDistinct(r, k);
      SumSameName(r, r[k], m);
      SumSameName(s, r[k], m);
    } else {
      SumAbsent(r, m);
      SumAbsent(s, m);
    }
  }

  /** What the inner loop adds up for mosaic `i`, before position `j`. */
  function Gathered(s: seq<Mosaic>, skip: seq<bool>, i: nat, j: nat): uint64
    requires i < j <= |s| == |skip|
  {
    if j == i + 1 then s[i].quantity
    else
      var g := Gathered(s, skip, i, j - 1);
      if !skip[j - 1] && Compare(s[i], s[j - 1]) == 0 then (g as int + s[j - 1].quantity as int) % TWO64 else g
  }

  /** The marks once the mosaics between `i` and `j` that compare equal to `s[i]` are marked too. */
  predicate MoreMarks(skip: seq<bool>, marks: seq<bool>, s: seq<Mosaic>, i: nat, j: nat)
    requires i < |s| == |skip| == |marks|
  {
    forall l :: 0 <= l < |s| ==> (skip[l] <==> marks[l] || (i < l < j && Compare(s[i], s[l]) == 0))
  }

  lemma GatherOne(s: seq<Mosaic>, skip: seq<bool>, marks: seq<bool>, i: nat, j: nat)
    requires i < j < |s| == |skip| == |marks| && MoreMarks(skip, marks, s, i, j)
    ensures var takes := !skip[j] && Compare(s[i], s[j]) == 0;
      && MoreMarks(if takes then skip[j := true] else skip, marks, s, i, j + 1)
      && Gathered(s, marks, i, j + 1)
         == if takes then (Gathered(s, marks, i, j) as int + s[j].quantity as int) % TWO64 else Gathered(s, marks, i, j)
  {
    hide Compare;
  }

  /** The inner loop: adds the quantities of later mosaics that compare equal to `mosaics[at]` and marks them. */
  method MergeInto(mosaics: array<Mosaic>, skip: array<bool>, at: nat, i: nat, ghost s: seq<Mosaic>)
    requires at <= i < mosaics.Length == skip.Length == |s|
    requires mosaics[at] == s[i] && forall l :: i < l < |s| ==> mosaics[l] == s[l]
    modifies mosaics, skip
    ensures mosaics[..] == old(mosaics[..])[at := s[i].(quantity := Gathered(s, old(skip[..]), i, |s|))]
    ensures MoreMarks(skip[..], old(skip[..]), s, i, |s|)
  {
    ghost var before, marks := mosaics[..], skip[..];
    for j := i + 1 to mosaics.Length
      invariant mosaics[..] == before[at := s[i].(quantity := Gathered(s, marks, i, j))]
      invariant MoreMarks(skip[..], marks, s, i, j)
    {
      hide Compare, MoreMarks, Gathered;
      assert mosaics[j] == before[j] == s[j];
      CompareNames(mosaics[at], mosaics[j], s[i], s[j]);
      GatherOne(s, skip[..], marks, i, j);
      if skip[j] {
        continue;
      }
      if Compare(mosaics[at], mosaics[j]) == 0 {
        ghost var was := skip[..];
        skip[j] := true;
        assert skip[..] == was[j := true];
        mosaics[at] := mosaics[at].(quantity := (mosaics[at].quantity as int + mosaics[j].quantity as int) % TWO64);
      }
    }
  }

  lemma OwnName(m: Mosaic)
    ensures SameName(m, m)
  {
  }

  lemma EqualIsName(s: seq<Mosaic>, i: nat, j: nat)
    requires i < |s| && j < |s| && Unconfused(s)
    ensures Compare(s[i], s[j]) == 0 <==> SameName(s[j], s[i])
  {
    hide Compare;
    ZeroExactly(s[i], s[j]);
  }

  lemma AddedIs(sum: uint64, x: Mosaic, m: Mosaic)
    ensures Added(sum, x, m) == if SameName(x, m) then (sum as int + x.quantity as int) % TWO64 else sum
  {
  }

  /** Where names are told apart and only other names are marked, that is the sum of the name. */
  lemma {:induction false} GatheredIsSum(s: seq<Mosaic>, skip: seq<bool>, i: nat, j: nat)
    requires i < j <= |s| == |skip| && Unconfused(s) && !Has(s[..i], s[i])
    requires forall l :: i < l < |s| && skip[l] ==> !SameName(s[l], s[i])
    ensures Gathered(s, skip, i, j) == SumOf(s[..j], s[i])
  {
    hide Compare, SameName, Added, Has;
    assert s[..j] == s[..j - 1] + [s[j - 1]];
    SumSnoc(s[..j - 1], s[j - 1], s[i]);
    AddedIs(SumOf(s[..j - 1], s[i]), s[j - 1], s[i]);
    EqualIsName(s, i, j - 1);
    if j == i + 1 {
      SumAbsent(s[..i], s[i]);
      OwnName(s[i]);
    } else {
      GatheredIsSum(s, skip, i, j - 1);
    }
  }

  /** Some merged mosaic compares equal to `m`. */
  predicate Met(r: seq<Mosaic>, m: Mosaic)
  {
    exists k :: 0 <= k < |r| && Compare(r[k], m) == 0
  }

  predicate Separated(r: seq<Mosaic>)
  {
    forall k, l :: 0 <= k < l < |r| ==> Compare(r[k], r[l]) != 0
  }

  predicate NamesFrom(r: seq<Mosaic>, s: seq<Mosaic>)
  {
    forall k :: 0 <= k < |r| ==> Has(s, r[k])
  }

  /** The mosaics behind `i` are marked exactly when something merged compares equal to them. */
  predicate Marked(skip: seq<bool>, r: seq<Mosaic>, s: seq<Mosaic>, i: nat)
    requires |skip| == |s|
  {
    forall l :: i <= l < |s| ==> (skip[l] <==> Met(r, s[l]))
  }

  lemma MetSnoc(r: seq<Mosaic>, x: Mosaic, m: Mosaic)
    ensures Met(r + [x], m) <==> Met(r, m) || Compare(x, m) == 0
  {
    if Met(r, m) {
      var k :| 0 <= k < |r| && Compare(r[k], m) == 0;
      assert (r + [x])[k] == r[k];
    }
    assert (r + [x])[|r|] == x;
  }

  lemma MarkedNext(skip: seq<bool>, skip': seq<bool>, r: seq<Mosaic>, s: seq<Mosaic>, x: Mosaic, i: nat)
    requires i < |s| == |skip| == |skip'| && SameName(x, s[i]) && Marked(skip, r, s, i)
    requires MoreMarks(skip', skip, s, i, |s|)
    ensures Marked(skip', r + [x], s, i + 1)
  {
    hide Compare, Met;
    forall l | i + 1 <= l < |s| ensures skip'[l] <==> Met(r + [x], s[l]) {
      MetSnoc(r, x, s[l]);
      CompareNames(x, s[l], s[i], s[l]);
    }
  }

  lemma SeparatedNext(r: seq<Mosaic>, s: seq<Mosaic>, i: nat, x: Mosaic)
    requires i < |s| && SameName(x, s[i]) && Separated(r) && NamesFrom(r, s) && !Met(r, s[i])
    ensures Separated(r + [x]) && NamesFrom(r + [x], s)
  {
    hide Compare;
    forall k | 0 <= k < |r| ensures Compare(r[k], x) != 0 {
      CompareNames(r[k], x, r[k], s[i]);
    }
    assert Has(s, x);
  }

  /** Where names are told apart, comparing equal is having the name. */
  lemma MetIsHas(r: seq<Mosaic>, s: seq<Mosaic>, l: nat)
    requires Unconfused(s) && NamesFrom(r, s) && l < |s|
    ensures Met(r, s[l]) <==> Has(r, s[l])
  {
    hide Compare;
    forall k | 0 <= k < |r| ensures Compare(r[k], s[l]) == 0 <==> SameName(r[k], s[l]) {
      var p :| 0 <= p < |s| && SameName(s[p], r[k]);
      CompareNames(s[p], s[l], r[k], s[l]);
      ZeroExactly(r[k], s[l]);
    }
  }

  lemma MergeStep(r: seq<Mosaic>, s: seq<Mosaic>, i: nat, skip: seq<bool>)
    requires Unconfused(s) && MergedUpTo(r, s, i) && NamesFrom(r, s) && i < |s| == |skip|
    requires Marked(skip, r, s, i) && !skip[i]
    ensures MergedUpTo(r + [s[i].(quantity := Gathered(s, skip, i, |s|))], s, i + 1)
  {
    hide Compare, Met, Gathered, MergedUpTo;
    MetIsHas(r, s, i);
    NewName(r, s, i);
    forall l | i < l < |s| && skip[l] ensures !SameName(s[l], s[i]) {
      MetIsHas(r, s, l);
      OtherName(r, s[l], s[i]);
    }
    assert s[..|s|] == s;
    GatheredIsSum(s, skip, i, |s|);
    MergeAppends(r, s, i, s[i].(quantity := Gathered(s, skip, i, |s|)));
  }

  /** If every name is kept, names are told apart. */
  lemma KeptIsUnconfused(r: seq<Mosaic>, s: seq<Mosaic>)
    requires Separated(r) && forall i :: 0 <= i < |s| ==> Has(r, s[i])
    ensures Unconfused(s)
  {
    hide Compare;
    forall i, j | 0 <= i < |s| && 0 <= j < |s| && Compare(s[i], s[j]) == 0 ensures SameName(s[i], s[j]) {
      var p :| 0 <= p < |r| && SameName(r[p], s[i]);
      var q :| 0 <= q < |r| && SameName(r[q], s[j]);
      CompareNames(r[p], r[q], s[i], s[j]);
      CompareTurned(r[p], r[q]);
    }
  }

  lemma MergedExactly(r: seq<Mosaic>, s: seq<Mosaic>)
    requires Separated(r) && (Unconfused(s) ==> MergedUpTo(r, s, |s|))
    ensures Unconfused(s) <==> MergedUpTo(r, s, |s|)
    ensures Unconfused(s) <==> SameContent(r, s)
  {
    hide Compare, Unconfused;
    assert s[..|s|] == s;
    if MergedUpTo(r, s, |s|) {
      forall m: Mosaic ensures (Has(r, m) <==> Has(s, m)) && SumOf(r, m) == SumOf(s, m) {
        MergeComplete(r, s, m);
      }
    }
    if SameContent(r, s) {
      forall i | 0 <= i < |s| ensures Has(r, s[i]) {
        assert Has(s, s[i]);
      }
      KeptIsUnconfused(r, s);
    }
  }

  /** What holds of the merged prefix and the marks before mosaic `i`. */
  ghost predicate Merging(r: seq<Mosaic>, s: seq<Mosaic>, skip: seq<bool>, i: nat)
    requires |skip| == |s|
  {
    Separated(r) && NamesFrom(r, s) && Marked(skip, r, s, i) && (Unconfused(s) ==> MergedUpTo(r, s, i))
  }

  lemma MergingStarts(s: seq<Mosaic>, skip: seq<bool>)
    requires |skip| == |s| && forall l :: 0 <= l < |s| ==> !skip[l]
    ensures Merging([], s, skip, 0)
  {
  }

  lemma MergingEnds(r: seq<Mosaic>, s: seq<Mosaic>, skip: seq<bool>)
    requires |skip| == |s| && Merging(r, s, skip, |s|)
    ensures Separated(r) && NamesFrom(r, s)
    ensures Unconfused(s) <==> MergedUpTo(r, s, |s|)
    ensures Unconfused(s) <==> SameContent(r, s)
  {
    MergedExactly(r, s);
  }

  lemma MergingSkips(r: seq<Mosaic>, s: seq<Mosaic>, skip: seq<bool>, i: nat)
    requires i < |s| == |skip| && Merging(r, s, skip, i) && skip[i]
    ensures Merging(r, s, skip, i + 1)
  {
    hide Met, Separated, NamesFrom, MergedUpTo, Unconfused;
    if Unconfused(s) {
      MetIsHas(r, s, i);
      MergeSkips(r, s, i);
    }
  }

  lemma MergingAppends(r: seq<Mosaic>, s: seq<Mosaic>, skip: seq<bool>, skip': seq<bool>, i: nat)
    requires i < |s| == |skip| == |skip'| && Merging(r, s, skip, i) && !skip[i] && MoreMarks(skip', skip, s, i, |s|)
    ensures Merging(r + [s[i].(quantity := Gathered(s, skip, i, |s|))], s, skip', i + 1)
  {
    hide Met, Separated, NamesFrom, MergedUpTo, Unconfused, Gathered, MoreMarks;
    var x := s[i].(quantity := Gathered(s, skip, i, |s|));
    SeparatedNext(r, s, i, x);
    MarkedNext(skip, skip', r, s, x, i);
    if Unconfused(s) {
      MergeStep(r, s, i, skip);
    }
  }

  /** The first half of `nem_canonicalizeMosaics`: every name with its sum, exactly if names are told apart. */
  method MergeDuplicates(mosaics: array<Mosaic>) returns (count: nat)
    requires mosaics.Length > 0
    modifies mosaics
    ensures 1 <= count <= mosaics.Length
    ensures Separated(mosaics[..count]) && NamesFrom(mosaics[..count], old(mosaics[..]))
    ensures Unconfused(old(mosaics[..])) <==> MergedUpTo(mosaics[..count], old(mosaics[..]), mosaics.Length)
    ensures Unconfused(old(mosaics[..])) <==> SameContent(mosaics[..count], old(mosaics[..]))
  {
    hide Merging, MoreMarks, Gathered, Unconfused, Orderly, Separated, NamesFrom, MergedUpTo, SameContent;
    ghost var s := mosaics[..];
    var skip := new bool[mosaics.Length](_ => false);
    count := 0;
    MergingStarts(s, skip[..]);
    for i := 0 to mosaics.Length
      invariant count <= i && (i == 0 ==> !skip[0]) && (i > 0 ==> count > 0)
      invariant forall l :: i <= l < |s| ==> mosaics[l] == s[l]
      invariant Merging(mosaics[..count], s, skip[..], i)
    {
      ghost var r, marks := mosaics[..count], skip[..];
      if skip[i] {
        MergingSkips(r, s, skip[..], i);
        continue;
      }
      var at := count;
      if at != i {
        mosaics[at] := mosaics[i];
      }
      count := count + 1;
      MergeInto(mosaics, skip, at, i, s);
      MergingAppends(r, s, marks, skip[..], i);
      assert mosaics[..count] == r + [mosaics[at]];
    }
    MergingEnds(mosaics[..count], s, skip[..]);
  }

  lemma NewName(r: seq<Mosaic>, s: seq<Mosaic>, i: nat)
    requires MergedUpTo(r, s, i) && i < |s| && !Has(r, s[i])
    ensures !Has(s[..i], s[i])
  {
  }

  // -------------------------------------------------------------- sorting

  predicate Less(a: Mosaic, b: Mosaic)
  {
    Compare(a, b) < 0
  }

  /** The first `i` mosaics are in place: sorted, and before everything behind them. */
  ghost predicate SortedUpTo(s: seq<Mosaic>, i: nat)
  {
    forall p, q :: 0 <= p < q < |s| && p < i ==> Less(s[p], s[q])
  }

  /** Position `i` holds the least of the positions from `i` to `j` - 1. */
  ghost predicate LeastUpTo(s: seq<Mosaic>, i: nat, j: nat)
    requires i < |s|
  {
    forall q :: i < q < j && q < |s| ==> Less(s[i], s[q])
  }

  function Swapped(s: seq<Mosaic>, i: nat, j: nat): (t: seq<Mosaic>)
    requires i < j < |s|
    ensures |t| == |s| && multiset(t) == multiset(s)
  {
    s[i := s[j]][j := s[i]]
  }

  /** Once the first `i` mosaics are in place and position `i` is compared up to `j`. */
  ghost predicate Sorting(s: seq<Mosaic>, i: nat, j: nat)
    requires i < |s|
  {
    Orderly(s) && Distinct(s) && SortedUpTo(s, i) && LeastUpTo(s, i, j)
  }

  /** Exchanging a larger earlier mosaic with a smaller later one keeps what is known. */
  lemma ExchangeKeeps(s: seq<Mosaic>, i: nat, j: nat)
    requires i < j < |s| && Sorting(s, i, j) && Compare(s[i], s[j]) > 0
    ensures Sorting(Swapped(s, i, j), i, j + 1)
  {
    hide Compare, SameName;
    var t := Swapped(s, i, j);
    SwappedDistinct(s, i, j);
    forall p | 0 <= p < |t| ensures Has(s, t[p]) {
      SameAsItself(s, if p == i then j else if p == j then i else p);
    }
    OrderlyWithin(t, s);
    CompareTurned(s[i], s[j]);
    forall q | i < q < j ensures Less(t[i], t[q]) {
      assert Less(s[i], s[q]);
    }
  }

  lemma SameAsItself(s: seq<Mosaic>, p: nat)
    requires p < |s|
    ensures Has(s, s[p])
  {
    assert SameName(s[p], s[p]);
  }

  lemma SwappedDistinct(s: seq<Mosaic>, i: nat, j: nat)
    requires i < j < |s| && Distinct(s)
    ensures Distinct(Swapped(s, i, j))
  {
    var t := Swapped(s, i, j);
    forall p, q | 0 <= p < q < |t| ensures !SameName(t[p], t[q]) {
      var p' := if p == i then j else if p == j then i else p;
      var q' := if q == i then j else if q == j then i else q;
      assert t[p] == s[p'] && t[q] == s[q'];
      assert if p' < q' then !SameName(s[p'], s[q']) else !SameName(s[q'], s[p']);
    }
  }

  /** Without an exchange the order is already right. */
  lemma NoExchangeKeeps(s: seq<Mosaic>, i: nat, j: nat)
    requires i < j < |s| && Sorting(s, i, j) && Compare(s[i], s[j]) <= 0
    ensures Sorting(s, i, j + 1)
  {
    hide Compare, SameName, SortedUpTo;
    assert !SameName(s[i], s[j]);
  }

  /** The exchanges so far permuted the list, and sorted it as far if it can be sorted. */
  ghost predicate Exchanged(s: seq<Mosaic>, was: seq<Mosaic>, i: nat, j: nat)
  {
    i < |s| && multiset(s) == multiset(was) && (Orderly(was) && Distinct(was) ==> Sorting(s, i, j))
  }

  lemma ExchangedStarts(s: seq<Mosaic>)
    requires |s| > 0
    ensures Exchanged(s, s, 0, 1)
  {
    hide Orderly, Distinct;
  }

  function Compared(s: seq<Mosaic>, i: nat, j: nat): seq<Mosaic>
    requires i < j < |s|
  {
    if Compare(s[i], s[j]) > 0 then Swapped(s, i, j) else s
  }

  lemma ExchangedOne(s: seq<Mosaic>, was: seq<Mosaic>, i: nat, j: nat)
    requires i < j < |s| && Exchanged(s, was, i, j)
    ensures Exchanged(Compared(s, i, j), was, i, j + 1)
  {
    hide Sorting, Compare, Orderly, Distinct;
    if Orderly(was) && Distinct(was) {
      if Compare(s[i], s[j]) > 0 {
        ExchangeKeeps(s, i, j);
      } else {
        NoExchangeKeeps(s, i, j);
      }
    }
  }

  lemma ExchangedNext(s: seq<Mosaic>, was: seq<Mosaic>, i: nat)
    requires i + 1 < |s| && Exchanged(s, was, i, |s|)
    ensures Exchanged(s, was, i + 1, i + 2)
  {
    hide Compare, SameName, Orderly, Distinct;
  }

  lemma ExchangedEnds(s: seq<Mosaic>, was: seq<Mosaic>)
    requires |s| > 0 && Exchanged(s, was, |s| - 1, |s|)
    ensures multiset(s) == multiset(was) && (StrictlySorted(s) <==> Orderly(was) && Distinct(was))
  {
    hide Compare, Orderly, Distinct;
    if Orderly(was) && Distinct(was) {
      forall i, j | 0 <= i < j < |s| ensures Compare(s[i], s[j]) < 0 {
        assert Less(s[i], s[j]);
      }
    }
    if StrictlySorted(s) {
      SortedWas(s, was);
    }
  }

  /** The second half of `nem_canonicalizeMosaics`: exchanges within the first `count` mosaics. */
  method SortPrefix(mosaics: array<Mosaic>, count: nat)
    requires 1 <= count <= mosaics.Length
    modifies mosaics
    ensures multiset(mosaics[..count]) == multiset(old(mosaics[..count]))
    ensures StrictlySorted(mosaics[..count]) <==> Orderly(old(mosaics[..count])) && Distinct(old(mosaics[..count]))
  {
    hide Exchanged, Orderly, Distinct, StrictlySorted, Compare;
    ghost var was := mosaics[..count];
    ExchangedStarts(was);
    for i := 0 to count - 1
      invariant Exchanged(mosaics[..count], was, i, i + 1)
    {
      for j := i + 1 to count
        invariant Exchanged(mosaics[..count], was, i, j)
      {
        ghost var s := mosaics[..count];
        ExchangedOne(s, was, i, j);
        if Compare(mosaics[i], mosaics[j]) > 0 {
          mosaics[i], mosaics[j] := mosaics[j], mosaics[i];
        }
        assert mosaics[..count] == Compared(s, i, j);
      }
      ExchangedNext(mosaics[..count], was, i);
    }
    ExchangedEnds(mosaics[..count], was);
  }

  /** A permutation of a sorted list is orderly, and no name is in it twice. */
  lemma SortedWas(r: seq<Mosaic>, was: seq<Mosaic>)
    requires StrictlySorted(r) && multiset(r) == multiset(was)
    ensures Orderly(was) && Distinct(was)
  {
    hide Compare;
    SortedIsDistinct(r);
    forall i | 0 <= i < |was| ensures Has(r, was[i]) {
      SameAsItself(was, i);
      HasPermuted(was, r, was[i]);
    }
    SortedIsOrderly(r, was);
    forall i, j | 0 <= i < j < |was| ensures !SameName(was[i], was[j]) {
      TwoPlaces(was, r, i, j);
    }
  }

  /** Two places of a list are two places of a permutation. */
  lemma TwoPlaces(s: seq<Mosaic>, r: seq<Mosaic>, i: nat, j: nat)
    requires i < j < |s| && multiset(r) == multiset(s) && Distinct(r)
    ensures !SameName(s[i], s[j])
  {
    assert s[j] in multiset(r);
    var k :| 0 <= k < |r| && r[k] == s[j];
    RemoveOne(r, k);
    RemoveOne(s, j);
    var rest := s[..j] + s[j + 1..];
    assert rest[i] == s[i] && s[i] in multiset(rest);
    assert s[i] in r[..k] + r[k + 1..];
  }

  lemma OrderlyWhenSorted(merged: seq<Mosaic>, s: seq<Mosaic>)
    requires Orderly(s) && Separated(merged) && NamesFrom(merged, s)
    ensures Orderly(merged) && Distinct(merged)
  {
    hide Compare;
    OrderlyWithin(merged, s);
    forall k, l | 0 <= k < l < |merged| ensures !SameName(merged[k], merged[l]) {
      ZeroExactly(merged[k], merged[l]);
    }
  }

  lemma SameContentPermuted(r: seq<Mosaic>, merged: seq<Mosaic>, s: seq<Mosaic>)
    requires multiset(r) == multiset(merged)
    ensures SameContent(r, s) <==> SameContent(merged, s)
  {
    hide SumOf;
    forall m: Mosaic ensures (Has(r, m) <==> Has(merged, m)) && SumOf(r, m) == SumOf(merged, m) {
      SumPermuted(r, merged, m);
      if Has(r, m) {
        HasPermuted(r, merged, m);
      }
      if Has(merged, m) {
        HasPermuted(merged, r, m);
      }
    }
  }

  lemma CanonicalExactly(merged: seq<Mosaic>, r: seq<Mosaic>, s: seq<Mosaic>)
    requires Separated(merged) && NamesFrom(merged, s) && multiset(r) == multiset(merged)
    requires Unconfused(s) <==> SameContent(merged, s)
    requires StrictlySorted(r) <==> Orderly(merged) && Distinct(merged)
    ensures Unconfused(s) <==> SameContent(r, s)
    ensures Orderly(s) <==> CanonicalOf(r, s)
  {
    SameContentPermuted(r, merged, s);
    if Orderly(s) {
      OrderlyWhenSorted(merged, s);
    }
    hide Compare;
    if CanonicalOf(r, s) {
      forall i | 0 <= i < |s| ensures Has(r, s[i]) {
        SameAsItself(s, i);
      }
      SortedIsOrderly(r, s);
    }
  }

  lemma SingleIsCanonical(s: seq<Mosaic>)
    requires |s| <= 1
    ensures CanonicalOf(s, s) && Orderly(s)
  {
    hide Compare;
    if |s| == 1 {
      ZeroExactly(s[0], s[0]);
    }
  }

  /**
   `nem_canonicalizeMosaics`: the first `count` mosaics keep every name with its sum exactly when
   the comparator tells the names apart, and are the canonical form exactly when it orders them.
   */
  method Canonicalize(mosaics: array<Mosaic>) returns (count: nat)
    modifies mosaics
    ensures count <= mosaics.Length
    ensures Unconfused(old(mosaics[..])) <==> SameContent(mosaics[..count], old(mosaics[..]))
    ensures Orderly(old(mosaics[..])) <==> CanonicalOf(mosaics[..count], old(mosaics[..]))
  {
    ghost var s := mosaics[..];
    if mosaics.Length <= 1 {
      SingleIsCanonical(s);
      assert mosaics[..mosaics.Length] == s;
      return mosaics.Length;
    }
    count := MergeDuplicates(mosaics);
    ghost var merged := mosaics[..count];
    SortPrefix(mosaics, count);
    CanonicalExactly(merged, mosaics[..count], s);
  }
}

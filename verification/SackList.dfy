/** The list of received packet numbers in picoquic/sacks.c, as the sorted sequence of its ranges. */
module SackList {

  datatype Range = Range(lo: nat, hi: nat) {
    predicate Has(n: int) {
      lo <= n <= hi
    }
  }

  ghost predicate Contains(items: seq<Range>, n: int) {
    exists k :: 0 <= k < |items| && items[k].Has(n)
  }

  /** Non-empty ranges in increasing order; there is at least one missing number between two of them. */
  ghost predicate Sorted(items: seq<Range>) {
    && (forall i :: 0 <= i < |items| ==> items[i].lo <= items[i].hi)
    && (forall i, j :: 0 <= i < j < |items| ==> items[i].hi + 1 < items[j].lo)
  }

  /** The number of ranges that start at or before `n`: the splay search finds the last of them. */
  function CountUpTo(items: seq<Range>, n: int): (k: nat)
    ensures k <= |items|
    ensures forall i :: 0 <= i < k ==> items[i].lo <= n
    ensures k < |items| ==> items[k].lo > n
  {
    if items == [] || items[0].lo > n then 0 else 1 + CountUpTo(items[1..], n)
  }

  /** `items'` is `items` with the numbers from `lo` to `hi`. */
  ghost predicate Added(items: seq<Range>, items': seq<Range>, lo: int, hi: int) {
    forall n: int :: Contains(items', n) <==> Contains(items, n) || lo <= n <= hi
  }

  /** `picoquic_check_sack_list`: whether one range holds all numbers from `lo` to `hi`. */
  function Check(items: seq<Range>, lo: nat, hi: int): bool {
    var k := CountUpTo(items, lo);
    k > 0 && hi <= items[k - 1].hi
  }

  /** As ranges are never adjacent, that is so exactly if all these numbers are in the list. */
  lemma CheckIff(items: seq<Range>, lo: nat, hi: int)
    requires Sorted(items) && lo <= hi
    ensures Check(items, lo, hi) <==> forall n :: lo <= n <= hi ==> Contains(items, n)
  {
    hide Contains, CountUpTo;
    var k := CountUpTo(items, lo);
    if Check(items, lo, hi) {
      AllReceived(items, k - 1, lo, hi);
    } else if k == 0 || items[k - 1].hi < lo {
      NotReceived(items, k, lo);
    } else {
      var n := items[k - 1].hi + 1;
      NextAbove(items, k - 1);
      ContainsWhere(items, k - 1, n);
    }
  }

  class SackTree {
    var items: seq<Range>

    ghost predicate Valid()
      reads this
    {
      Sorted(items)
    }

    constructor ()
      ensures Valid() && items == []
    {
      items := [];
    }

    /** `picoquic_update_sack_list`, without an acknowledgement horizon. The result says that nothing was new. */
    method Update(min: nat, max: nat) returns (duplicate: bool)
      requires Valid() && min <= max
      modifies this
      ensures Valid()
      ensures Added(old(items), items, min, max)
      ensures duplicate <==> forall n :: min <= n <= max ==> Contains(old(items), n)
    {
      hide Contains, Sorted, Added, CountUpTo;
      ghost var items0 := items;
      duplicate := true;
      var previous := CountUpTo(items, min) - 1;
      if previous < 0 || items[previous].hi + 1 < min {
        var next := previous + 1;
        NotReceived(items, next, min);
        duplicate := false;
        if next == |items| || items[next].lo - 1 > max {
          InsertRange(items, next, min, max);
          items := items[..next] + [Range(min, max)] + items[next..];
          return;
        }
        ExtendDown(items, next, min, max);
        items := items[next := Range(min, items[next].hi)];
        previous := next;
      } else {
        Overlaps(items, previous, min, max);
      }
      while items[previous].hi < max
        invariant 0 <= previous < |items| && items[previous].lo <= min <= items[previous].hi + 1
        invariant Sorted(items)
        invariant Added(items0, items, min, Min(max, items[previous].hi))
        invariant duplicate ==> items == items0
        invariant !duplicate ==> exists n :: min <= n <= max && !Contains(items0, n)
        decreases |items| - previous, max - items[previous].hi
      {
        var next := previous + 1;
        NotAdjacent(items0, items, previous, min, max);
        duplicate := false;
        if next == |items| || items[next].lo - 1 > max {
          ExtendUp(items0, items, previous, min, max);
          items := items[previous := Range(items[previous].lo, max)];
        } else {
          Merge(items0, items, previous, min, max);
          items := items[..previous] + [Range(items[previous].lo, items[next].hi)] + items[next + 1..];
        }
      }
      if duplicate {
        AllReceived(items, previous, min, max);
      }
    }

    /** `picoquic_process_ack_of_ack_range`, without an acknowledgement horizon: the peer has seen an ACK of the range. */
    method AckOfAck(start: nat, end: nat)
      requires Valid() && start <= end
      modifies this
      ensures Valid() && Pruned(old(items), items, start, end)
      ensures old(items) != [] ==> items != [] && items[|items| - 1].hi == old(items[|items| - 1].hi)
    {
      hide Contains, Sorted, CountUpTo, Pruned;
      var previous := CountUpTo(items, start) - 1;
      if previous >= 0 && items[previous].lo == start {
        var next := previous + 1;
        NextAbove(items, previous);
        if next == |items| {
          var r := items[previous].(lo := if end < items[previous].hi then end + 1 else items[previous].hi);
          PruneTop(items, previous, r, start, end);
          items := items[previous := r];
          return;
        }
        if items[previous].hi == end {
          PruneWhole(items, previous);
          items := items[..previous] + items[next..];
          return;
        }
      }
      PruneNothing(items, previous, start, end);
    }
  }

  /** The peer knows of number `n`: it is in a whole range of the list, or at the start of the top range, whose last number
      is never dropped. */
  ghost predicate Dropped(items: seq<Range>, start: nat, end: nat, n: int) {
    || (start <= n <= end && exists k :: 0 <= k < |items| - 1 && items[k] == Range(start, end))
    || (items != [] && items[|items| - 1].lo == start && start <= n <= Min(end, items[|items| - 1].hi - 1))
  }

  /** Exactly these numbers leave the list. */
  ghost predicate Pruned(items: seq<Range>, items': seq<Range>, start: nat, end: nat) {
    forall n: int :: Contains(items', n) <==> Contains(items, n) && !Dropped(items, start, end, n)
  }

  lemma PruneNothing(items: seq<Range>, k: int, start: nat, end: nat)
    requires Sorted(items) && k == CountUpTo(items, start) - 1
    requires k >= 0 ==> items[k].lo != start || (k + 1 < |items| && items[k].hi != end)
    ensures Pruned(items, items, start, end)
  {
    hide Contains, CountUpTo;
    forall i | 0 <= i < |items| && items[i].lo == start
      ensures i == k
    {
    }
  }

  lemma PruneTop(items: seq<Range>, k: nat, r: Range, start: nat, end: nat)
    requires Sorted(items) && k + 1 == |items| && items[k].lo == start <= end
    requires r == Range(if end < items[k].hi then end + 1 else items[k].hi, items[k].hi)
    ensures Sorted(items[k := r]) && Pruned(items, items[k := r], start, end)
  {
    hide Contains;
    NextAbove(items, k);
    SortedSlices(items, k, k + 1);
    SortedParts(items[..k], r, []);
    assert items[k := r] == items[..k] + [r] + [];
    var s := items[k := r];
    assert forall i :: 0 <= i < k ==> items[i].lo <= items[i].hi && items[i].hi + 1 < items[k].lo;
    forall n: int
      ensures Contains(s, n) <==> Contains(items, n) && !(start <= n <= Min(end, items[k].hi - 1))
    {
      ContainsParts(items[..k], r, [], n);
      NothingContained(n);
      ContainsWhere(items, k, n);
      assert items[k + 1..] == [];
    }
  }

  lemma NothingContained(n: int)
    ensures !Contains([], n)
  {
  }

  lemma PruneWhole(items: seq<Range>, k: nat)
    requires Sorted(items) && k + 1 < |items|
    ensures var s := items[..k] + items[k + 1..];
            Sorted(s) && s != [] && s[|s| - 1] == items[|items| - 1] && Pruned(items, s, items[k].lo, items[k].hi)
  {
    var s := items[..k] + items[k + 1..];
    assert Sorted(s);
    assert items[k].hi + 1 < items[|items| - 1].lo;
    hide Contains;
    forall n: int
      ensures Contains(s, n) <==> Contains(items, n) && !items[k].Has(n)
    {
      ContainsConcat(items[..k], items[k + 1..], n);
      ContainsWhere(items, k, n);
    }
  }

  function Min(a: int, b: int): int {
    if a < b then a else b
  }

  // ----- One range at a time

  lemma ContainsParts(a: seq<Range>, r: Range, b: seq<Range>, n: int)
    ensures Contains(a + [r] + b, n) <==> Contains(a, n) || r.Has(n) || Contains(b, n)
  {
    var s := a + [r] + b;
    if Contains(a, n) {
      var k :| 0 <= k < |a| && a[k].Has(n);
      assert s[k].Has(n);
    }
    assert s[|a|] == r;
    if Contains(b, n) {
      var k :| 0 <= k < |b| && b[k].Has(n);
      assert s[|a| + 1 + k].Has(n);
    }
    if Contains(s, n) {
      var k :| 0 <= k < |s| && s[k].Has(n);
      if k < |a| {
        assert a[k].Has(n);
      } else if k > |a| {
        assert b[k - |a| - 1].Has(n);
      }
    }
  }

  /** Where a number is relative to a range decides where it can be contained. */
  lemma ContainsWhere(items: seq<Range>, k: nat, n: int)
    requires Sorted(items) && k < |items|
    ensures Contains(items[..k], n) ==> n + 1 < items[k].lo
    ensures Contains(items[k + 1..], n) ==> items[k].hi + 1 < n
    ensures Contains(items, n) <==> Contains(items[..k], n) || items[k].Has(n) || Contains(items[k + 1..], n)
  {
  }

  lemma NotReceived(items: seq<Range>, next: nat, n: nat)
    requires Sorted(items) && next <= |items|
    requires next > 0 ==> items[next - 1].hi < n
    requires next < |items| ==> n < items[next].lo
    ensures !Contains(items, n)
  {
  }

  lemma SortedParts(a: seq<Range>, r: Range, b: seq<Range>)
    requires Sorted(a) && Sorted(b) && r.lo <= r.hi
    requires a != [] ==> a[|a| - 1].hi + 1 < r.lo
    requires b != [] ==> r.hi + 1 < b[0].lo
    ensures Sorted(a + [r] + b)
  {
    var s := a + [r] + b;
    forall i | 0 <= i < |a|
      ensures a[i].hi + 1 < r.lo
    {
      assert i < |a| - 1 ==> a[i].hi + 1 < a[|a| - 1].lo;
    }
    forall i | 0 <= i < |b|
      ensures r.hi + 1 < b[i].lo
    {
      assert i > 0 ==> b[0].hi + 1 < b[i].lo;
    }
  }

  lemma InsertRange(items: seq<Range>, next: nat, min: nat, max: nat)
    requires Sorted(items) && next <= |items| && min <= max
    requires next > 0 ==> items[next - 1].hi + 1 < min
    requires next < |items| ==> items[next].lo - 1 > max
    ensures var s := items[..next] + [Range(min, max)] + items[next..]; Sorted(s) && Added(items, s, min, max)
  {
    hide Contains, Sorted;
    var a, b := items[..next], items[next..];
    SortedSlices(items, next, next);
    SortedParts(a, Range(min, max), b);
    assert items == a + b;
    forall n
      ensures Contains(a + [Range(min, max)] + b, n) <==> Contains(items, n) || min <= n <= max
    {
      ContainsParts(a, Range(min, max), b, n);
      ContainsConcat(a, b, n);
    }
  }

  lemma SortedSlices(items: seq<Range>, i: nat, j: nat)
    requires Sorted(items) && i <= |items| && j <= |items|
    ensures Sorted(items[..i]) && Sorted(items[j..])
  {
  }

  lemma ContainsConcat(a: seq<Range>, b: seq<Range>, n: int)
    ensures Contains(a + b, n) <==> Contains(a, n) || Contains(b, n)
  {
    var s := a + b;
    if Contains(a, n) {
      var k :| 0 <= k < |a| && a[k].Has(n);
      assert s[k].Has(n);
    }
    if Contains(b, n) {
      var k :| 0 <= k < |b| && b[k].Has(n);
      assert s[|a| + k].Has(n);
    }
    if Contains(s, n) {
      var k :| 0 <= k < |s| && s[k].Has(n);
      assert k < |a| ==> a[k].Has(n);
      assert k >= |a| ==> b[k - |a|].Has(n);
    }
  }

  /** Replacing one range by a larger one that stays away from its neighbours. */
  lemma Replace(items: seq<Range>, k: nat, r: Range, skip: nat)
    requires Sorted(items) && k + skip < |items|
    requires r.lo <= items[k].lo && items[k + skip].hi <= r.hi
    requires k > 0 ==> items[k - 1].hi + 1 < r.lo
    requires k + skip + 1 < |items| ==> r.hi + 1 < items[k + skip + 1].lo
    ensures var s := items[..k] + [r] + items[k + skip + 1..];
            && Sorted(s)
            && forall n :: Contains(s, n) <==> Contains(items, n) || r.Has(n)
  {
    hide Contains, Sorted;
    var a, m, b := items[..k], items[k..k + skip + 1], items[k + skip + 1..];
    SortedSlices(items, k, k + skip + 1);
    var s := a + [r] + b;
    FirstBelowLast(items, k, skip);
    SortedParts(a, r, b);
    ThreeParts(items, k, k + skip + 1);
    forall n
      ensures Contains(s, n) <==> Contains(items, n) || r.Has(n)
    {
      ContainsParts(a, r, b, n);
      ContainsConcat(a, m, n);
      ContainsConcat(a + m, b, n);
      if Contains(m, n) {
        WithinSlice(items, k, skip, n);
      }
    }
  }

  lemma ThreeParts(items: seq<Range>, i: nat, j: nat)
    requires i <= j <= |items|
    ensures items == items[..i] + items[i..j] + items[j..]
  {
  }

  lemma FirstBelowLast(items: seq<Range>, k: nat, skip: nat)
    requires Sorted(items) && k + skip < |items|
    ensures items[k].lo <= items[k + skip].hi
  {
  }

  lemma WithinSlice(items: seq<Range>, k: nat, skip: nat, n: int)
    requires Sorted(items) && k + skip < |items| && Contains(items[k..k + skip + 1], n)
    ensures items[k].lo <= n <= items[k + skip].hi
  {
  }

  lemma ExtendDown(items: seq<Range>, next: nat, min: nat, max: nat)
    requires Sorted(items) && next < |items| && min <= max
    requires next > 0 ==> items[next - 1].hi + 1 < min
    requires min < items[next].lo && items[next].lo - 1 <= max
    ensures var s := items[next := Range(min, items[next].hi)];
            && Sorted(s) && Added(items, s, min, Min(max, items[next].hi)) && items[next].lo <= items[next].hi
  {
    hide Contains;
    var r := Range(min, items[next].hi);
    NextAbove(items, next);
    Replace(items, next, r, 0);
    assert items[next := r] == items[..next] + [r] + items[next + 1..];
    forall n
      ensures r.Has(n) && !(min <= n <= Min(max, items[next].hi)) ==> Contains(items, n)
    {
      ContainsWhere(items, next, n);
    }
  }

  lemma NextAbove(items: seq<Range>, k: nat)
    requires Sorted(items) && k < |items|
    ensures items[k].lo <= items[k].hi
    ensures k + 1 < |items| ==> items[k].hi + 1 < items[k + 1].lo <= items[k + 1].hi
    ensures k + 2 < |items| ==> items[k + 1].hi + 1 < items[k + 2].lo
    ensures k > 0 ==> items[k - 1].hi + 1 < items[k].lo
  {
  }

  /** The range found by the search already holds the new numbers up to its end. */
  lemma Overlaps(items: seq<Range>, previous: nat, min: nat, max: nat)
    requires Sorted(items) && previous < |items| && items[previous].lo <= min <= items[previous].hi + 1
    ensures Added(items, items, min, Min(max, items[previous].hi))
  {
  }

  lemma AllReceived(items: seq<Range>, previous: nat, min: nat, max: nat)
    requires Sorted(items) && previous < |items| && items[previous].lo <= min && max <= items[previous].hi
    ensures forall n :: min <= n <= max ==> Contains(items, n)
  {
  }

  /** The number after the end of a range is new. */
  lemma NotAdjacent(items0: seq<Range>, items: seq<Range>, k: nat, min: nat, max: nat)
    requires Sorted(items) && k < |items| && min <= items[k].hi + 1 <= max
    requires Added(items0, items, min, Min(max, items[k].hi))
    ensures exists n :: min <= n <= max && !Contains(items0, n)
  {
    hide Contains;
    var n := items[k].hi + 1;
    ContainsWhere(items, k, n);
    NextAbove(items, k);
    assert !Contains(items0, n);
  }

  lemma ExtendUp(items0: seq<Range>, items: seq<Range>, k: nat, min: nat, max: nat)
    requires Sorted(items) && k < |items| && items[k].lo <= min <= items[k].hi + 1 <= max
    requires k + 1 < |items| ==> items[k + 1].lo - 1 > max
    requires Added(items0, items, min, Min(max, items[k].hi))
    ensures var s := items[k := Range(items[k].lo, max)]; Sorted(s) && Added(items0, s, min, max)
  {
    hide Contains;
    var r := Range(items[k].lo, max);
    NextAbove(items, k);
    Replace(items, k, r, 0);
    var s := items[..k] + [r] + items[k + 1..];
    assert items[k := r] == s;
    forall n
      ensures Contains(s, n) <==> Contains(items0, n) || min <= n <= max
    {
      ContainsWhere(items, k, n);
    }
  }

  lemma Merge(items0: seq<Range>, items: seq<Range>, k: nat, min: nat, max: nat)
    requires Sorted(items) && k + 1 < |items| && items[k].lo <= min <= items[k].hi + 1 <= max
    requires items[k + 1].lo - 1 <= max
    requires Added(items0, items, min, Min(max, items[k].hi))
    ensures var s := items[..k] + [Range(items[k].lo, items[k + 1].hi)] + items[k + 2..];
            && Sorted(s) && Added(items0, s, min, Min(max, items[k + 1].hi))
            && min <= items[k + 1].hi + 1
  {
    hide Contains;
    var r := Range(items[k].lo, items[k + 1].hi);
    NextAbove(items, k);
    Replace(items, k, r, 1);
    var s := items[..k] + [r] + items[k + 2..];
    forall n
      ensures Contains(s, n) <==> Contains(items0, n) || min <= n <= Min(max, items[k + 1].hi)
    {
      ContainsWhere(items, k, n);
      ContainsWhere(items, k + 1, n);
    }
  }
}

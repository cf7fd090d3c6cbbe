/** Filtering and mapping a sequence in one pass, as a loop that appends
    what it can convert and skips the rest, and the characterisation of
    its result by the positions it keeps. */
module FilterMaps {
  import opened Base

  /** The values `f` yields for `xs`, in order, skipping those it rejects. */
  function FilterMap<A, B>(xs: seq<A>, f: A -> Option<B>): seq<B> {
    if |xs| == 0 then []
    else
      match f(xs[0])
      case Some(y) => [y] + FilterMap(xs[1..], f)
      case None => FilterMap(xs[1..], f)
  }

  /** `idx` lists, in increasing order, exactly the positions of `xs` that
      `f` accepts, and `r` holds what `f` yields there, position by
      position: one value per accepted element, in the elements' order. */
  ghost predicate Picks<A, B>(xs: seq<A>, f: A -> Option<B>, idx: seq<nat>, r: seq<B>)
  {
    && |idx| == |r|
    && (forall k :: 0 <= k < |idx| ==> idx[k] < |xs| && f(xs[idx[k]]) == Some(r[k]))
    && (forall k, l :: 0 <= k < l < |idx| ==> idx[k] < idx[l])
    && (forall i :: 0 <= i < |xs| && f(xs[i]).Some? ==> exists k :: 0 <= k < |idx| && idx[k] == i)
  }

  /** Every position one further on. */
  function Shift(idx: seq<nat>): (r: seq<nat>)
    ensures |r| == |idx| && forall k :: 0 <= k < |idx| ==> r[k] == idx[k] + 1
  {
    seq(|idx|, k requires 0 <= k < |idx| => idx[k] + 1)
  }

  /** Every position one back (none is at 0 where this is used). */
  function Unshift(idx: seq<nat>): (r: seq<nat>)
    ensures |r| == |idx| && forall k :: 0 <= k < |idx| ==> r[k] == if idx[k] > 0 then idx[k] - 1 else 0
  {
    seq(|idx|, k requires 0 <= k < |idx| => if idx[k] > 0 then idx[k] - 1 else 0)
  }

  /** Putting an accepted head in front: every picked position is in
      range and yields its value. */
  lemma PicksKeepValues<A, B>(xs: seq<A>, f: A -> Option<B>, tail: seq<nat>, r: seq<B>)
    requires |xs| > 0 && f(xs[0]).Some? && Picks(xs[1..], f, tail, r)
    ensures var idx, r' := [0] + Shift(tail), [f(xs[0]).value] + r;
      forall k :: 0 <= k < |idx| ==> idx[k] < |xs| && f(xs[idx[k]]) == Some(r'[k])
  {
    var idx, r' := [0] + Shift(tail), [f(xs[0]).value] + r;
    forall k | 0 <= k < |idx|
      ensures idx[k] < |xs| && f(xs[idx[k]]) == Some(r'[k])
    {
      if k > 0 {
        assert idx[k] == tail[k - 1] + 1;
        assert xs[idx[k]] == xs[1..][tail[k - 1]];
        assert r'[k] == r[k - 1];
      }
    }
  }

  /** Putting an accepted head in front: every accepted position is
      picked. */
  lemma PicksKeepCovers<A, B>(xs: seq<A>, f: A -> Option<B>, tail: seq<nat>, r: seq<B>)
    requires |xs| > 0 && f(xs[0]).Some? && Picks(xs[1..], f, tail, r)
    ensures var idx := [0] + Shift(tail);
      forall i :: 0 <= i < |xs| && f(xs[i]).Some? ==> exists k :: 0 <= k < |idx| && idx[k] == i
  {
    var idx := [0] + Shift(tail);
    forall i | 0 <= i < |xs| && f(xs[i]).Some?
      ensures exists k :: 0 <= k < |idx| && idx[k] == i
    {
      if i == 0 {
        assert idx[0] == 0;
      } else {
        assert xs[1..][i - 1] == xs[i];
        var k :| 0 <= k < |tail| && tail[k] == i - 1;
        assert idx[k + 1] == i;
      }
    }
  }

  /** Putting an accepted head in front keeps the positions increasing. */
  lemma PicksKeepOrdered(tail: seq<nat>)
    requires forall k, l :: 0 <= k < l < |tail| ==> tail[k] < tail[l]
    ensures var idx := [0] + Shift(tail);
      forall k, l :: 0 <= k < l < |idx| ==> idx[k] < idx[l]
  {
    var sh := Shift(tail);
    var idx := [0] + sh;
    forall k, l | 0 <= k < l < |idx|
      ensures idx[k] < idx[l]
    {
      assert idx[l] == sh[l - 1];
      if k > 0 {
        assert idx[k] == sh[k - 1];
        assert tail[k - 1] < tail[l - 1];
      }
    }
  }

  /** Putting an accepted head in front of a picked rest. */
  lemma PicksKeep<A, B>(xs: seq<A>, f: A -> Option<B>, tail: seq<nat>, r: seq<B>)
    requires |xs| > 0 && f(xs[0]).Some? && Picks(xs[1..], f, tail, r)
    ensures Picks(xs, f, [0] + Shift(tail), [f(xs[0]).value] + r)
  {
    PicksKeepValues(xs, f, tail, r);
    PicksKeepCovers(xs, f, tail, r);
    PicksKeepOrdered(tail);
  }

  /** Putting a rejected head in front of a picked rest. */
  lemma PicksSkip<A, B>(xs: seq<A>, f: A -> Option<B>, tail: seq<nat>, r: seq<B>)
    requires |xs| > 0 && f(xs[0]).None? && Picks(xs[1..], f, tail, r)
    ensures Picks(xs, f, Shift(tail), r)
  {
    var idx := Shift(tail);
    forall k | 0 <= k < |idx|
      ensures idx[k] < |xs| && f(xs[idx[k]]) == Some(r[k])
    {
      assert xs[idx[k]] == xs[1..][tail[k]];
    }
    forall i | 0 <= i < |xs| && f(xs[i]).Some?
      ensures exists k :: 0 <= k < |idx| && idx[k] == i
    {
      assert xs[1..][i - 1] == xs[i];
      var k :| 0 <= k < |tail| && tail[k] == i - 1;
      assert idx[k] == i;
    }
  }

  /** Moving every position one back keeps increasing positions
      increasing. */
  lemma UnshiftOrdered(idx: seq<nat>)
    requires forall k :: 0 <= k < |idx| ==> idx[k] > 0
    requires forall k, l :: 0 <= k < l < |idx| ==> idx[k] < idx[l]
    ensures var t := Unshift(idx); forall k, l :: 0 <= k < l < |t| ==> t[k] < t[l]
  {
  }

  /** An accepted head is the first position picked. */
  lemma PicksHeadFirst<A, B>(xs: seq<A>, f: A -> Option<B>, idx: seq<nat>, r: seq<B>)
    requires |xs| > 0 && f(xs[0]).Some? && Picks(xs, f, idx, r)
    ensures |idx| > 0 && idx[0] == 0 && forall k :: 1 <= k < |idx| ==> idx[k] > 0
  {
    var k0 :| 0 <= k0 < |idx| && idx[k0] == 0;
    forall k | 1 <= k < |idx|
      ensures idx[k] > 0
    {
      assert idx[0] < idx[k];
    }
  }

  /** Dropping a picked head: the rest of the positions, one back, pick
      the rest of the values. */
  lemma PicksDropKeptValues<A, B>(xs: seq<A>, f: A -> Option<B>, idx: seq<nat>, r: seq<B>)
    requires |xs| > 0 && Picks(xs, f, idx, r)
    requires |idx| > 0 && forall k :: 1 <= k < |idx| ==> idx[k] > 0
    ensures var t := Unshift(idx[1..]);
      forall k :: 0 <= k < |t| ==> t[k] < |xs[1..]| && f(xs[1..][t[k]]) == Some(r[1..][k])
  {
    var t := Unshift(idx[1..]);
    forall k | 0 <= k < |t|
      ensures t[k] < |xs[1..]| && f(xs[1..][t[k]]) == Some(r[1..][k])
    {
      assert t[k] == idx[k + 1] - 1;
      assert xs[1..][t[k]] == xs[idx[k + 1]];
    }
  }

  /** Dropping a picked head: every accepted later position is still
      picked. */
  lemma PicksDropKeptCovers<A, B>(xs: seq<A>, f: A -> Option<B>, idx: seq<nat>, r: seq<B>)
    requires |xs| > 0 && Picks(xs, f, idx, r)
    requires |idx| > 0 && idx[0] == 0
    ensures var t := Unshift(idx[1..]);
      forall i :: 0 <= i < |xs[1..]| && f(xs[1..][i]).Some? ==> exists k :: 0 <= k < |t| && t[k] == i
  {
    var t := Unshift(idx[1..]);
    forall i | 0 <= i < |xs[1..]| && f(xs[1..][i]).Some?
      ensures exists k :: 0 <= k < |t| && t[k] == i
    {
      assert xs[i + 1] == xs[1..][i];
      var k :| 0 <= k < |idx| && idx[k] == i + 1;
      assert t[k - 1] == i;
    }
  }

  /** Dropping an accepted head: its value comes first, and the rest is
      picked from the rest. */
  lemma PicksDropKept<A, B>(xs: seq<A>, f: A -> Option<B>, idx: seq<nat>, r: seq<B>)
    requires |xs| > 0 && f(xs[0]).Some? && Picks(xs, f, idx, r)
    ensures |r| > 0 && r[0] == f(xs[0]).value && Picks(xs[1..], f, Unshift(idx[1..]), r[1..])
  {
    PicksHeadFirst(xs, f, idx, r);
    PicksDropKeptValues(xs, f, idx, r);
    PicksDropKeptCovers(xs, f, idx, r);
    UnshiftOrdered(idx[1..]);
  }

  /** A rejected head is never picked. */
  lemma PicksSkipsHead<A, B>(xs: seq<A>, f: A -> Option<B>, idx: seq<nat>, r: seq<B>)
    requires |xs| > 0 && f(xs[0]).None? && Picks(xs, f, idx, r)
    ensures forall k :: 0 <= k < |idx| ==> idx[k] > 0
  {
  }

  /** Dropping a rejected head: the positions, one back, pick the same
      values from the rest. */
  lemma PicksDropSkippedValues<A, B>(xs: seq<A>, f: A -> Option<B>, idx: seq<nat>, r: seq<B>)
    requires |xs| > 0 && Picks(xs, f, idx, r)
    requires forall k :: 0 <= k < |idx| ==> idx[k] > 0
    ensures var t := Unshift(idx);
      forall k :: 0 <= k < |t| ==> t[k] < |xs[1..]| && f(xs[1..][t[k]]) == Some(r[k])
  {
    var t := Unshift(idx);
    forall k | 0 <= k < |t|
      ensures t[k] < |xs[1..]| && f(xs[1..][t[k]]) == Some(r[k])
    {
      assert xs[1..][t[k]] == xs[idx[k]];
    }
  }

  /** Dropping a rejected head: every accepted later position is still
      picked. */
  lemma PicksDropSkippedCovers<A, B>(xs: seq<A>, f: A -> Option<B>, idx: seq<nat>, r: seq<B>)
    requires |xs| > 0 && Picks(xs, f, idx, r)
    ensures var t := Unshift(idx);
      forall i :: 0 <= i < |xs[1..]| && f(xs[1..][i]).Some? ==> exists k :: 0 <= k < |t| && t[k] == i
  {
    var t := Unshift(idx);
    forall i | 0 <= i < |xs[1..]| && f(xs[1..][i]).Some?
      ensures exists k :: 0 <= k < |t| && t[k] == i
    {
      assert xs[i + 1] == xs[1..][i];
      var k :| 0 <= k < |idx| && idx[k] == i + 1;
      assert t[k] == i;
    }
  }

  /** Dropping a rejected head: the same values are picked from the rest. */
  lemma PicksDropSkipped<A, B>(xs: seq<A>, f: A -> Option<B>, idx: seq<nat>, r: seq<B>)
    requires |xs| > 0 && f(xs[0]).None? && Picks(xs, f, idx, r)
    ensures Picks(xs[1..], f, Unshift(idx), r)
  {
    PicksSkipsHead(xs, f, idx, r);
    PicksDropSkippedValues(xs, f, idx, r);
    PicksDropSkippedCovers(xs, f, idx, r);
    UnshiftOrdered(idx);
  }

  /** FilterMap keeps every accepted element, once, in order. */
  lemma {:induction false} FilterMapPicks<A, B>(xs: seq<A>, f: A -> Option<B>) returns (idx: seq<nat>)
    ensures Picks(xs, f, idx, FilterMap(xs, f))
    decreases |xs|
  {
    if |xs| == 0 {
      idx := [];
    } else {
      var tail := FilterMapPicks(xs[1..], f);
      if f(xs[0]).Some? {
        PicksKeep(xs, f, tail, FilterMap(xs[1..], f));
        idx := [0] + Shift(tail);
      } else {
        PicksSkip(xs, f, tail, FilterMap(xs[1..], f));
        idx := Shift(tail);
      }
    }
  }

  /** FilterMap on an accepted head: its value, then the rest's. */
  lemma FilterMapKeep<A, B>(xs: seq<A>, f: A -> Option<B>, r: seq<B>)
    requires |xs| > 0 && f(xs[0]).Some? && |r| > 0
    requires r[0] == f(xs[0]).value && r[1..] == FilterMap(xs[1..], f)
    ensures r == FilterMap(xs, f)
  {
    assert r == [r[0]] + r[1..];
  }

  /** Keeping every accepted element once, in order, determines the
      result: any list so picked is FilterMap's. */
  lemma {:induction false} PicksDetermine<A, B>(xs: seq<A>, f: A -> Option<B>, idx: seq<nat>, r: seq<B>)
    requires Picks(xs, f, idx, r)
    ensures r == FilterMap(xs, f)
    decreases |xs|
  {
    if |xs| == 0 {
    } else if f(xs[0]).Some? {
      PicksDropKept(xs, f, idx, r);
      PicksDetermine(xs[1..], f, Unshift(idx[1..]), r[1..]);
      FilterMapKeep(xs, f, r);
    } else {
      PicksDropSkipped(xs, f, idx, r);
      PicksDetermine(xs[1..], f, Unshift(idx), r);
    }
  }
}

/** Filtering and mapping a sequence in one pass, the shape of a Python list
    comprehension `[f(x) for x in s if keep(x)]` and of a loop that appends
    `f(x)` for each kept `x`. */
module Seqs {

  function FilterMap<T, U>(s: seq<T>, keep: T -> bool, f: T -> U): (r: seq<U>)
    ensures |r| <= |s|
  {
    if s == [] then []
    else (if keep(s[0]) then [f(s[0])] else []) + FilterMap(s[1..], keep, f)
  }

  /** `idx` lists, strictly increasing, the positions of `s` that are kept, all of
      them, and `r[k]` is the image of the element at `idx[k]`. */
  ghost predicate Selects<T, U>(s: seq<T>, keep: T -> bool, f: T -> U, r: seq<U>, idx: seq<nat>)
  {
    |idx| == |r| && Sound(s, keep, f, r, idx) && Increasing(idx) && Complete(s, keep, idx)
  }

  /** Each listed position is kept and its image is the matching result element. */
  ghost predicate Sound<T, U>(s: seq<T>, keep: T -> bool, f: T -> U, r: seq<U>, idx: seq<nat>)
  {
    forall k :: 0 <= k < |idx| ==> idx[k] < |s| && k < |r| && keep(s[idx[k]]) && r[k] == f(s[idx[k]])
  }

  ghost predicate Increasing(idx: seq<nat>)
  {
    forall k, l :: 0 <= k < l < |idx| ==> idx[k] < idx[l]
  }

  /** Every kept position is listed. */
  ghost predicate Complete<T>(s: seq<T>, keep: T -> bool, idx: seq<nat>)
  {
    forall i {:trigger keep(s[i])} :: 0 <= i < |s| && keep(s[i]) ==> exists k :: 0 <= k < |idx| && idx[k] == i
  }

  /** Adding one element at the end extends the result by that element's image, if it is kept. */
  lemma {:induction false} FilterMapSnoc<T, U>(s: seq<T>, x: T, keep: T -> bool, f: T -> U)
    ensures FilterMap(s + [x], keep, f) == FilterMap(s, keep, f) + (if keep(x) then [f(x)] else [])
  {
    if s == [] {
      assert [x][1..] == [];
    } else {
      assert (s + [x])[0] == s[0];
      assert (s + [x])[1..] == s[1..] + [x];
      FilterMapSnoc(s[1..], x, keep, f);
    }
  }

  /** The result holds, in order, exactly the images of the kept elements. */
  lemma {:induction false} FilterMapSelects<T, U>(s: seq<T>, keep: T -> bool, f: T -> U) returns (idx: seq<nat>)
    ensures Selects(s, keep, f, FilterMap(s, keep, f), idx)
  {
    if s == [] {
      idx := [];
    } else {
      var rest := FilterMapSelects(s[1..], keep, f);
      idx := SelectsCons(s, keep, f, FilterMap(s[1..], keep, f), rest);
    }
  }

  /** Every position moved one place to the right. */
  /** Every position moved one place on. */
  function Shift(xs: seq<nat>): seq<nat>
  {
    seq(|xs|, k requires 0 <= k < |xs| => xs[k] + 1)
  }

  /** One step of the induction above: from the positions for `s[1..]` to those for `s`. */
  lemma SelectsCons<T, U>(s: seq<T>, keep: T -> bool, f: T -> U, tail: seq<U>, rest: seq<nat>) returns (idx: seq<nat>)
    requires s != []
    requires Selects(s[1..], keep, f, tail, rest)
    ensures Selects(s, keep, f, (if keep(s[0]) then [f(s[0])] else []) + tail, idx)
  {
    ShiftSound(s, keep, f, tail, rest);
    ShiftComplete(s, keep, rest);
    ShiftPositive(rest);
    if keep(s[0]) {
      idx := [0] + Shift(rest);
      ConsKept(s, keep, f, tail, Shift(rest));
    } else {
      idx := Shift(rest);
      assert [] + tail == tail;
      forall i | 0 <= i < |s| && keep(s[i])
        ensures exists k :: 0 <= k < |idx| && idx[k] == i
      {
        assert i != 0;
      }
    }
  }

  lemma ConsKept<T, U>(s: seq<T>, keep: T -> bool, f: T -> U, tail: seq<U>, shifted: seq<nat>)
    requires s != [] && keep(s[0]) && |shifted| == |tail|
    requires Sound(s, keep, f, tail, shifted) && Increasing(shifted)
    requires forall k :: 0 <= k < |shifted| ==> shifted[k] > 0
    requires forall i :: 1 <= i < |s| && keep(s[i]) ==> exists k :: 0 <= k < |shifted| && shifted[k] == i
    ensures Selects(s, keep, f, [f(s[0])] + tail, [0] + shifted)
  {
    var idx, r := [0] + shifted, [f(s[0])] + tail;
    forall k | 0 <= k < |idx|
      ensures idx[k] < |s| && k < |r| && keep(s[idx[k]]) && r[k] == f(s[idx[k]])
    {
      if k > 0 { assert idx[k] == shifted[k - 1] && r[k] == tail[k - 1]; }
    }
    forall k, l | 0 <= k < l < |idx|
      ensures idx[k] < idx[l]
    {
      if k > 0 { assert idx[k] == shifted[k - 1]; }
      assert idx[l] == shifted[l - 1];
    }
    forall i | 0 <= i < |s| && keep(s[i])
      ensures exists k :: 0 <= k < |idx| && idx[k] == i
    {
      if i == 0 {
        assert idx[0] == 0;
      } else {
        var k :| 0 <= k < |shifted| && shifted[k] == i;
        assert idx[k + 1] == i;
      }
    }
  }

  lemma ShiftPositive(rest: seq<nat>)
    ensures Increasing(rest) ==> Increasing(Shift(rest))
    ensures forall k :: 0 <= k < |rest| ==> Shift(rest)[k] > 0
  {
  }

  lemma ShiftSound<T, U>(s: seq<T>, keep: T -> bool, f: T -> U, tail: seq<U>, rest: seq<nat>)
    requires s != []
    requires Sound(s[1..], keep, f, tail, rest)
    ensures Sound(s, keep, f, tail, Shift(rest))
  {
    var shifted := Shift(rest);
    forall k | 0 <= k < |shifted|
      ensures shifted[k] < |s| && k < |tail| && keep(s[shifted[k]]) && tail[k] == f(s[shifted[k]])
    {
      assert s[shifted[k]] == s[1..][rest[k]];
    }
  }

  lemma ShiftComplete<T>(s: seq<T>, keep: T -> bool, rest: seq<nat>)
    requires s != []
    requires Complete(s[1..], keep, rest)
    ensures forall i {:trigger keep(s[i])} :: 1 <= i < |s| && keep(s[i]) ==> exists k :: 0 <= k < |rest| && Shift(rest)[k] == i
  {
    forall i: nat | 1 <= i < |s| && keep(s[i]) {
      ShiftCompleteAt(s, keep, rest, i);
    }
  }

  lemma ShiftCompleteAt<T>(s: seq<T>, keep: T -> bool, rest: seq<nat>, i: nat)
    requires 1 <= i < |s| && keep(s[i])
    requires Complete(s[1..], keep, rest)
    ensures exists k :: 0 <= k < |rest| && Shift(rest)[k] == i
  {
    assert s[1..][i - 1] == s[i];
    var k :| 0 <= k < |rest| && rest[k] == i - 1;
    assert Shift(rest)[k] == i;
  }

  /** An element is in the result exactly when some kept element maps to it. */
  lemma {:induction false} FilterMapMember<T, U>(s: seq<T>, keep: T -> bool, f: T -> U, y: U)
    ensures y in FilterMap(s, keep, f) <==> exists x :: x in s && keep(x) && f(x) == y
  {
    if s != [] {
      FilterMapMember(s[1..], keep, f, y);
      assert forall x :: x in s <==> x == s[0] || x in s[1..];
    }
  }
}

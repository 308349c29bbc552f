/** The in-place enumeration algorithms of combinations.h. */
module Enumerations {
  import opened Slots
  import opened Arrangements
  import opened Functors
  import opened Rotations
  import opened Coverage
  import opened ForEach

  /** One run over the array `a`. The user's callback is bound to [lo, hi); it
      answers from the history of what it has seen, which covers every
      deterministic callback that leaves the array alone. */
  class Enumeration<T> {
    const a: array<T>
    const lo: nat
    const hi: nat
    const accepts: seq<seq<T>> -> bool
    var seen: seq<seq<T>>

    constructor (a: array<T>, lo: nat, hi: nat, accepts: seq<seq<T>> -> bool)
      requires lo <= hi <= a.Length
      ensures Valid() && seen == []
      ensures this.a == a && this.lo == lo && this.hi == hi && this.accepts == accepts
    {
      this.a, this.lo, this.hi, this.accepts := a, lo, hi, accepts;
      seen := [];
    }

    predicate Valid() {
      lo <= hi <= a.Length
    }

    /** `visits` was offered to the callback call by call from the history
        `before`; it ended with the history `after`, either because the callback
        accepted, with the array content `final`, or because all were shown. */
    ghost predicate Went(before: seq<seq<T>>, visits: seq<seq<T>>, stop: bool, after: seq<seq<T>>, final: seq<T>)
      requires Valid() && AllSized(visits, a.Length)
      decreases |visits|
    {
      if visits == [] then !stop && after == before
      else
        var now := before + [visits[0][lo..hi]];
        if accepts(now) then stop && after == now && final == visits[0]
        else Went(now, visits[1..], stop, after, final)
    }

    lemma WentThen(before: seq<seq<T>>, v: seq<seq<T>>, mid: seq<seq<T>>, w: seq<seq<T>>,
                   stop: bool, after: seq<seq<T>>, x: seq<T>, final: seq<T>)
      requires Valid() && AllSized(v, a.Length) && AllSized(w, a.Length)
      requires Went(before, v, false, mid, x) && Went(mid, w, stop, after, final)
      ensures Went(before, v + w, stop, after, final)
      decreases |v|
    {
      if v == [] {
        assert v + w == w;
      } else {
        WentThen(before + [v[0][lo..hi]], v[1..], mid, w, stop, after, x, final);
        assert (v + w)[1..] == v[1..] + w;
      }
    }

    lemma WentStop(before: seq<seq<T>>, v: seq<seq<T>>, w: seq<seq<T>>, after: seq<seq<T>>, final: seq<T>)
      requires Valid() && AllSized(v, a.Length) && AllSized(w, a.Length)
      requires Went(before, v, true, after, final)
      ensures Went(before, v + w, true, after, final)
      decreases |v|
    {
      var now := before + [v[0][lo..hi]];
      assert (v + w)[0] == v[0] && (v + w)[1..] == v[1..] + w;
      if accepts(now) {
      } else {
        WentStop(now, v[1..], w, after, final);
      }
    }

    method Swap(i: nat, j: nat)
      requires i < a.Length && j < a.Length
      modifies a
      ensures a[..] == Swapped(old(a[..]), i, j)
    {
      a[i], a[j] := a[j], a[i];
    }

    /** std::reverse. */
    method Reverse(l: nat, r: nat)
      requires l <= r <= a.Length
      modifies a
      ensures a[..] == One(l, r).Put(old(a[..]), Reversed(old(a[..])[l..r]))
    {
      var i, j := l, r;
      while i + 1 < j
        invariant l <= i <= r && l <= j <= r && i - l == r - j && i <= j
        invariant forall k {:trigger a[k]} :: 0 <= k < a.Length ==>
          a[k] == if l <= k < i || j <= k < r then old(a[l + r - 1 - k]) else old(a[k])
      {
        j := j - 1;
        Swap(i, j);
        i := i + 1;
      }
    }

    /** std::rotate. */
    method Rotate(l: nat, m: nat, r: nat)
      requires l <= m <= r <= a.Length
      modifies a
      ensures a[..] == Rotated(old(a[..]), l, m, r)
    {
      var s := a[..];
      forall k | l <= k < r {
        a[k] := if k < l + (r - m) then s[m + (k - l)] else s[k - (r - m)];
      }
      ghost var t := Rotated(s, l, m, r);
      assert forall k {:trigger a[k]} :: 0 <= k < a.Length ==> a[k] == t[k];
    }

    /** std::swap_ranges: exchanges [l1, l1 + n) with [l2, l2 + n). */
    method SwapRanges(l1: nat, l2: nat, n: nat)
      requires l1 + n <= l2 && l2 + n <= a.Length
      modifies a
      ensures a[..] == Exchanged(old(a[..]), l1, l2, n)
    {
      var i := 0;
      while i < n
        invariant i <= n
        invariant forall k {:trigger a[k]} :: 0 <= k < a.Length ==>
          a[k] == (if l1 <= k < l1 + i then old(a[l2 + (k - l1)])
                   else if l2 <= k < l2 + i then old(a[l1 + (k - l2)])
                   else old(a[k]))
      {
        Swap(l1 + i, l2 + i);
        i := i + 1;
      }
    }

    /** The exchange loop of rotate_discontinuous for d1 > d2: swaps [l2, r2) with
        the d2 elements before r1, from the back. */
    method SwapTail(r1: nat, l2: nat, r2: nat, ghost d2: nat) returns (i1: nat)
      requires r2 - l2 == d2 <= r1 <= l2 <= r2 <= a.Length
      modifies a
      ensures i1 == r1 - d2
      ensures a[..] == Exchanged(old(a[..]), i1, l2, d2)
    {
      var last2 := r2;
      i1 := r1;
      while l2 != last2
        invariant l2 <= last2 <= r2 && r1 - i1 == r2 - last2
        invariant forall k {:trigger a[k]} :: 0 <= k < a.Length ==>
          a[k] == (if i1 <= k < r1 then old(a[r2 - (r1 - k)])
                   else if last2 <= k < r2 then old(a[r1 - (r2 - k)])
                   else old(a[k]))
      {
        i1, last2 := i1 - 1, last2 - 1;
        Swap(i1, last2);
      }
    }

    method RotateDiscontinuous(l1: nat, r1: nat, l2: nat, r2: nat)
      requires l1 <= r1 <= l2 <= r2 <= a.Length
      modifies a
      ensures a[..] == Joined(old(a[..]), l1, r1, l2, r2)
    {
      var d1, d2 := r1 - l1, r2 - l2;
      ghost var s := a[..];
      if d1 <= d2 {
        SwapRanges(l1, l2, d1);
        ghost var t := a[..];
        var i2 := l2 + d1;
        Rotate(l2, i2, r2);
        RotateShort(l1, r1, d1, l2, i2, r2, s, t, a[..]);
      } else {
        var i1 := SwapTail(r1, l2, r2, d2);
        ghost var t := a[..];
        Rotate(l1, i1, r1);
        RotateLong(l1, i1, r1, d2, l2, r2, s, t, a[..]);
      }
    }

    method RotateDiscontinuous3(R: Ranges)
      requires R.Fits(a.Length)
      modifies a
      ensures a[..] == Turned(old(a[..]), R)
    {
      var d1, d2 := R.r1 - R.l1, R.r2 - R.l2;
      ghost var s := a[..];
      RotateDiscontinuous(R.l1, R.r1, R.l2, R.r2);
      if d1 <= d2 {
        var i2 := R.l2 + (d2 - d1);
        RotateDiscontinuous(i2, R.r2, R.l3, R.r3);
        Rotate3Short(R, i2, s);
      } else {
        var i1 := R.l1 + d2;
        RotateDiscontinuous(i1, R.r1, R.l3, R.r3);
        RotateDiscontinuous(R.l2, R.r2, R.l3, R.r3);
        Rotate3Long(R, i1, s);
      }
    }

    /** `done` has been shown without being accepted, `rest` is still to come. */
    ghost predicate Shown(before: seq<seq<T>>, done: seq<seq<T>>, rest: seq<seq<T>>, all: seq<seq<T>>, now: seq<seq<T>>)
      requires Valid()
    {
      && AllSized(done, a.Length) && AllSized(rest, a.Length)
      && Went(before, done, false, now, [])
      && done + rest == all
    }

    lemma ShownStart(before: seq<seq<T>>, all: seq<seq<T>>)
      requires Valid() && AllSized(all, a.Length)
      ensures Shown(before, [], all, all, before)
    {
      assert [] + all == all;
    }

    lemma ShownStep(before: seq<seq<T>>, done: seq<seq<T>>, block: seq<seq<T>>, rest: seq<seq<T>>, all: seq<seq<T>>,
                    now: seq<seq<T>>, stop: bool, after: seq<seq<T>>, final: seq<T>)
      requires Valid() && AllSized(block, a.Length) && AllSized(rest, a.Length)
      requires Shown(before, done, block + rest, all, now) && Went(now, block, stop, after, final)
      ensures AllSized(all, a.Length)
      ensures stop ==> Went(before, all, true, after, final)
      ensures !stop ==> Shown(before, done + block, rest, all, after)
    {
      WentThen(before, done, now, block, stop, after, [], final);
      assert done + block + rest == done + (block + rest);
      if stop {
        WentStop(before, done + block, rest, after, final);
      } else {
        WentFinal(before, done + block, after, final, []);
      }
    }

    lemma ShownAll(before: seq<seq<T>>, done: seq<seq<T>>, all: seq<seq<T>>, now: seq<seq<T>>, final: seq<T>)
      requires Valid() && Shown(before, done, [], all, now)
      ensures AllSized(all, a.Length) && Went(before, all, false, now, final)
    {
      assert done + [] == done;
      WentFinal(before, done, now, [], final);
    }

    lemma WentFinal(before: seq<seq<T>>, v: seq<seq<T>>, after: seq<seq<T>>, x: seq<T>, y: seq<T>)
      requires Valid() && AllSized(v, a.Length)
      requires Went(before, v, false, after, x)
      ensures Went(before, v, false, after, y)
      decreases |v|
    {
      if v == [] {
      } else {
        WentFinal(before + [v[0][lo..hi]], v[1..], after, x, y);
      }
    }

    /** One round of the loops of combine_discontinuous: shows all combinations
        with the j-th element in front, then swaps the next element to the front. */
    method ShowHeaded(i2: nat, last: nat, f: Functor, d: nat, R: Ranges,
                      ghost s: seq<T>, ghost e: seq<T>, ghost j: nat) returns (stop: bool)
      requires Valid() && f.Fits(a.Length) && R.Fits(a.Length) && |s| == a.Length && |e| == R.Size()
      requires R.l1 < R.r1 && j + (R.r1 - R.l1) < |e|
      requires i2 < last && R.Rest(j) == Two(R.l1 + 1, R.r1, i2, last) && R.At(R.r1 - R.l1 + j) == i2
      requires a[..] == R.Put(s, Current(e, R.r1 - R.l1, j))
      modifies a, this`seen
      ensures var k := R.r1 - R.l1;
        && Went(old(seen), VisitsOver(f, R, s, Headed(e, k, j, Combos(e[j + 1..], k - 1))), stop, seen, a[..])
        && (!stop ==> a[..] == R.Put(s, Current(e, k, j + 1)))
      decreases f.Rank(), 1, R.r1 - R.l1, 0
    {
      hide Functor.Fits, Functor.Rank, AllSized, Went, VisitsOver, VisitsAll, Visits, Headed, Current, Passed, Combos,
           Ranges.Put, Ranges.Get;
      var d1 := R.r1 - R.l1;
      ghost var u := e[j + 1..];
      ghost var xs := Combos(u, d1 - 1);
      ghost var q := if d1 == 1 then u else Passed(u, d1 - 1);
      if d1 == 1 {
        stop := Call(f);
        HeadedSingle(e, j);
        SingleHeaded(f, R, s, e, j);
      } else {
        RestGet(R, s, Current(e, d1, j), j);
        CurrentParts(e, d1, j);
        VisitsOverRest(f, R, s, e, j, xs);
        RestHeaded(R, s, e, j, q);
        ghost var Q, t := R.Rest(j), a[..];
        assert Q.Get(t) == u && Q.r1 - Q.l1 == d1 - 1;
        stop := CombineDiscontinuous(R.l1 + 1, R.r1, i2, last, f, d + 1);
        assert Went(old(seen), VisitsOver(f, Q, t, xs), stop, seen, a[..]);
      }
      if !stop {
        WentFinal(old(seen), VisitsOver(f, R, s, Headed(e, d1, j, xs)), seen, a[..], R.Put(s, Current(e, d1, j + 1)));
        NextHead(R, i2, s, e, j);
      }
    }

    /** Swaps two array positions known by their places in the joined content. */
    method SwapSlots(p: nat, q: nat, ghost R: Ranges, ghost s: seq<T>, ghost c: seq<T>, ghost i: nat, ghost j: nat)
      requires R.Fits(a.Length) && |s| == a.Length && |c| == R.Size() && i < |c| && j < |c|
      requires R.At(i) == p && R.At(j) == q && a[..] == R.Put(s, c)
      modifies a
      ensures a[..] == R.Put(s, Swapped(c, i, j))
    {
      hide Ranges.Put, Ranges.At;
      Swap(p, q);
      PutSwap(R, s, c, i, j);
    }

    /** The swap that ends a round: the next element comes to the front. */
    method NextHead(R: Ranges, i2: nat, ghost s: seq<T>, ghost e: seq<T>, ghost j: nat)
      requires R.Fits(a.Length) && |s| == a.Length && |e| == R.Size()
      requires R.l1 < R.r1 && j + (R.r1 - R.l1) < |e| && R.At(R.r1 - R.l1 + j) == i2
      requires var k := R.r1 - R.l1;
               var q := if k == 1 then e[j + 1..] else Passed(e[j + 1..], k - 1);
               a[..] == R.Put(s, [e[j]] + q[..k - 1] + e[..j] + q[k - 1..])
      modifies a
      ensures a[..] == R.Put(s, Current(e, R.r1 - R.l1, j + 1))
    {
      hide Current, Passed, Ranges.Put;
      ghost var k := R.r1 - R.l1;
      ghost var q := if k == 1 then e[j + 1..] else Passed(e[j + 1..], k - 1);
      ghost var c := [e[j]] + q[..k - 1] + e[..j] + q[k - 1..];
      SwapSlots(R.l1, i2, R, s, c, 0, k + j);
      CurrentStep(e, k, j);
    }

    /** combine_discontinuous; d is the recursion depth. */
    method CombineDiscontinuous(l1: nat, r1: nat, l2: nat, r2: nat, f: Functor, d: nat) returns (stop: bool)
      requires Valid() && f.Fits(a.Length) && l1 <= r1 <= l2 <= r2 <= a.Length
      requires d != 0 ==> l1 < r1 && l2 < r2
      modifies a, this`seen
      ensures var R := Two(l1, r1, l2, r2); var e := R.Get(old(a[..]));
        && Went(old(seen), VisitsOver(f, R, old(a[..]), Combos(e, r1 - l1)), stop, seen, a[..])
        && (!stop ==> a[..] == R.Put(old(a[..]), if d == 0 then e else Passed(e, r1 - l1)))
      decreases f.Rank(), 1, r1 - l1, 2
    {
      hide Functor.Fits, Functor.Rank, AllSized, Went, Shown, VisitsOver, VisitsAll, Visits, Headed, Current, Passed,
           Combos, CombosFrom, Ranges.Put, Joined;
      var d1, d2 := r1 - l1, r2 - l2;
      var R := Two(l1, r1, l2, r2);
      ghost var s, before := a[..], seen;
      ghost var e := R.Get(s);
      ghost var all := VisitsOver(f, R, s, Combos(e, d1));
      PutGet(R, s);
      if d1 == 0 || d2 == 0 {
        stop := Call(f);
        CombosTrivial(e, d1);
        VisitsOverOne(f, R, s, e);
        return;
      }
      var i2 := l2;
      ghost var done: seq<seq<T>> := [];
      CombosFirst(e, d1);
      CurrentStart(e, d1);
      assert Shown(before, done, all, all, seen) by { ShownStart(before, all); }
      while i2 != r2
        invariant l2 <= i2 <= r2
        invariant a[..] == R.Put(s, Current(e, d1, i2 - l2))
        invariant Shown(before, done, VisitsOver(f, R, s, CombosFrom(e, d1, i2 - l2)), all, seen)
      {
        ghost var j: nat := i2 - l2;
        stop, done := CombineRound(i2, r2, f, d, R, s, e, j, before, done, all);
        if stop {
          return;
        }
        i2 := i2 + 1;
      }
      ghost var now := seen;
      stop := Call(f);
      done := LastShown(f, R, s, e, before, done, all, now, stop, seen, a[..]);
      if stop {
        return;
      }
      ghost var t := a[..];
      if d != 0 {
        RotateDiscontinuous(l1, r1, l2 + 1, r2);
        RotatePassed(R, s, e, t);
      } else {
        RotateDiscontinuous(l1, r1, l2, r2);
        RotateBack(R, s, e, t);
      }
      ShownAll(before, done, all, seen, a[..]);
    }

    /** The call after the loop, with the last elements in front. */
    lemma LastShown(f: Functor, R: Ranges, s: seq<T>, e: seq<T>, before: seq<seq<T>>, done: seq<seq<T>>,
                    all: seq<seq<T>>, now: seq<seq<T>>, stop: bool, after: seq<seq<T>>, final: seq<T>)
      returns (more: seq<seq<T>>)
      requires Valid() && f.Fits(a.Length) && R.Fits(a.Length) && |s| == a.Length && |e| == R.Size()
      requires R.l1 < R.r1 && R == Two(R.l1, R.r1, R.l2, R.r2)
      requires var k, m := R.r1 - R.l1, R.r2 - R.l2;
        && Shown(before, done, VisitsOver(f, R, s, CombosFrom(e, k, m)), all, now)
        && Went(now, Visits(f, R.Put(s, Current(e, k, m))), stop, after, final)
      ensures AllSized(all, a.Length)
      ensures stop ==> Went(before, all, true, after, final)
      ensures !stop ==> Shown(before, more, [], all, after)
    {
      hide Functor.Fits, AllSized, Went, Shown, VisitsOver, Visits, Current, CombosFrom, Ranges.Put;
      var k, m := R.r1 - R.l1, R.r2 - R.l2;
      var c := Current(e, k, m);
      var block := Visits(f, R.Put(s, c));
      CombosLast(e, k, m);
      VisitsOverOne(f, R, s, c);
      assert block + [] == block;
      ShownStep(before, done, block, [], all, now, stop, after, final);
      more := done + block;
    }

    /** One round of the loop of combine_discontinuous, as part of the whole. */
    method CombineRound(i2: nat, last: nat, f: Functor, d: nat, R: Ranges, ghost s: seq<T>, ghost e: seq<T>,
                        ghost j: nat, ghost before: seq<seq<T>>, ghost done: seq<seq<T>>, ghost all: seq<seq<T>>)
      returns (stop: bool, ghost more: seq<seq<T>>)
      requires Valid() && f.Fits(a.Length) && R.Fits(a.Length) && |s| == a.Length && |e| == R.Size()
      requires R.l1 < R.r1 && j + (R.r1 - R.l1) < |e|
      requires i2 < last && R.Rest(j) == Two(R.l1 + 1, R.r1, i2, last) && R.At(R.r1 - R.l1 + j) == i2
      requires a[..] == R.Put(s, Current(e, R.r1 - R.l1, j))
      requires Shown(before, done, VisitsOver(f, R, s, CombosFrom(e, R.r1 - R.l1, j)), all, seen)
      modifies a, this`seen
      ensures AllSized(all, a.Length)
      ensures stop ==> Went(before, all, true, seen, a[..])
      ensures !stop ==> a[..] == R.Put(s, Current(e, R.r1 - R.l1, j + 1))
      ensures !stop ==> Shown(before, more, VisitsOver(f, R, s, CombosFrom(e, R.r1 - R.l1, j + 1)), all, seen)
      decreases f.Rank(), 1, R.r1 - R.l1, 1
    {
      hide Functor.Fits, Functor.Rank, AllSized, Went, Shown, VisitsOver, VisitsAll, Visits, Headed, Current, Passed,
           Combos, CombosFrom, Ranges.Put, Ranges.At, Ranges.Rest;
      ghost var k := R.r1 - R.l1;
      ghost var now := seen;
      ghost var xs := Headed(e, k, j, Combos(e[j + 1..], k - 1));
      ghost var block := VisitsOver(f, R, s, xs);
      ghost var rest := VisitsOver(f, R, s, CombosFrom(e, k, j + 1));
      CombosStep(e, k, j);
      VisitsOverConcat(f, R, s, xs, CombosFrom(e, k, j + 1));
      stop := ShowHeaded(i2, last, f, d, R, s, e, j);
      ShownStep(before, done, block, rest, all, now, stop, seen, a[..]);
      more := done + block;
    }

    /** A round of the first loop of combine_discontinuous3_. */
    method ShowHeaded3(R: Ranges, i2: nat, f: Functor, d: nat,
                       ghost s: seq<T>, ghost e: seq<T>, ghost j: nat) returns (stop: bool)
      requires Valid() && f.Fits(a.Length) && R.Fits(a.Length) && Proper3(R) && R.l1 + 2 <= R.r1
      requires |s| == a.Length && |e| == R.Size() && R.l2 <= i2 < R.r2 && j == i2 - R.l2
      requires a[..] == R.Put(s, Current(e, R.r1 - R.l1, j))
      modifies a, this`seen
      ensures var k, m := R.r1 - R.l1, R.r2 - R.l2;
        && Went(old(seen), VisitsOver(f, R, s, Headed(e, k, j, Combos3(e[j + 1..], k - 1, m - j))), stop, seen, a[..])
        && (!stop ==> a[..] == R.Put(s, Current(e, k, j + 1)))
      decreases f.Rank(), 1, R.r1 - R.l1, 2
    {
      hide Functor.Fits, Functor.Rank, AllSized, Went, VisitsOver, VisitsAll, Visits, Headed, Current, Passed,
           Combos3, Ranges.Put, Ranges.Get;
      ghost var k, m := R.r1 - R.l1, R.r2 - R.l2;
      ghost var u := e[j + 1..];
      ghost var xs := Combos3(u, k - 1, m - j);
      var Q := R.(l1 := R.l1 + 1, l2 := i2);
      ghost var t := a[..];
      RestGet(R, s, Current(e, k, j), j);
      CurrentParts(e, k, j);
      VisitsOverRest(f, R, s, e, j, xs);
      RestHeaded(R, s, e, j, Passed(u, k - 1));
      assert R.Rest(j) == Q && Q.Get(t) == u && Q.r1 - Q.l1 == k - 1 && Q.r2 - Q.l2 == m - j;
      stop := CombineDiscontinuous3(Q, f, d + 1);
      assert Went(old(seen), VisitsOver(f, Q, t, xs), stop, seen, a[..]);
      if !stop {
        WentFinal(old(seen), VisitsOver(f, R, s, Headed(e, k, j, xs)), seen, a[..], R.Put(s, Current(e, k, j + 1)));
        NextHead(R, i2, s, e, j);
      }
    }

    /** One call of the functor, for the j-th of the joined contents `cs`. */
    method ShowNth(f: Functor, ghost R: Ranges, ghost s: seq<T>, ghost cs: seq<seq<T>>, ghost j: nat,
                   ghost before: seq<seq<T>>, ghost done: seq<seq<T>>, ghost all: seq<seq<T>>)
      returns (stop: bool, ghost more: seq<seq<T>>)
      requires Valid() && f.Fits(a.Length) && R.Fits(a.Length) && |s| == a.Length
      requires AllSized(cs, R.Size()) && j < |cs| && a[..] == R.Put(s, cs[j])
      requires Shown(before, done, VisitsOver(f, R, s, cs[j..]), all, seen)
      modifies a, this`seen
      ensures AllSized(all, a.Length)
      ensures stop ==> Went(before, all, true, seen, a[..])
      ensures !stop ==> a[..] == old(a[..])
      ensures !stop ==> Shown(before, more, VisitsOver(f, R, s, cs[j + 1..]), all, seen)
      decreases f.Rank(), 1, 0, 0
    {
      hide Functor.Fits, Functor.Rank, Went, Shown, VisitsOver, VisitsAll, Visits, Ranges.Put;
      ghost var t, now := a[..], seen;
      VisitsOverNext(f, R, s, cs, j);
      stop := Call(f);
      more := done + Visits(f, t);
      ShownStep(before, done, Visits(f, t), VisitsOver(f, R, s, cs[j + 1..]), all, now, stop, seen, a[..]);
    }

    /** combine_discontinuous3_ for d1 == 1, up to the last call. */
    method Singles3(R: Ranges, f: Functor, ghost s: seq<T>, ghost e: seq<T>,
                    ghost before: seq<seq<T>>, ghost all: seq<seq<T>>) returns (stop: bool, ghost done: seq<seq<T>>)
      requires Valid() && f.Fits(a.Length) && R.Fits(a.Length) && Proper3(R) && R.l1 + 1 == R.r1
      requires a[..] == s && e == R.Get(s) && seen == before
      requires all == VisitsOver(f, R, s, Combos3(e, 1, R.r2 - R.l2))
      modifies a, this`seen
      ensures stop ==> Went(before, all, true, seen, a[..])
      ensures !stop ==> a[..] == R.Put(s, Single3(e, R.r2 - R.l2, |e| - 1))
      ensures !stop ==> Shown(before, done, Visits(f, a[..]), all, seen)
      decreases f.Rank(), 1, 0, 1
    {
      hide Functor.Fits, Functor.Rank, Went, Shown, VisitsOver, VisitsAll, Visits, Combos3, Ranges.Put, Ranges.Get,
           Single3, Swapped;
      ghost var m := R.r2 - R.l2;
      ghost var cs := Combos3(e, 1, m);
      SinglesListed(e, m);
      assert cs[0..] == cs;
      Single3Start(e, m);
      PutGet(R, s);
      ShownStart(before, all);
      done := [];
      var i2 := R.l2;
      while i2 != R.r2
        invariant R.l2 <= i2 <= R.r2
        invariant a[..] == R.Put(s, Single3(e, m, i2 - R.l2))
        invariant Shown(before, done, VisitsOver(f, R, s, cs[i2 - R.l2..]), all, seen)
      {
        ghost var j: nat := i2 - R.l2;
        ghost var c := Single3(e, m, j);
        assert cs[j] == c && a[..] == R.Put(s, c) && R.At(0) == R.l1 && R.At(j + 1) == i2;
        stop, done := ShowNth(f, R, s, cs, j, before, done, all);
        if stop {
          return;
        }
        SwapSlots(R.l1, i2, R, s, c, 0, j + 1);
        Single3Step(e, m, j);
        assert a[..] == R.Put(s, Single3(e, m, j + 1));
        i2 := i2 + 1;
      }
      assert cs[m] == Single3(e, m, m);
      stop, done := ShowNth(f, R, s, cs, m, before, done, all);
      if stop {
        return;
      }
      SwapSlots(R.l1, R.r2 - 1, R, s, Single3(e, m, m), 0, m);
      SwapSlots(R.l1, R.l3, R, s, Swapped(Single3(e, m, m), 0, m), 0, m + 1);
      Single3Jump(e, m);
      i2 := R.l3 + 1;
      while i2 != R.r3
        invariant R.l3 < i2 <= R.r3
        invariant a[..] == R.Put(s, Single3(e, m, m + (i2 - R.l3)))
        invariant Shown(before, done, VisitsOver(f, R, s, cs[m + (i2 - R.l3)..]), all, seen)
      {
        ghost var j: nat := m + (i2 - R.l3);
        assert cs[j] == Single3(e, m, j);
        stop, done := ShowNth(f, R, s, cs, j, before, done, all);
        if stop {
          return;
        }
        SwapSlots(R.l1, i2, R, s, Single3(e, m, j), 0, j + 1);
        Single3Step(e, m, j);
        assert a[..] == R.Put(s, Single3(e, m, j + 1));
        i2 := i2 + 1;
      }
      stop := false;
      ghost var n := |e| - 1;
      assert cs[n..] == [cs[n]];
      VisitsOverOne(f, R, s, cs[n]);
    }

    /** combine_discontinuous3_ for d1 > 1, up to the last call. */
    method Heads3(R: Ranges, f: Functor, d: nat, ghost s: seq<T>, ghost e: seq<T>,
                  ghost before: seq<seq<T>>, ghost all: seq<seq<T>>) returns (stop: bool, ghost done: seq<seq<T>>)
      requires Valid() && f.Fits(a.Length) && R.Fits(a.Length) && Proper3(R) && R.l1 + 2 <= R.r1
      requires a[..] == s && e == R.Get(s) && seen == before
      requires all == VisitsOver(f, R, s, Combos3(e, R.r1 - R.l1, R.r2 - R.l2))
      modifies a, this`seen
      ensures stop ==> Went(before, all, true, seen, a[..])
      ensures !stop ==> a[..] == R.Put(s, Current(e, R.r1 - R.l1, |e| - (R.r1 - R.l1)))
      ensures !stop ==> Shown(before, done, Visits(f, a[..]), all, seen)
      decreases f.Rank(), 1, R.r1 - R.l1, 3
    {
      hide Functor.Fits, Functor.Rank, AllSized, Went, Shown, VisitsOver, VisitsAll, Visits, Combos, Combos3,
           CombosFrom, Combos3From, Current, Headed,
        Ranges.Put, Ranges.Get;
      ghost var k, m := R.r1 - R.l1, R.r2 - R.l2;
      PutGet(R, s);
      CurrentStart(e, k);
      Combos3Ends(e, k, m);
      ShownStart(before, all);
      done := [];
      var i2 := R.l2;
      while i2 != R.r2
        invariant R.l2 <= i2 <= R.r2
        invariant a[..] == R.Put(s, Current(e, k, i2 - R.l2))
        invariant Shown(before, done, VisitsOver(f, R, s, Combos3From(e, k, m, i2 - R.l2)), all, seen)
      {
        ghost var j: nat := i2 - R.l2;
        ghost var now := seen;
        ghost var xs := Headed(e, k, j, Combos3(e[j + 1..], k - 1, m - j));
        ghost var block := VisitsOver(f, R, s, xs);
        ghost var rest := VisitsOver(f, R, s, Combos3From(e, k, m, j + 1));
        assert VisitsOver(f, R, s, Combos3From(e, k, m, j)) == block + rest by {
          Combos3Step(e, k, m, j);
          VisitsOverConcat(f, R, s, xs, Combos3From(e, k, m, j + 1));
        }
        stop := ShowHeaded3(R, i2, f, d, s, e, j);
        ShownStep(before, done, block, rest, all, now, stop, seen, a[..]);
        if stop {
          return;
        }
        done := done + block;
        i2 := i2 + 1;
      }
      i2 := R.l3;
      while i2 != R.r3
        invariant R.l3 <= i2 <= R.r3
        invariant a[..] == R.Put(s, Current(e, k, m + (i2 - R.l3)))
        invariant Shown(before, done, VisitsOver(f, R, s, CombosFrom(e, k, m + (i2 - R.l3))), all, seen)
      {
        ghost var j: nat := m + (i2 - R.l3);
        ghost var now := seen;
        ghost var xs := Headed(e, k, j, Combos(e[j + 1..], k - 1));
        ghost var block := VisitsOver(f, R, s, xs);
        ghost var rest := VisitsOver(f, R, s, CombosFrom(e, k, j + 1));
        assert VisitsOver(f, R, s, CombosFrom(e, k, j)) == block + rest by {
          CombosStep(e, k, j);
          VisitsOverConcat(f, R, s, xs, CombosFrom(e, k, j + 1));
        }
        stop := ShowHeaded(i2, R.r3, f, d, R, s, e, j);
        ShownStep(before, done, block, rest, all, now, stop, seen, a[..]);
        if stop {
          return;
        }
        done := done + block;
        i2 := i2 + 1;
      }
      stop := false;
      ghost var n := |e| - k;
      CombosLast(e, k, n);
      VisitsOverOne(f, R, s, Current(e, k, n));
    }

    /** combine_discontinuous3_; d is the recursion depth. */
    method CombineDiscontinuous3(R: Ranges, f: Functor, d: nat) returns (stop: bool)
      requires Valid() && f.Fits(a.Length) && R.Fits(a.Length) && Proper3(R)
      modifies a, this`seen
      ensures var e := R.Get(old(a[..]));
        && Went(old(seen), VisitsOver(f, R, old(a[..]), Combos3(e, R.r1 - R.l1, R.r2 - R.l2)), stop, seen, a[..])
        && (!stop ==> a[..] == R.Put(old(a[..]), if d == 0 then e else Passed(e, R.r1 - R.l1)))
      decreases f.Rank(), 1, R.r1 - R.l1, 4
    {
      hide Functor.Fits, Functor.Rank, AllSized, Went, Shown, VisitsOver, VisitsAll, Visits, Combos3, Current, Passed,
           Ranges.Put, Ranges.Get, Single3, Turned,
        Joined, Swapped;
      var d1, d2 := R.r1 - R.l1, R.r2 - R.l2;
      ghost var s, before := a[..], seen;
      ghost var e := R.Get(s);
      ghost var all := VisitsOver(f, R, s, Combos3(e, d1, d2));
      ghost var done: seq<seq<T>>;
      if d1 == 1 {
        stop, done := Singles3(R, f, s, e, before, all);
      } else {
        stop, done := Heads3(R, f, d, s, e, before, all);
      }
      if stop {
        return;
      }
      ghost var t, now := a[..], seen;
      stop := Call(f);
      ghost var rest: seq<seq<T>> := [];
      assert Visits(f, t) + rest == Visits(f, t);
      ShownStep(before, done, Visits(f, t), rest, all, now, stop, seen, a[..]);
      if stop {
        return;
      }
      done := done + Visits(f, t);
      if d1 == 1 {
        SwapSlots(R.r2 - 1, R.l3, R, s, Single3(e, d2, |e| - 1), d2, d2 + 1);
        Single3Last(e, d2);
      }
      t := a[..];
      assert t == R.Put(s, Current(e, d1, |e| - d1));
      if d != 0 {
        if d2 > 1 {
          RotateDiscontinuous3(R.(l2 := R.l2 + 1));
        } else {
          RotateDiscontinuous(R.l1, R.r1, R.l3, R.r3);
          JoinedIsTurned(R.(l2 := R.l2 + 1), t);
        }
        TurnPassed(R, s, e, t);
      } else {
        RotateDiscontinuous3(R);
        TurnBack(R, s, e, t);
      }
      ShownAll(before, done, all, seen, a[..]);
    }

    /** The unrolled case of three elements; leaves them reversed. */
    method PermuteThree(l: nat, f: Functor, ghost e: seq<T>) returns (stop: bool)
      requires Valid() && f.Fits(a.Length) && l + 3 <= a.Length && e == One(l, l + 3).Get(a[..])
      modifies a, this`seen
      ensures Went(old(seen), VisitsOver(f, One(l, l + 3), old(a[..]), Perms(e)), stop, seen, a[..])
      ensures !stop ==> a[..] == One(l, l + 3).Put(old(a[..]), Reversed(e))
      decreases f.Rank(), 1, 0, 1
    {
      hide Functor.Fits, Functor.Rank, Went, Shown, VisitsOver, VisitsAll, Visits, Perms, Ranges.Put, Ranges.Get,
           Swapped;
      ghost var R, s, before := One(l, l + 3), a[..], seen;
      ghost var cs := Perms(e);
      ghost var x, y, z := e[0], e[1], e[2];
      assert e == [x, y, z];
      Perms3(x, y, z);
      ghost var all := VisitsOver(f, R, s, cs);
      ghost var done: seq<seq<T>> := [];
      var f2, f3 := l + 1, l + 2;
      PutGet(R, s);
      ShownStart(before, all);
      assert cs[0..] == cs;
      stop, done := ShowNth(f, R, s, cs, 0, before, done, all);
      if stop { return; }
      Swapped3(x, y, z);
      SwapSlots(f2, f3, R, s, [x, y, z], 1, 2);
      stop, done := ShowNth(f, R, s, cs, 1, before, done, all);
      if stop { return; }
      Swapped3(x, z, y);
      SwapSlots(l, f3, R, s, [x, z, y], 0, 2);
      Swapped3(y, z, x);
      SwapSlots(f2, f3, R, s, [y, z, x], 1, 2);
      stop, done := ShowNth(f, R, s, cs, 2, before, done, all);
      if stop { return; }
      Swapped3(y, x, z);
      SwapSlots(f2, f3, R, s, [y, x, z], 1, 2);
      stop, done := ShowNth(f, R, s, cs, 3, before, done, all);
      if stop { return; }
      Swapped3(y, z, x);
      SwapSlots(l, f2, R, s, [y, z, x], 0, 1);
      Swapped3(z, y, x);
      SwapSlots(f2, f3, R, s, [z, y, x], 1, 2);
      stop, done := ShowNth(f, R, s, cs, 4, before, done, all);
      if stop { return; }
      Swapped3(z, x, y);
      SwapSlots(f2, f3, R, s, [z, x, y], 1, 2);
      stop, done := ShowNth(f, R, s, cs, 5, before, done, all);
      if stop { return; }
      assert cs[6..] == [];
      VisitsOverNone(f, R, s);
      ShownAll(before, done, all, seen, a[..]);
      assert [z, y, x] == Reversed(e);
    }

    method PermuteTwo(l: nat, f: Functor, ghost e: seq<T>) returns (stop: bool)
      requires Valid() && f.Fits(a.Length) && l + 2 <= a.Length && e == One(l, l + 2).Get(a[..])
      modifies a, this`seen
      ensures Went(old(seen), VisitsOver(f, One(l, l + 2), old(a[..]), Perms(e)), stop, seen, a[..])
      ensures !stop ==> a[..] == One(l, l + 2).Put(old(a[..]), Reversed(e))
      decreases f.Rank(), 1, 0, 1
    {
      hide Functor.Fits, Functor.Rank, Went, Shown, VisitsOver, VisitsAll, Visits, Perms, Ranges.Put, Ranges.Get;
      ghost var R, s, before := One(l, l + 2), a[..], seen;
      ghost var cs := Perms(e);
      ghost var x, y := e[0], e[1];
      assert e == [x, y];
      Perms2(x, y);
      ghost var all := VisitsOver(f, R, s, cs);
      ghost var done: seq<seq<T>> := [];
      PutGet(R, s);
      ShownStart(before, all);
      assert cs[0..] == cs;
      stop, done := ShowNth(f, R, s, cs, 0, before, done, all);
      if stop { return; }
      assert Swapped([x, y], 0, 1) == [y, x];
      SwapSlots(l, l + 1, R, s, [x, y], 0, 1);
      stop, done := ShowNth(f, R, s, cs, 1, before, done, all);
      if stop { return; }
      assert cs[2..] == [];
      VisitsOverNone(f, R, s);
      ShownAll(before, done, all, seen, a[..]);
      assert [y, x] == Reversed(e);
    }

    /** One round of permute_: all permutations with the j-th element in front. */
    method PermuteHeaded(l: nat, r: nat, f: Functor, ghost s: seq<T>, ghost e: seq<T>, ghost j: nat)
      returns (stop: bool)
      requires Valid() && f.Fits(a.Length) && l + 2 <= r <= a.Length
      requires |s| == a.Length && |e| == r - l && j < |e| && a[..] == One(l, r).Put(s, Heading(e, j))
      modifies a, this`seen
      ensures Went(old(seen), VisitsOver(f, One(l, r), s, PermsHeaded(e, j)), stop, seen, a[..])
      ensures !stop ==> a[..] == One(l, r).Put(s, [e[j]] + Reversed(Without(e, j)))
      decreases f.Rank(), 1, r - l, 0
    {
      hide Functor.Fits, Functor.Rank, AllSized, Went, VisitsOver, VisitsAll, Visits, Perms, PermsHeaded, Ranges.Put,
           Ranges.Get, Heading, Reversed;
      ghost var t := a[..];
      OneRest(l, r, s, Heading(e, j), Reversed(Without(e, j)));
      VisitsOverHeading(f, l, r, s, e, j);
      stop := PermuteReversing(l + 1, r, f);
    }

    /** The same, as one block of a whole enumeration. */
    method PermuteRound(l: nat, r: nat, f: Functor, ghost s: seq<T>, ghost e: seq<T>, ghost j: nat,
                        ghost before: seq<seq<T>>, ghost done: seq<seq<T>>, ghost all: seq<seq<T>>)
      returns (stop: bool, ghost more: seq<seq<T>>)
      requires Valid() && f.Fits(a.Length) && l + 2 <= r <= a.Length
      requires |s| == a.Length && |e| == r - l && j < |e| && a[..] == One(l, r).Put(s, Heading(e, j))
      requires Shown(before, done, VisitsOver(f, One(l, r), s, PermsFrom(e, j)), all, seen)
      modifies a, this`seen
      ensures AllSized(all, a.Length)
      ensures stop ==> Went(before, all, true, seen, a[..])
      ensures !stop ==> a[..] == One(l, r).Put(s, [e[j]] + Reversed(Without(e, j)))
      ensures !stop ==> Shown(before, more, VisitsOver(f, One(l, r), s, PermsFrom(e, j + 1)), all, seen)
      decreases f.Rank(), 1, r - l, 1
    {
      hide Functor.Fits, Functor.Rank, AllSized, Went, Shown, VisitsOver, VisitsAll, Visits, Perms, PermsFrom,
           PermsHeaded, Ranges.Put, Heading, Reversed;
      ghost var R, now := One(l, r), seen;
      ghost var block := VisitsOver(f, R, s, PermsHeaded(e, j));
      ghost var rest := VisitsOver(f, R, s, PermsFrom(e, j + 1));
      VisitsOverHeadings(f, R, s, e, j);
      stop := PermuteHeaded(l, r, f, s, e, j);
      more := done + block;
      ShownStep(before, done, block, rest, all, now, stop, seen, a[..]);
    }

    /** The reversal and the swap between two rounds of permute_. */
    method NextHeading(l: nat, r: nat, p: nat, ghost s: seq<T>, ghost e: seq<T>, ghost j: nat)
      requires l + 2 <= r <= a.Length && |s| == a.Length && |e| == r - l && j + 1 < |e| && p == l + 1 + j
      requires a[..] == One(l, r).Put(s, [e[j]] + Reversed(Without(e, j)))
      modifies a
      ensures a[..] == One(l, r).Put(s, Heading(e, j + 1))
    {
      hide Ranges.Put, Reversed, Heading, Swapped;
      ghost var w := Without(e, j);
      ghost var c := [e[j]] + Reversed(w);
      OneGet(l + 1, r, a[..]);
      OneRest(l, r, s, c, w);
      Reverse(l + 1, r);
      ReversedTwice(w);
      assert c[1..] == Reversed(w) && [c[0]] + w == Heading(e, j) by { assert Heading(e, j) == [e[j]] + w; }
      SwapSlots(l, p, One(l, r), s, Heading(e, j), 0, j + 1);
      HeadingStep(e, j);
    }

    /** permute_: shows every permutation of [l, r) and leaves the range reversed. */
    method PermuteReversing(l: nat, r: nat, f: Functor) returns (stop: bool)
      requires Valid() && f.Fits(a.Length) && l <= r <= a.Length
      modifies a, this`seen
      ensures var e := One(l, r).Get(old(a[..]));
        && Went(old(seen), VisitsOver(f, One(l, r), old(a[..]), Perms(e)), stop, seen, a[..])
        && (!stop ==> a[..] == One(l, r).Put(old(a[..]), Reversed(e)))
      decreases f.Rank(), 1, r - l, 3
    {
      hide Functor.Fits, Functor.Rank, AllSized, Went, Shown, VisitsOver, VisitsAll, Visits, Perms, Ranges.Put,
           Ranges.Get, Reversed;
      var d1 := r - l;
      ghost var R, s := One(l, r), a[..];
      ghost var e := R.Get(s);
      PutGet(R, s);
      if d1 <= 1 {
        stop := Call(f);
        PermsTrivial(e);
        VisitsOverOne(f, R, s, e);
        return;
      }
      if d1 == 2 {
        stop := PermuteTwo(l, f, e);
        return;
      }
      if d1 == 3 {
        stop := PermuteThree(l, f, e);
        return;
      }
      stop := PermuteMany(l, r, f, e);
    }

    /** The general case of permute_. */
    method PermuteMany(l: nat, r: nat, f: Functor, ghost e: seq<T>) returns (stop: bool)
      requires Valid() && f.Fits(a.Length) && l + 4 <= r <= a.Length && e == One(l, r).Get(a[..])
      modifies a, this`seen
      ensures Went(old(seen), VisitsOver(f, One(l, r), old(a[..]), Perms(e)), stop, seen, a[..])
      ensures !stop ==> a[..] == One(l, r).Put(old(a[..]), Reversed(e))
      decreases f.Rank(), 1, r - l, 2
    {
      hide Functor.Fits, Functor.Rank, AllSized, Went, Shown, VisitsOver, VisitsAll, Visits, Perms, PermsFrom,
           PermsHeaded, Ranges.Put, Ranges.Get, Heading, Reversed;
      ghost var d1 := r - l;
      ghost var R, s, before := One(l, r), a[..], seen;
      PutGet(R, s);
      ghost var all := VisitsOver(f, R, s, Perms(e));
      ghost var done: seq<seq<T>> := [];
      PermsAreHeadings(e);
      ShownStart(before, all);
      HeadingEnds(e);
      ghost var j := 0;
      var p := l + 1;
      while p != r
        invariant p == l + 1 + j <= r
        invariant a[..] == R.Put(s, Heading(e, j))
        invariant Shown(before, done, VisitsOver(f, R, s, PermsFrom(e, j)), all, seen)
      {
        stop, done := PermuteRound(l, r, f, s, e, j, before, done, all);
        if stop {
          return;
        }
        NextHeading(l, r, p, s, e, j);
        p, j := p + 1, j + 1;
      }
      stop, done := PermuteRound(l, r, f, s, e, j, before, done, all);
      if stop {
        return;
      }
      RoundsOver(f, l, r, s, e, j + 1, before, done, all, seen, a[..]);
    }

    lemma RoundsOver(f: Functor, l: nat, r: nat, s: seq<T>, e: seq<T>, j: nat,
                     before: seq<seq<T>>, done: seq<seq<T>>, all: seq<seq<T>>, now: seq<seq<T>>, final: seq<T>)
      requires Valid() && f.Fits(|s|) && l <= r <= |s| && |e| == r - l == j && j > 0
      requires Shown(before, done, VisitsOver(f, One(l, r), s, PermsFrom(e, j)), all, now)
      ensures AllSized(all, a.Length) && Went(before, all, false, now, final)
    {
      VisitsOverNone(f, One(l, r), s);
      ShownAll(before, done, all, now, final);
    }

    /** permute: shows every permutation of [l, r) and restores the range. Its
        unrolled cases and its loop are those of permute_, followed by the undo. */
    method PermuteAll(l: nat, r: nat, f: Functor) returns (stop: bool)
      requires Valid() && f.Fits(a.Length) && l <= r <= a.Length
      modifies a, this`seen
      ensures var R := One(l, r);
        Went(old(seen), VisitsOver(f, R, old(a[..]), Perms(R.Get(old(a[..])))), stop, seen, a[..])
      ensures !stop ==> a[..] == old(a[..])
      decreases f.Rank(), 1, r - l, 4
    {
      hide Functor.Fits, Functor.Rank, AllSized, Went, VisitsOver, VisitsAll, Visits, Perms, Ranges.Put, Ranges.Get,
           Reversed, Swapped;
      ghost var R, s := One(l, r), a[..];
      ghost var e := R.Get(s);
      ghost var all := VisitsOver(f, R, s, Perms(e));
      PutGet(R, s);
      PermsTrivialOrNot(e);
      stop := PermuteReversing(l, r, f);
      if stop {
        return;
      }
      WentFinal(old(seen), all, seen, a[..], s);
      if r - l == 2 {
        SwapSlots(l, l + 1, R, s, Reversed(e), 0, 1);
      } else if r - l == 3 {
        SwapSlots(l, l + 2, R, s, Reversed(e), 0, 2);
      } else if r - l > 3 {
        GetPut(R, s, Reversed(e));
        PutPut(R, s, Reversed(e), e);
        ReversedTwice(e);
        assert R.Get(a[..]) == a[..][l..r] by { OneGet(l, r, a[..]); }
        Reverse(l, r);
      }
    }

    /** combine_discontinuous over two ranges with a rev2 over the same ranges. */
    method PermuteBoth(f: Functor, l1: nat, r1: nat, l2: nat, r2: nat) returns (stop: bool)
      requires Valid() && f.Fits(a.Length) && l1 <= r1 <= l2 <= r2 <= a.Length
      modifies a, this`seen
      ensures Went(old(seen), Visits(Pair(f, Two(l1, r1, l2, r2)), old(a[..])), stop, seen, a[..])
      ensures !stop ==> a[..] == old(a[..])
      decreases f.Rank() + 4, 0, 0, 0
    {
      hide Functor.Fits, Functor.Rank, AllSized, Went, VisitsAll, Combos, Ranges.Put, Ranges.Get;
      ghost var R, s := Two(l1, r1, l2, r2), a[..];
      var g := Rev2(f, l1, r1, l2, r2);
      assert Visits(Pair(f, R), s) == VisitsOver(g, R, s, Combos(R.Get(s), R.r1 - R.l1));
      PutGet(R, s);
      stop := CombineDiscontinuous(l1, r1, l2, r2, g, 0);
    }

    /** combine_discontinuous3 over three ranges with a rev3 over the same ranges. */
    method PermuteThrice(f: Functor, R: Ranges) returns (stop: bool)
      requires Valid() && f.Fits(a.Length) && R.Fits(a.Length) && Proper3(R)
      modifies a, this`seen
      ensures Went(old(seen), Visits3(f, old(a[..]), R), stop, seen, a[..])
      ensures !stop ==> a[..] == old(a[..])
      decreases f.Rank() + 5, 0, 0, 0
    {
      hide Functor.Fits, Functor.Rank, AllSized, Went, VisitsAll, Visits, Combos3, Ranges.Put, Ranges.Get;
      ghost var s := a[..];
      PutGet(R, s);
      stop := CombineDiscontinuous3(R, Inner3(f, R), 0);
    }

    /** The rounds of reversible_permutation that hold the first element at each
        place before the middle. */
    method HoldEach(l: nat, r: nat, f: Functor, ghost s: seq<T>, ghost tail: seq<seq<T>>,
                    ghost before: seq<seq<T>>, ghost start: seq<seq<T>>, ghost all: seq<seq<T>>)
      returns (stop: bool, ghost done: seq<seq<T>>)
      requires Valid() && f.Fits(a.Length) && l + 3 <= r <= a.Length && a[..] == s && AllSized(tail, a.Length)
      requires Shown(before, start, HeldFrom(f, s, l, r, 1) + tail, all, seen)
      modifies a, this`seen
      ensures stop ==> AllSized(all, a.Length) && Went(before, all, true, seen, a[..])
      ensures !stop ==> a[..] == Slide(s, l, (r - l) / 2 - 1) && Shown(before, done, tail, all, seen)
      decreases f.Rank() + 5, 1, 0, 0
    {
      hide Functor.Fits, Functor.Rank, Went, Shown, Visits, VisitsAll, HeldFrom, Slide, Swapped;
      var s2 := (r - l) / 2;
      var i := 1;
      done := start;
      stop := false;
      SlideStart(s, l);
      while i < s2
        invariant 1 <= i <= s2
        invariant a[..] == Slide(s, l, i - 1)
        invariant Shown(before, done, HeldFrom(f, s, l, r, i) + tail, all, seen)
      {
        ghost var block, rest := Held(f, s, l, r, i), HeldFrom(f, s, l, r, i + 1) + tail;
        assert HeldFrom(f, s, l, r, i) + tail == block + rest by {
          HeldFromStep(f, s, l, r, i);
        }
        Swap(l + i - 1, l + i);
        SlideStep(s, l, i - 1);
        ghost var now := seen;
        stop := PermuteBoth(f, l, l + i, l + i + 1, r);
        ShownStep(before, done, block, rest, all, now, stop, seen, a[..]);
        if stop {
          return;
        }
        done := done + block;
        i := i + 1;
      }
      HeldFromStep(f, s, l, r, i);
      assert HeldFrom(f, s, l, r, i) + tail == tail;
    }

    /** The odd case of reversible_permutation beyond length three: the first
        element is in the middle m, the next one is held at each place before it. */
    method HoldBothEach(l: nat, m: nat, r: nat, f: Functor, ghost mid: seq<T>) returns (stop: bool)
      requires Valid() && f.Fits(a.Length) && l + 2 <= m && m + 1 < r <= a.Length && a[..] == mid
      modifies a, this`seen
      ensures Went(old(seen), HeldBothFrom(f, mid, l, m, r, 0), stop, seen, a[..])
      ensures !stop ==> a[..] == Slide(mid, l, m - l - 1)
      decreases f.Rank() + 5, 1, 0, 0
    {
      hide Functor.Fits, Functor.Rank, AllSized, Went, Shown, Visits, VisitsAll, Visits3, HeldBothFrom, Slide, Swapped;
      ghost var all, before := HeldBothFrom(f, mid, l, m, r, 0), seen;
      ghost var done: seq<seq<T>> := [];
      ShownStart(before, all);
      SlideStart(mid, l);
      HeldBothFromStep(f, mid, l, m, r, 0);
      ghost var block, rest, now := HeldBoth(f, mid, l, m, r, 0), HeldBothFrom(f, mid, l, m, r, 1), seen;
      stop := PermuteBoth(f, l + 1, m, m + 1, r);
      ShownStep(before, done, block, rest, all, now, stop, seen, a[..]);
      if stop {
        return;
      }
      done := done + block;
      var i := 1;
      while i < m - l - 1
        invariant 1 <= i <= m - l - 1
        invariant a[..] == Slide(mid, l, i - 1)
        invariant Shown(before, done, HeldBothFrom(f, mid, l, m, r, i), all, seen)
      {
        HeldBothFromStep(f, mid, l, m, r, i);
        block, rest, now := HeldBoth(f, mid, l, m, r, i), HeldBothFrom(f, mid, l, m, r, i + 1), seen;
        Swap(l + i - 1, l + i);
        SlideStep(mid, l, i - 1);
        stop := PermuteThrice(f, Ranges(l, l + i, l + i + 1, m, m + 1, r));
        ShownStep(before, done, block, rest, all, now, stop, seen, a[..]);
        if stop {
          return;
        }
        done := done + block;
        i := i + 1;
      }
      HeldBothFromStep(f, mid, l, m, r, i);
      HeldBothFromStep(f, mid, l, m, r, i + 1);
      block, rest, now := HeldBoth(f, mid, l, m, r, i), HeldBothFrom(f, mid, l, m, r, i + 1), seen;
      Swap(l + i - 1, l + i);
      SlideStep(mid, l, i - 1);
      stop := PermuteBoth(f, l, m - 1, m + 1, r);
      ShownStep(before, done, block, rest, all, now, stop, seen, a[..]);
      if stop {
        return;
      }
      ShownAll(before, done + block, all, seen, a[..]);
    }

    /** reversible_permutation. */
    method ReversiblePermutation(l: nat, r: nat, f: Functor) returns (stop: bool)
      requires Valid() && f.Fits(a.Length) && l <= r <= a.Length
      modifies a, this`seen
      ensures Went(old(seen), ReversibleVisits(f, old(a[..]), l, r), stop, seen, a[..])
      ensures !stop ==> a[..] == old(a[..])
      decreases f.Rank() + 5, 3, 0, 0
    {
      hide Went, Shown, VisitsAll, HeldFrom, MiddleVisits, Slide, Swapped, Rotated;
      if r - l < 3 {
        stop := Call(f);
        return;
      }
      ghost var s, before := a[..], seen;
      ghost var all := ReversibleVisits(f, s, l, r);
      ghost var first, held, middle := PermuteVisits(f, s, l + 1, r), HeldFrom(f, s, l, r, 1), MiddleVisits(f, s, l, r);
      ghost var done: seq<seq<T>> := [];
      assert first + held + middle == first + (held + middle);
      ShownStart(before, all);
      stop := PermuteAll(l + 1, r, f);
      ShownStep(before, [], first, held + middle, all, before, stop, seen, a[..]);
      if stop {
        return;
      }
      stop, done := HoldEach(l, r, f, s, middle, before, [] + first, all);
      if stop {
        return;
      }
      ghost var now := seen;
      stop := HoldMiddle(l, r, f, s);
      assert middle + [] == middle;
      ShownStep(before, done, middle, [], all, now, stop, seen, a[..]);
      if !stop {
        ShownAll(before, done + middle, all, seen, a[..]);
      }
    }

    /** The last part of reversible_permutation, from the first element standing
        just before the middle: undo, for an odd length after the remaining rounds. */
    method HoldMiddle(l: nat, r: nat, f: Functor, ghost s: seq<T>) returns (stop: bool)
      requires Valid() && f.Fits(a.Length) && l + 3 <= r <= a.Length && |s| == a.Length
      requires a[..] == Slide(s, l, (r - l) / 2 - 1)
      modifies a, this`seen
      ensures Went(old(seen), MiddleVisits(f, s, l, r), stop, seen, a[..])
      ensures !stop ==> a[..] == s
      decreases f.Rank() + 5, 2, 0, 0
    {
      hide Functor.Fits, Functor.Rank, AllSized, Visits, VisitsAll, HeldBothFrom, Slide, Swapped, Rotated, Reversed,
        Ranges.Put, Ranges.Get;
      var s2 := (r - l) / 2;
      if 2 * s2 == r - l {
        Rotate(l, l + s2 - 1, l + s2);
        SlideUndo(s, l, s2 - 1);
        stop := false;
      } else if r - l == 3 {
        Swap(l, l + 1);
        SlideStep(s, l, 0);
        stop := Call(f);
        if !stop {
          WentFinal(old(seen), MiddleVisits(f, s, l, r), seen, a[..], s);
          Swap(l, l + 1);
          SlideBack(s, l);
        }
      } else {
        var m := l + s2;
        Swap(m - 1, m);
        SlideStep(s, l, s2 - 1);
        ghost var mid := Slide(s, l, s2);
        stop := HoldBothEach(l, m, r, f, mid);
        if !stop {
          WentFinal(old(seen), MiddleVisits(f, s, l, r), seen, a[..], s);
          ghost var t := a[..];
          Reverse(l, m - 1);
          ghost var u := a[..];
          Reverse(l, m + 1);
          SlideUndoTwice(s, l, m, t, u, a[..]);
        }
      }
    }

    lemma SlideBack(s: seq<T>, l: nat)
      requires l + 1 < |s|
      ensures Swapped(Slide(s, l, 1), l, l + 1) == s
    {}

    /** A call of a functor object. */
    method Call(f: Functor) returns (stop: bool)
      requires Valid() && f.Fits(a.Length)
      modifies a, this`seen
      ensures Went(old(seen), Visits(f, old(a[..])), stop, seen, a[..])
      ensures !stop ==> a[..] == old(a[..])
      decreases f.Rank(), 0, 0, 0
    {
      hide AllSized, VisitsAll, Combos, Perms, Ranges.Put, Ranges.Get, ReversibleVisits;
      match f
      case User =>
        seen := seen + [a[lo..hi]];
        stop := accepts(seen);
      case Permute(g, l, r) =>
        stop := PermuteAll(l, r, g);
      case Combine(g, R) =>
        PutGet(R, a[..]);
        stop := CombineDiscontinuous(R.l1, R.r1, R.l2, R.r2, g, 0);
      case Circular(g, l, r) =>
        if r - l <= 1 {
          stop := Call(g);
        } else {
          stop := PermuteAll(l + 1, r, g);
        }
      case Reversible(g, l, r) =>
        stop := ReversiblePermutation(l, r, g);
      case ReversibleCircular(g, l, r) =>
        // For an empty range, the functor for the rest has size -1 and calls back at once.
        if r - l <= 1 {
          stop := Call(g);
        } else {
          stop := ReversiblePermutation(l + 1, r, g);
        }
    }

    /** The callback was offered `views` one after another: it saw a prefix of them
        and accepted the last one it saw, or saw all and accepted none. */
    ghost predicate Offered(before: seq<seq<T>>, views: seq<seq<T>>, stop: bool, after: seq<seq<T>>) {
      exists m: nat :: OfferedUpTo(before, views, m, stop, after)
    }

    ghost predicate OfferedUpTo(before: seq<seq<T>>, views: seq<seq<T>>, m: nat, stop: bool, after: seq<seq<T>>) {
      && m <= |views| && after == before + views[..m]
      && (forall j :: 0 < j < m ==> !accepts(before + views[..j]))
      && (if stop then 0 < m && accepts(after) else m == |views| && (m > 0 ==> !accepts(after)))
    }

    lemma {:induction false} WentIsOffered(before: seq<seq<T>>, v: seq<seq<T>>, stop: bool, after: seq<seq<T>>,
                                           final: seq<T>) returns (m: nat)
      requires Valid() && AllSized(v, a.Length) && Went(before, v, stop, after, final)
      ensures OfferedUpTo(before, Views(v, lo, hi, a.Length), m, stop, after)
      ensures stop ==> m > 0 && final == v[m - 1]
      decreases |v|
    {
      var views := Views(v, lo, hi, a.Length);
      if v == [] {
        m := 0;
        assert before + views[..0] == before;
      } else {
        var now := before + [v[0][lo..hi]];
        assert before + views[..1] == now;
        if accepts(now) {
          m := 1;
        } else {
          var rest := Views(v[1..], lo, hi, a.Length);
          assert rest == views[1..];
          var n := WentIsOffered(now, v[1..], stop, after, final);
          m := n + 1;
          assert before + views[..m] == now + rest[..n];
          forall j | 0 < j < m ensures !accepts(before + views[..j]) {
            if j > 1 {
              assert before + views[..j] == now + rest[..j - 1];
            }
          }
        }
      }
    }

    /** for_each_combination over [lo, hi) + [hi, last) with the adapter g. */
    method ForEachCombination(g: Functor, last: nat) returns (stop: bool)
      requires Valid() && g.Fits(a.Length) && hi <= last <= a.Length
      modifies a, this`seen
      ensures Offered(old(seen), Seen(g, old(a[..]), lo, hi, last), stop, seen)
      ensures stop ==> seen != [] && a[lo..hi] == seen[|seen| - 1]
      ensures !stop ==> a[..] == old(a[..])
      decreases g.Rank() + 1, 0, 0, 0
    {
      hide Visits, Went, OfferedUpTo, Views;
      ghost var s := a[..];
      ghost var all := Visits(Combine(g, Two(lo, hi, hi, last)), s);
      VisitsCombine(g, Two(lo, hi, hi, last), s);
      PutGet(Two(lo, hi, hi, last), s);
      stop := CombineDiscontinuous(lo, hi, hi, last, g, 0);
      ghost var m := WentIsOffered(old(seen), all, stop, seen, a[..]);
      if stop {
        AcceptedLast(old(seen), all, m, seen, a[..]);
        assert a[..][lo..hi] == a[lo..hi];
      }
    }

    lemma AcceptedLast(before: seq<seq<T>>, v: seq<seq<T>>, m: nat, after: seq<seq<T>>, final: seq<T>)
      requires Valid() && AllSized(v, a.Length) && OfferedUpTo(before, Views(v, lo, hi, a.Length), m, true, after)
      requires final == v[m - 1]
      ensures after != [] && final[lo..hi] == after[|after| - 1]
    {}

    method ForEachPermutation(last: nat) returns (stop: bool)
      requires Valid() && hi <= last <= a.Length
      modifies a, this`seen
      ensures Offered(old(seen), Seen(Permute(User, lo, hi), old(a[..]), lo, hi, last), stop, seen)
      ensures stop ==> seen != [] && a[lo..hi] == seen[|seen| - 1]
      ensures !stop ==> a[..] == old(a[..])
    {
      hide Offered, Seen;
      stop := ForEachCombination(Permute(User, lo, hi), last);
    }

    method ForEachCircularPermutation(last: nat) returns (stop: bool)
      requires Valid() && hi <= last <= a.Length
      modifies a, this`seen
      ensures Offered(old(seen), Seen(Circular(User, lo, hi), old(a[..]), lo, hi, last), stop, seen)
      ensures stop ==> seen != [] && a[lo..hi] == seen[|seen| - 1]
      ensures !stop ==> a[..] == old(a[..])
    {
      hide Offered, Seen;
      stop := ForEachCombination(Circular(User, lo, hi), last);
    }

    method ForEachReversiblePermutation(last: nat) returns (stop: bool)
      requires Valid() && hi <= last <= a.Length
      modifies a, this`seen
      ensures Offered(old(seen), Seen(Reversible(User, lo, hi), old(a[..]), lo, hi, last), stop, seen)
      ensures stop ==> seen != [] && a[lo..hi] == seen[|seen| - 1]
      ensures !stop ==> a[..] == old(a[..])
    {
      hide Offered, Seen;
      stop := ForEachCombination(Reversible(User, lo, hi), last);
    }

    method ForEachReversibleCircularPermutation(last: nat) returns (stop: bool)
      requires Valid() && hi <= last <= a.Length
      modifies a, this`seen
      ensures Offered(old(seen), Seen(ReversibleCircular(User, lo, hi), old(a[..]), lo, hi, last), stop, seen)
      ensures stop ==> seen != [] && a[lo..hi] == seen[|seen| - 1]
      ensures !stop ==> a[..] == old(a[..])
    {
      hide Offered, Seen;
      stop := ForEachCombination(ReversibleCircular(User, lo, hi), last);
    }
  }
}

/** The rotations of combinations.h as functions on sequences: std::rotate,
    std::swap_ranges, and rotate_discontinuous over two and over three ranges. */
module Rotations {
  import opened Slots

  /** `s` with [l, r) rotated so that the element at m comes first. */
  function Rotated<T>(s: seq<T>, l: nat, m: nat, r: nat): (t: seq<T>)
    requires l <= m <= r <= |s|
    ensures |t| == |s|
  {
    seq(|s|, k requires 0 <= k < |s| =>
      if l <= k < l + (r - m) then s[m + (k - l)]
      else if l <= k < r then s[k - (r - m)]
      else s[k])
  }

  /** `s` with [l1, l1 + n) and [l2, l2 + n) exchanged. */
  function Exchanged<T>(s: seq<T>, l1: nat, l2: nat, n: nat): (t: seq<T>)
    requires l1 + n <= l2 && l2 + n <= |s|
    ensures |t| == |s|
  {
    seq(|s|, k requires 0 <= k < |s| =>
      if l1 <= k < l1 + n then s[l2 + (k - l1)]
      else if l2 <= k < l2 + n then s[l1 + (k - l2)]
      else s[k])
  }

  /** Two discontinuous ranges with their joined content rotated: the second
      range's elements come first. */
  function Joined<T>(s: seq<T>, l1: nat, r1: nat, l2: nat, r2: nat): (t: seq<T>)
    requires l1 <= r1 <= l2 <= r2 <= |s|
    ensures |t| == |s|
  {
    var d1, d2 := r1 - l1, r2 - l2;
    seq(|s|, k requires 0 <= k < |s| =>
      if l1 <= k < r1 then (if k - l1 < d2 then s[l2 + (k - l1)] else s[k - d2])
      else if l2 <= k < r2 then (if k - l2 + d1 < d2 then s[k + d1] else s[l1 + (k - l2 + d1 - d2)])
      else s[k])
  }

  lemma JoinedIsPut<T>(s: seq<T>, l1: nat, r1: nat, l2: nat, r2: nat)
    requires l1 <= r1 <= l2 <= r2 <= |s|
    ensures Joined(s, l1, r1, l2, r2) == Two(l1, r1, l2, r2).Put(s, s[l2..r2] + s[l1..r1])
  {
    var t, u := Joined(s, l1, r1, l2, r2), Two(l1, r1, l2, r2).Put(s, s[l2..r2] + s[l1..r1]);
    forall k | 0 <= k < |s| ensures t[k] == u[k] {}
  }

  lemma RotateShort<T>(l1: nat, r1: nat, d1: nat, l2: nat, i2: nat, r2: nat, s: seq<T>, t: seq<T>, u: seq<T>)
    requires l1 <= r1 <= l2 <= i2 <= r2 <= |s| && i2 - l2 == d1 == r1 - l1
    requires t == Exchanged(s, l1, l2, d1) && u == Rotated(t, l2, i2, r2)
    ensures u == Joined(s, l1, r1, l2, r2)
  {
    var v := Joined(s, l1, r1, l2, r2);
    forall k | 0 <= k < |u| ensures u[k] == v[k] {}
  }

  lemma RotateLong<T>(l1: nat, i1: nat, r1: nat, d2: nat, l2: nat, r2: nat, s: seq<T>, t: seq<T>, u: seq<T>)
    requires l1 <= i1 <= r1 <= l2 <= r2 <= |s| && r1 - i1 == d2 == r2 - l2
    requires t == Exchanged(s, i1, l2, d2) && u == Rotated(t, l1, i1, r1)
    ensures u == Joined(s, l1, r1, l2, r2)
  {
    var v := Joined(s, l1, r1, l2, r2);
    forall k | 0 <= k < |u| ensures u[k] == v[k] {}
  }

  /** Three ranges with their joined content rotated: the first range's elements
      come last. */
  function Turned<T>(s: seq<T>, R: Ranges): (t: seq<T>)
    requires R.Fits(|s|)
    ensures |t| == |s|
  {
    R.Put(s, s[R.l2..R.r2] + s[R.l3..R.r3] + s[R.l1..R.r1])
  }

  lemma JoinedAt<T>(s: seq<T>, l1: nat, r1: nat, l2: nat, r2: nat, k: nat)
    requires l1 <= r1 <= l2 <= r2 <= |s| && k < |s|
    ensures var d1, d2 := r1 - l1, r2 - l2;
      Joined(s, l1, r1, l2, r2)[k] ==
        if l1 <= k < r1 then (if k - l1 < d2 then s[l2 + (k - l1)] else s[k - d2])
        else if l2 <= k < r2 then (if k - l2 + d1 < d2 then s[k + d1] else s[l1 + (k - l2 + d1 - d2)])
        else s[k]
  {}

  lemma TurnedAt<T>(R: Ranges, s: seq<T>, k: nat)
    requires R.Fits(|s|) && k < |s|
    ensures var d1, d2, d3 := R.r1 - R.l1, R.r2 - R.l2, R.r3 - R.l3;
      Turned(s, R)[k] ==
        if !R.Holds(k) then s[k]
        else
          var i := if k < R.r1 then k - R.l1 else if k < R.r2 then k - R.l2 + d1 else k - R.l3 + d1 + d2;
          if i < d2 then s[R.l2 + i] else if i < d2 + d3 then s[R.l3 + (i - d2)] else s[R.l1 + (i - d2 - d3)]
  {}

  /** The second of the two rotations, in the ranges it moves and elsewhere. */
  lemma ShortLast<T>(R: Ranges, i2: nat, s: seq<T>, k: nat)
    requires R.Fits(|s|) && R.l2 <= i2 && R.r2 - i2 == R.r1 - R.l1 && R.l3 <= k < R.r3
    ensures Joined(Joined(s, R.l1, R.r1, R.l2, R.r2), i2, R.r2, R.l3, R.r3)[k] == Turned(s, R)[k]
  {
    var t, d1, d3 := Joined(s, R.l1, R.r1, R.l2, R.r2), R.r1 - R.l1, R.r3 - R.l3;
    var u := Joined(t, i2, R.r2, R.l3, R.r3);
    hide Turned, Joined;
    TurnedAt(R, s, k);
    JoinedAt(t, i2, R.r2, R.l3, R.r3, k);
    JoinedAt(s, R.l1, R.r1, R.l2, R.r2, if k - R.l3 + d1 < d3 then k + d1 else i2 + (k - R.l3 + d1 - d3));
  }

  lemma ShortMiddle<T>(R: Ranges, i2: nat, s: seq<T>, k: nat)
    requires R.Fits(|s|) && R.l2 <= i2 && R.r2 - i2 == R.r1 - R.l1 && i2 <= k < R.r2
    ensures Joined(Joined(s, R.l1, R.r1, R.l2, R.r2), i2, R.r2, R.l3, R.r3)[k] == Turned(s, R)[k]
  {
    var t, d3 := Joined(s, R.l1, R.r1, R.l2, R.r2), R.r3 - R.l3;
    var u := Joined(t, i2, R.r2, R.l3, R.r3);
    hide Turned, Joined;
    TurnedAt(R, s, k);
    JoinedAt(t, i2, R.r2, R.l3, R.r3, k);
    JoinedAt(s, R.l1, R.r1, R.l2, R.r2, if k - i2 < d3 then R.l3 + (k - i2) else k - d3);
  }

  lemma ShortOther<T>(R: Ranges, i2: nat, s: seq<T>, k: nat)
    requires R.Fits(|s|) && R.l2 <= i2 && R.r2 - i2 == R.r1 - R.l1 && k < |s| && !(i2 <= k < R.r2)
    requires !(R.l3 <= k < R.r3)
    ensures Joined(Joined(s, R.l1, R.r1, R.l2, R.r2), i2, R.r2, R.l3, R.r3)[k] == Turned(s, R)[k]
  {
    var t := Joined(s, R.l1, R.r1, R.l2, R.r2);
    hide Turned, Joined;
    TurnedAt(R, s, k);
    JoinedAt(t, i2, R.r2, R.l3, R.r3, k);
    JoinedAt(s, R.l1, R.r1, R.l2, R.r2, k);
  }

  lemma Rotate3Short<T>(R: Ranges, i2: nat, s: seq<T>)
    requires R.Fits(|s|) && R.l2 <= i2 && R.r2 - i2 == R.r1 - R.l1
    ensures Joined(Joined(s, R.l1, R.r1, R.l2, R.r2), i2, R.r2, R.l3, R.r3) == Turned(s, R)
  {
    hide Joined, Turned;
    var u := Joined(Joined(s, R.l1, R.r1, R.l2, R.r2), i2, R.r2, R.l3, R.r3);
    forall k | 0 <= k < |s| ensures u[k] == Turned(s, R)[k] {
      if i2 <= k < R.r2 {
        ShortMiddle(R, i2, s, k);
      } else if R.l3 <= k < R.r3 {
        ShortLast(R, i2, s, k);
      } else {
        ShortOther(R, i2, s, k);
      }
    }
  }

  /** rotate_discontinuous3 for d1 > d2 after two of its three rotations. */
  ghost predicate HalfTurned<T>(R: Ranges, i1: nat, s: seq<T>, u: seq<T>)
    requires R.Fits(|s|) && i1 < R.r1 && i1 - R.l1 == R.r2 - R.l2 && |u| == |s|
  {
    forall k {:trigger u[k]} :: 0 <= k < |s| ==> u[k] == HalfTurnedAt(R, i1, s, k)
  }

  function HalfTurnedAt<T>(R: Ranges, i1: nat, s: seq<T>, k: nat): T
    requires R.Fits(|s|) && i1 < R.r1 && i1 - R.l1 == R.r2 - R.l2 && k < |s|
  {
    var d2, d3, e := R.r2 - R.l2, R.r3 - R.l3, R.r1 - i1;
    if R.l1 <= k < i1 then s[R.l2 + (k - R.l1)]
    else if i1 <= k < R.r1 then (if k - i1 < d3 then s[R.l3 + (k - i1)] else s[k - d3 - d2])
    else if R.l2 <= k < R.r2 then s[R.l1 + (k - R.l2 + e)]
    else if R.l3 <= k < R.r3 then (if k - R.l3 + e < d3 then s[k + e] else s[R.l1 + (k - R.l3 + e - d3)])
    else s[k]
  }

  lemma MiddleFirst<T>(R: Ranges, i1: nat, s: seq<T>, k: nat)
    requires R.Fits(|s|) && i1 < R.r1 && i1 - R.l1 == R.r2 - R.l2 && i1 <= k < R.r1
    ensures Joined(Joined(s, R.l1, R.r1, R.l2, R.r2), i1, R.r1, R.l3, R.r3)[k] == HalfTurnedAt(R, i1, s, k)
  {
    var t, d3 := Joined(s, R.l1, R.r1, R.l2, R.r2), R.r3 - R.l3;
    var u := Joined(t, i1, R.r1, R.l3, R.r3);
    if k - i1 < d3 {
      assert u[k] == t[R.l3 + (k - i1)];
    } else {
      assert u[k] == t[k - d3];
    }
  }

  lemma MiddleThird<T>(R: Ranges, i1: nat, s: seq<T>, k: nat)
    requires R.Fits(|s|) && i1 < R.r1 && i1 - R.l1 == R.r2 - R.l2 && R.l3 <= k < R.r3
    ensures Joined(Joined(s, R.l1, R.r1, R.l2, R.r2), i1, R.r1, R.l3, R.r3)[k] == HalfTurnedAt(R, i1, s, k)
  {
    var t, d3, e := Joined(s, R.l1, R.r1, R.l2, R.r2), R.r3 - R.l3, R.r1 - i1;
    var u := Joined(t, i1, R.r1, R.l3, R.r3);
    if k - R.l3 + e < d3 {
      assert u[k] == t[k + e];
    } else {
      assert u[k] == t[i1 + (k - R.l3 + e - d3)];
    }
  }

  lemma MiddleOther<T>(R: Ranges, i1: nat, s: seq<T>, k: nat)
    requires R.Fits(|s|) && i1 < R.r1 && i1 - R.l1 == R.r2 - R.l2
    requires k < |s| && !(i1 <= k < R.r1) && !(R.l3 <= k < R.r3)
    ensures Joined(Joined(s, R.l1, R.r1, R.l2, R.r2), i1, R.r1, R.l3, R.r3)[k] == HalfTurnedAt(R, i1, s, k)
  {
    var t := Joined(s, R.l1, R.r1, R.l2, R.r2);
    assert Joined(t, i1, R.r1, R.l3, R.r3)[k] == t[k];
  }

  lemma Rotate3Middle<T>(R: Ranges, i1: nat, s: seq<T>)
    requires R.Fits(|s|) && i1 < R.r1 && i1 - R.l1 == R.r2 - R.l2
    ensures HalfTurned(R, i1, s, Joined(Joined(s, R.l1, R.r1, R.l2, R.r2), i1, R.r1, R.l3, R.r3))
  {
    hide Joined, HalfTurnedAt;
    var u := Joined(Joined(s, R.l1, R.r1, R.l2, R.r2), i1, R.r1, R.l3, R.r3);
    forall k | 0 <= k < |s| ensures u[k] == HalfTurnedAt(R, i1, s, k) {
      if i1 <= k < R.r1 {
        MiddleFirst(R, i1, s, k);
      } else if R.l3 <= k < R.r3 {
        MiddleThird(R, i1, s, k);
      } else {
        MiddleOther(R, i1, s, k);
      }
    }
  }

  lemma Rotate3Second<T>(R: Ranges, i1: nat, s: seq<T>, u: seq<T>, k: nat)
    requires R.Fits(|s|) && i1 < R.r1 && i1 - R.l1 == R.r2 - R.l2 && |u| == |s| && R.l2 <= k < R.r2
    requires HalfTurned(R, i1, s, u)
    ensures Joined(u, R.l2, R.r2, R.l3, R.r3)[k] == Turned(s, R)[k]
  {
    var w := Joined(u, R.l2, R.r2, R.l3, R.r3);
    TurnedAt(R, s, k);
    if k - R.l2 < R.r3 - R.l3 {
      assert w[k] == u[R.l3 + (k - R.l2)];
    } else {
      assert w[k] == u[k - (R.r3 - R.l3)];
    }
  }

  lemma Rotate3Third<T>(R: Ranges, i1: nat, s: seq<T>, u: seq<T>, k: nat)
    requires R.Fits(|s|) && i1 < R.r1 && i1 - R.l1 == R.r2 - R.l2 && |u| == |s| && R.l3 <= k < R.r3
    requires HalfTurned(R, i1, s, u)
    ensures Joined(u, R.l2, R.r2, R.l3, R.r3)[k] == Turned(s, R)[k]
  {
    var w := Joined(u, R.l2, R.r2, R.l3, R.r3);
    TurnedAt(R, s, k);
    var d2, d3 := R.r2 - R.l2, R.r3 - R.l3;
    if k - R.l3 + d2 < d3 {
      assert w[k] == u[k + d2];
    } else {
      assert w[k] == u[R.l2 + (k - R.l3 + d2 - d3)];
    }
  }

  lemma Rotate3Other<T>(R: Ranges, i1: nat, s: seq<T>, u: seq<T>, k: nat)
    requires R.Fits(|s|) && i1 < R.r1 && i1 - R.l1 == R.r2 - R.l2 && |u| == |s| && k < |s| && !(R.l2 <= k < R.r2)
    requires !(R.l3 <= k < R.r3)
    requires HalfTurned(R, i1, s, u)
    ensures Joined(u, R.l2, R.r2, R.l3, R.r3)[k] == Turned(s, R)[k]
  {
    var w := Joined(u, R.l2, R.r2, R.l3, R.r3);
    TurnedAt(R, s, k);
    assert w[k] == u[k];
  }

  lemma Rotate3Last<T>(R: Ranges, i1: nat, s: seq<T>, u: seq<T>)
    requires R.Fits(|s|) && i1 < R.r1 && i1 - R.l1 == R.r2 - R.l2 && |u| == |s|
    requires HalfTurned(R, i1, s, u)
    ensures Joined(u, R.l2, R.r2, R.l3, R.r3) == Turned(s, R)
  {
    forall k | 0 <= k < |s| ensures Joined(u, R.l2, R.r2, R.l3, R.r3)[k] == Turned(s, R)[k] {
      if R.l2 <= k < R.r2 {
        Rotate3Second(R, i1, s, u, k);
      } else if R.l3 <= k < R.r3 {
        Rotate3Third(R, i1, s, u, k);
      } else {
        Rotate3Other(R, i1, s, u, k);
      }
    }
  }

  lemma Rotate3Long<T>(R: Ranges, i1: nat, s: seq<T>)
    requires R.Fits(|s|) && i1 < R.r1 && i1 - R.l1 == R.r2 - R.l2
    ensures Joined(Joined(Joined(s, R.l1, R.r1, R.l2, R.r2), i1, R.r1, R.l3, R.r3), R.l2, R.r2, R.l3, R.r3)
         == Turned(s, R)
  {
    Rotate3Middle(R, i1, s);
    Rotate3Last(R, i1, s, Joined(Joined(s, R.l1, R.r1, R.l2, R.r2), i1, R.r1, R.l3, R.r3));
  }
}

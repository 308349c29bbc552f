/** Up to three disjoint index ranges of one array, read as if they were joined.

    The enumeration algorithms of combinations.h work on two or three
    "discontinuous" ranges [l1, r1), [l2, r2), [l3, r3) of one container. `Get`
    is the joined content of the ranges; `Put` overwrites it and leaves every
    position between the ranges alone.
 */
module Slots {

  /** A sequence without repeated elements. */
  ghost predicate NoDup<X>(xs: seq<X>) {
    forall i, j :: 0 <= i < j < |xs| ==> xs[i] != xs[j]
  }

  /** The elements are indices below n. */
  ghost predicate Within(u: seq<nat>, n: nat) {
    forall i :: 0 <= i < |u| ==> u[i] < n
  }

  lemma {:induction false} CountOnce<X>(a: seq<X>, x: X)
    requires NoDup(a)
    ensures multiset(a)[x] <= 1
    decreases |a|
  {
    if a == [] {
    } else {
      assert a == [a[0]] + a[1..];
      CountOnce(a[1..], x);
      assert a[0] !in a[1..];
    }
  }

  lemma SubNoDup<X>(a: seq<X>, b: seq<X>)
    requires multiset(a) <= multiset(b) && NoDup(b)
    ensures NoDup(a) && forall x :: x in a ==> x in b
  {
    forall x | x in a ensures x in b {
      assert x in multiset(b);
    }
    forall i, j | 0 <= i < j < |a| ensures a[i] != a[j] {
      CountOnce(b, a[i]);
      assert a == a[..j] + a[j..];
      assert a[..j][i] == a[i] && a[j..][0] == a[j];
      assert multiset(a)[a[i]] == multiset(a[..j])[a[i]] + multiset(a[j..])[a[i]];
    }
  }

  lemma NoDupMultiset<X>(a: seq<X>, b: seq<X>)
    requires NoDup(a) && multiset(a) == multiset(b)
    ensures NoDup(b)
  {
    SubNoDup(b, a);
  }

  function Swapped<T>(s: seq<T>, i: nat, j: nat): (t: seq<T>)
    requires i < |s| && j < |s|
    ensures |t| == |s|
  {
    s[i := s[j]][j := s[i]]
  }

  lemma Swapped3<T>(x: T, y: T, z: T)
    ensures Swapped([x, y, z], 0, 1) == [y, x, z]
    ensures Swapped([x, y, z], 0, 2) == [z, y, x]
    ensures Swapped([x, y, z], 1, 2) == [x, z, y]
  {}

  function Reversed<T>(s: seq<T>): (t: seq<T>)
    ensures |t| == |s|
    ensures forall i :: 0 <= i < |s| ==> t[i] == s[|s| - 1 - i]
  {
    seq(|s|, i requires 0 <= i < |s| => s[|s| - 1 - i])
  }

  datatype Ranges = Ranges(l1: nat, r1: nat, l2: nat, r2: nat, l3: nat, r3: nat) {

    predicate Fits(n: nat) {
      l1 <= r1 <= l2 <= r2 <= l3 <= r3 <= n
    }

    function Size(): nat
      requires Fits(r3)
    {
      (r1 - l1) + (r2 - l2) + (r3 - l3)
    }

    predicate Holds(i: int) {
      l1 <= i < r1 || l2 <= i < r2 || l3 <= i < r3
    }

    /** The array position of the i-th element of the joined ranges. */
    function At(i: nat): (p: nat)
      requires Fits(r3) && i < Size()
      ensures Holds(p)
    {
      if i < r1 - l1 then l1 + i
      else if i < (r1 - l1) + (r2 - l2) then l2 + (i - (r1 - l1))
      else l3 + (i - (r1 - l1) - (r2 - l2))
    }

    /** The inverse of At. */
    function Place(p: nat): (i: nat)
      requires Fits(r3) && Holds(p)
      ensures i < Size() && At(i) == p
    {
      if p < r1 then p - l1 else if p < r2 then p - l2 + (r1 - l1) else p - l3 + (r1 - l1) + (r2 - l2)
    }

    /** The joined content. */
    function Get<T>(s: seq<T>): (c: seq<T>)
      requires Fits(|s|)
      ensures |c| == Size()
      ensures forall i {:trigger c[i]} :: 0 <= i < |c| ==> c[i] == s[At(i)]
    {
      s[l1..r1] + s[l2..r2] + s[l3..r3]
    }

    /** `s` with the joined content replaced by `c`. */
    function Put<T>(s: seq<T>, c: seq<T>): (t: seq<T>)
      requires Fits(|s|) && |c| == Size()
      ensures |t| == |s|
      ensures forall i {:trigger t[i]} :: 0 <= i < |s| && !Holds(i) ==> t[i] == s[i]
    {
      seq(|s|, i requires 0 <= i < |s| =>
        if l1 <= i < r1 then c[i - l1]
        else if l2 <= i < r2 then c[i - l2 + (r1 - l1)]
        else if l3 <= i < r3 then c[i - l3 + (r1 - l1) + (r2 - l2)]
        else s[i])
    }

    /** What is left for the nested call once the head slot is fixed and the
        first j elements behind the first range have been passed over. */
    function Rest(j: nat): (r: Ranges)
      requires Fits(r3) && l1 < r1 && j < (r2 - l2) + (r3 - l3)
      ensures r.Fits(r3) && r.r3 == r3
      ensures r.r1 - r.l1 == r1 - l1 - 1
      ensures r.Size() == Size() - 1 - j
    {
      if j < r2 - l2 then Ranges(l1 + 1, r1, l2 + j, r2, l3, r3)
      else Ranges(l1 + 1, r1, l3 + (j - (r2 - l2)), r3, r3, r3)
    }
  }

  function One(l: nat, r: nat): Ranges { Ranges(l, r, r, r, r, r) }

  function Two(l1: nat, r1: nat, l2: nat, r2: nat): Ranges { Ranges(l1, r1, l2, r2, r2, r2) }

  lemma GetPut<T>(R: Ranges, s: seq<T>, c: seq<T>)
    requires R.Fits(|s|) && |c| == R.Size()
    ensures R.Get(R.Put(s, c)) == c
  {
    var t := R.Put(s, c);
    forall i | 0 <= i < |c| ensures R.Get(t)[i] == c[i] {
      assert R.Get(t)[i] == t[R.At(i)];
    }
  }

  lemma PutGet<T>(R: Ranges, s: seq<T>)
    requires R.Fits(|s|)
    ensures R.Put(s, R.Get(s)) == s
  {}

  lemma PutPut<T>(R: Ranges, s: seq<T>, c: seq<T>, c': seq<T>)
    requires R.Fits(|s|) && |c| == R.Size() && |c'| == R.Size()
    ensures R.Put(R.Put(s, c), c') == R.Put(s, c')
  {}

  lemma PutSwap<T>(R: Ranges, s: seq<T>, c: seq<T>, i: nat, j: nat)
    requires R.Fits(|s|) && |c| == R.Size() && i < |c| && j < |c|
    ensures Swapped(R.Put(s, c), R.At(i), R.At(j)) == R.Put(s, Swapped(c, i, j))
  {
    hide Ranges.Put, Ranges.At, Ranges.Place, Ranges.Holds;
    PlaceAt(R, i);
    PlaceAt(R, j);
    var a, b := R.At(i), R.At(j);
    var t, u := Swapped(R.Put(s, c), a, b), R.Put(s, Swapped(c, i, j));
    PutAt(R, s, c, a);
    PutAt(R, s, c, b);
    forall p | 0 <= p < |s| ensures t[p] == u[p] {
      PutAt(R, s, c, p);
      PutAt(R, s, Swapped(c, i, j), p);
    }
  }

  lemma PutAt<T>(R: Ranges, s: seq<T>, c: seq<T>, p: nat)
    requires R.Fits(|s|) && |c| == R.Size() && p < |s|
    ensures R.Put(s, c)[p] == if R.Holds(p) then c[R.Place(p)] else s[p]
  {}

  lemma PlaceAt(R: Ranges, i: nat)
    requires R.Fits(R.r3) && i < R.Size()
    ensures R.At(i) < R.r3 && R.Place(R.At(i)) == i
  {}

  /** The nested ranges of a joined state. */
  lemma RestGet<T>(R: Ranges, s: seq<T>, c: seq<T>, j: nat)
    requires R.Fits(|s|) && |c| == R.Size() && R.l1 < R.r1 && j < (R.r2 - R.l2) + (R.r3 - R.l3)
    ensures var k := R.r1 - R.l1; R.Rest(j).Get(R.Put(s, c)) == c[1..k] + c[k + j..]
  {
    var k := R.r1 - R.l1;
    var Q := R.Rest(j);
    var w := c[1..k] + c[k + j..];
    forall i | 0 <= i < |w| ensures Q.Get(R.Put(s, c))[i] == w[i] {
      RestAt(R, s, c, j, i);
    }
  }

  lemma RestAt<T>(R: Ranges, s: seq<T>, c: seq<T>, j: nat, i: nat)
    requires R.Fits(|s|) && |c| == R.Size() && R.l1 < R.r1 && j < (R.r2 - R.l2) + (R.r3 - R.l3)
    requires i < R.Size() - 1 - j
    ensures var k := R.r1 - R.l1;
            R.Rest(j).Get(R.Put(s, c))[i] == if i < k - 1 then c[i + 1] else c[i + 1 + j]
  {
    var Q, t := R.Rest(j), R.Put(s, c);
    var k := R.r1 - R.l1;
    var p, n := Q.At(i), if i < k - 1 then i + 1 else i + 1 + j;
    RestPlace(R, j, i);
    hide Ranges.Put, Ranges.At, Ranges.Place, Ranges.Holds, Ranges.Rest, Ranges.Get;
    assert Q.Get(t)[i] == t[p];
    PutAt(R, s, c, p);
  }

  lemma RestPlace(R: Ranges, j: nat, i: nat)
    requires R.Fits(R.r3) && R.l1 < R.r1 && j < (R.r2 - R.l2) + (R.r3 - R.l3) && i < R.Size() - 1 - j
    ensures var p := R.Rest(j).At(i);
      p < R.r3 && R.Holds(p) && R.Place(p) == if i < R.r1 - R.l1 - 1 then i + 1 else i + 1 + j
  {}

  lemma RestPut<T>(R: Ranges, s: seq<T>, c: seq<T>, j: nat, d: seq<T>)
    requires R.Fits(|s|) && |c| == R.Size() && R.l1 < R.r1 && j < (R.r2 - R.l2) + (R.r3 - R.l3)
    requires |d| == R.Size() - 1 - j
    ensures var k := R.r1 - R.l1;
            R.Rest(j).Put(R.Put(s, c), d) == R.Put(s, c[..1] + d[..k - 1] + c[k..k + j] + d[k - 1..])
  {}
}

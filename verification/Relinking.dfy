/** The steps by which createOctant rewrites the shared successor list. */
module Relinking {
  import opened Slots
  import opened Geometry
  import opened Octants

  /** start, end and size describe the list, which is linked in `succ`. */
  ghost predicate Linked(start: nat, end: nat, size: nat, list: seq<nat>, succ: seq<nat>) {
    Described(start, end, size, list) && Chain(succ, list)
  }

  /** starts, ends and sizes describe the eight parts, each linked in `succ`. */
  ghost predicate Parted(o: Cube, pts: seq<Point>, list: seq<nat>, starts: seq<nat>, ends: seq<nat>, sizes: seq<nat>,
                         succ: seq<nat>)
    requires Within(list, |pts|)
  {
    |starts| == 8 && |ends| == 8 && |sizes| == 8 &&
    forall c :: 0 <= c < 8 ==> Linked(starts[c], ends[c], sizes[c], Part(o, pts, list, c), succ)
  }

  /** Taking the next point to the end of its part. */
  lemma PartedStep(o: Cube, pts: seq<Point>, list: seq<nat>, i: nat,
                   starts: seq<nat>, ends: seq<nat>, sizes: seq<nat>, succ: seq<nat>)
    requires Within(list, |pts|) && NoDup(list) && i < |list| && |succ| == |pts|
    requires Parted(o, pts, list[..i], starts, ends, sizes, succ)
    ensures var code, idx := o.Code(pts[list[i]]), list[i];
      && (sizes[code] > 0 ==> ends[code] in list[..i] && ends[code] < |succ|)
      && Parted(o, pts, list[..i + 1], if sizes[code] == 0 then starts[code := idx] else starts, ends[code := idx],
                sizes[code := sizes[code] + 1], if sizes[code] == 0 then succ else succ[ends[code] := idx])
  {
    hide Linked, Part, Cube.Code;
    var code, idx := o.Code(pts[list[i]]), list[i];
    assert Linked(starts[code], ends[code], sizes[code], Part(o, pts, list[..i], code), succ);
    PartEnd(o, pts, list[..i], code, starts[code], ends[code], sizes[code], succ);
    PartAppend(starts[code], ends[code], sizes[code], Part(o, pts, list[..i], code), succ, idx);
    PartStep(o, pts, list, code, i);
    var succ' := if sizes[code] == 0 then succ else succ[ends[code] := idx];
    forall c | 0 <= c < 8 && c != code
      ensures Linked(starts[c], ends[c], sizes[c], Part(o, pts, list[..i + 1], c), succ')
    {
      assert Linked(starts[c], ends[c], sizes[c], Part(o, pts, list[..i], c), succ);
      PartStep(o, pts, list, c, i);
      PartUntouched(o, pts, list[..i], c, starts[c], ends[c], sizes[c], ends[code], idx, succ, succ');
      assert Part(o, pts, list[..i + 1], c) == Part(o, pts, list[..i], c);
    }
  }

  lemma PartEnd(o: Cube, pts: seq<Point>, list: seq<nat>, code: nat, start: nat, end: nat, size: nat, succ: seq<nat>)
    requires Within(list, |pts|) && NoDup(list) && Linked(start, end, size, Part(o, pts, list, code), succ)
    ensures NoDup(Part(o, pts, list, code))
    ensures size > 0 ==> end in list && end < |pts| && o.Code(pts[end]) == code
  {
    PartNoDup(o, pts, list, code);
    PartHas(o, pts, list, code, end);
  }

  lemma PartAppend(start: nat, end: nat, size: nat, p: seq<nat>, succ: seq<nat>, idx: nat)
    requires Linked(start, end, size, p, succ) && NoDup(p) && (size > 0 ==> end < |succ|)
    ensures Linked(if size == 0 then idx else start, idx, size + 1, p + [idx],
                   if size == 0 then succ else succ[end := idx])
  {
    if size > 0 {
      ChainExtend(succ, p, idx);
    }
  }

  lemma PartUntouched(o: Cube, pts: seq<Point>, list: seq<nat>, c: nat, start: nat, end: nat, size: nat,
                      other: nat, idx: nat, succ: seq<nat>, succ': seq<nat>)
    requires Within(list, |pts|) && Linked(start, end, size, Part(o, pts, list, c), succ) && |succ| == |pts|
    requires succ' == succ || (other in list && other < |pts| && o.Code(pts[other]) != c && succ' == succ[other := idx])
    ensures Linked(start, end, size, Part(o, pts, list, c), succ')
  {
    var p := Part(o, pts, list, c);
    forall k | 0 <= k < |p| - 1 ensures p[k] < |succ| && succ'[p[k]] == succ[p[k]] {
      PartHas(o, pts, list, c, p[k]);
    }
    ChainKeep(succ, succ', p);
  }

  /** The first i children are done and hold the order so far. */
  ghost predicate Grown(child: seq<Octant>, i: nat, o: Cube, params: Params, pts: seq<Point>, order: seq<nat>) {
    |child| == 8 && i <= 8 && Offset(child, i) == |order| && Bounded(child[..i], |order|) &&
    (forall c :: i <= c < 8 ==> child[c].Null?) &&
    (forall c :: 0 <= c < i ==> Settled(child, c, o, params, pts, order))
  }

  ghost predicate Settled(child: seq<Octant>, c: nat, o: Cube, params: Params, pts: seq<Point>, order: seq<nat>)
    requires c < |child|
  {
    child[c].Octant? ==>
      && Offset(child, c + 1) <= |order|
      && child[c].cube == o.Sub(c)
      && Built(child[c], params, pts, Stretch(child, order, c))
      && Coded(o, pts, Stretch(child, order, c), c)
  }

  lemma SlicePrefix(s: seq<nat>, t: seq<nat>, x: nat, y: nat)
    requires x <= y <= |s| <= |t| && t[..|s|] == s
    ensures s[x..y] == t[x..y]
  {
    forall k | 0 <= k < y - x ensures s[x..y][k] == t[x..y][k] {
      assert t[..|s|][x + k] == t[x + k];
    }
  }

  lemma SettledKeep(a: seq<Octant>, b: seq<Octant>, i: nat, c: nat, o: Cube, params: Params, pts: seq<Point>,
                    s: seq<nat>, t: seq<nat>)
    requires c < i <= |a| == |b| && a[..i] == b[..i] && Settled(a, c, o, params, pts, s) && |s| <= |t| && t[..|s|] == s
    ensures Settled(b, c, o, params, pts, t)
  {
    assert a[c] == a[..i][c] == b[..i][c] == b[c];
    assert a[..c] == a[..i][..c] && b[..c] == b[..i][..c] && a[..c + 1] == a[..i][..c + 1];
    assert b[..c + 1] == b[..i][..c + 1];
    OffsetKeep(a, b, c);
    OffsetKeep(a, b, c + 1);
    if a[c].Octant? {
      hide Built, Coded;
      OffsetMonotone(a, c, c + 1);
      SlicePrefix(s, t, Offset(a, c), Offset(a, c + 1));
    }
  }

  lemma WithinPrefix(child: seq<Octant>, i: nat)
    requires i <= |child|
    ensures Bounded(child[..i], Offset(child, i))
    ensures Offset(child[..i], i) == Offset(child, i)
  {
    PrefixOffset(child, i, i);
    forall c | 0 <= c <= i ensures Offset(child[..i], c) <= Offset(child, i) {
      PrefixOffset(child, i, c);
      OffsetMonotone(child, c, i);
    }
  }

  lemma {:induction false} PrefixOffset(child: seq<Octant>, i: nat, c: nat)
    requires c <= i <= |child|
    ensures Offset(child[..i], c) == Offset(child, c)
  {
    if c == 0 {
    } else {
      PrefixOffset(child, i, c - 1);
    }
  }

  lemma GrowSkip(child: seq<Octant>, i: nat, o: Cube, params: Params, pts: seq<Point>, order: seq<nat>)
    requires i < 8 && Grown(child, i, o, params, pts, order)
    ensures Grown(child, i + 1, o, params, pts, order)
  {
    hide Built, Coded;
    assert Settled(child, i, o, params, pts, order);
    assert Offset(child, i + 1) == Offset(child, i);
    WithinPrefix(child, i + 1);
  }

  lemma GrowChild(child: seq<Octant>, i: nat, o: Cube, params: Params, pts: seq<Point>, order: seq<nat>, next: Octant,
                  more: seq<nat>)
    requires i < 8 && Grown(child, i, o, params, pts, order)
    requires Built(next, params, pts, more) && next.cube == o.Sub(i) && Coded(o, pts, more, i)
    ensures Grown(child[i := next], i + 1, o, params, pts, order + more)
  {
    var child', order' := child[i := next], order + more;
    assert |more| == next.size;
    hide Built, Coded;
    OffsetKeep(child, child', i);
    assert Offset(child', i + 1) == Offset(child', i) + next.size;
    WithinPrefix(child', i + 1);
    assert Settled(child', i, o, params, pts, order') by {
      assert Stretch(child', order', i) == more;
    }
    forall c | 0 <= c < i ensures Settled(child', c, o, params, pts, order') {
      SettledKeep(child, child', i, c, o, params, pts, order, order');
    }
    hide Settled;
  }

  /** What creating child i needs. */
  lemma PartReady(o: Cube, params: Params, pts: seq<Point>, list: seq<nat>, i: nat, fuel: nat)
    requires Within(list, |pts|) && NoDup(list) && AllIn(o, pts, list) && i < 8
    requires Finishes(fuel, params, pts, o, list) && Splits(params, |list|, o.extent)
    ensures NoDup(Part(o, pts, list, i)) && AllIn(o.Sub(i), pts, Part(o, pts, list, i))
    ensures fuel > 0 && Finishes(fuel - 1, params, pts, o.Sub(i), Part(o, pts, list, i))
    ensures forall k :: k in Part(o, pts, list, i) ==> k in list
  {
    PartNoDup(o, pts, list, i);
    PartIn(o, pts, list, i);
    forall k ensures k in Part(o, pts, list, i) ==> k in list {
      PartHas(o, pts, list, i, k);
    }
  }

  lemma PartCoded(o: Cube, pts: seq<Point>, list: seq<nat>, i: nat, more: seq<nat>)
    requires Within(list, |pts|) && Rearranges(more, Part(o, pts, list, i))
    ensures Coded(o, pts, more, i)
  {
    forall k | 0 <= k < |more| ensures more[k] < |pts| && o.Code(pts[more[k]]) == i {
      assert more[k] in more;
      PartHas(o, pts, list, i, more[k]);
    }
  }

  /** What creating a child and hooking it on has done to the successors. */
  ghost predicate Hook(part: seq<nat>, order: seq<nat>, more: seq<nat>, before: seq<nat>, after: seq<nat>,
                       linked: seq<nat>) {
    && |before| == |after| == |linked| && more != []
    && (forall k :: 0 <= k < |before| && k !in part ==> after[k] == before[k])
    && (order != [] ==> order[|order| - 1] < |after|)
    && linked == if order == [] then after else after[order[|order| - 1] := more[0]]
  }

  /** The order of a child hangs on to the end of what is there. */
  lemma Hooked(o: Cube, pts: seq<Point>, list: seq<nat>, i: nat, order: seq<nat>, more: seq<nat>,
               before: seq<nat>, after: seq<nat>, linked: seq<nat>)
    requires Within(list, |pts|) && i < 8 && |before| == |pts|
    requires Rearranges(order, Parts(o, pts, list, i)) && Rearranges(more, Part(o, pts, list, i))
    requires Chain(before, order) && Chain(after, more)
    requires Hook(Part(o, pts, list, i), order, more, before, after, linked)
    ensures Rearranges(order + more, Parts(o, pts, list, i + 1))
    ensures Chain(linked, order + more)
  {
    assert Parts(o, pts, list, i + 1) == Parts(o, pts, list, i) + Part(o, pts, list, i);
    forall k ensures k in order ==> k !in more {
      PartHas(o, pts, list, i, k);
      PartsHas(o, pts, list, i, k);
    }
    RearrangesMore(order, Parts(o, pts, list, i), more, Part(o, pts, list, i));
    forall k | 0 <= k < |order| - 1 ensures order[k] < |before| && linked[order[k]] == before[order[k]] {
      assert order[k] in order && order[k] !in more;
      assert before[order[k]] == order[k + 1];
    }
    ChainKeep(before, linked, order);
    forall k | 0 <= k < |more| - 1 ensures more[k] < |after| && linked[more[k]] == after[more[k]] {
      assert more[k] in more;
      assert after[more[k]] == more[k + 1];
    }
    ChainKeep(after, linked, more);
    ChainJoin(linked, order, more);
  }

  /** The parts still to come are described and linked. */
  ghost predicate Pending(o: Cube, pts: seq<Point>, list: seq<nat>, i: nat,
                          starts: seq<nat>, ends: seq<nat>, sizes: seq<nat>, succ: seq<nat>)
    requires Within(list, |pts|)
  {
    |starts| == 8 && |ends| == 8 && |sizes| == 8 &&
    forall c :: i <= c < 8 ==> Linked(starts[c], ends[c], sizes[c], Part(o, pts, list, c), succ)
  }

  /** Nothing outside the list has been touched. */
  ghost predicate Kept(list: seq<nat>, first: seq<nat>, succ: seq<nat>) {
    |first| == |succ| && forall k :: 0 <= k < |first| && k !in list ==> succ[k] == first[k]
  }

  lemma HookedRest(o: Cube, pts: seq<Point>, list: seq<nat>, i: nat, order: seq<nat>, more: seq<nat>,
                   before: seq<nat>, after: seq<nat>, linked: seq<nat>, starts: seq<nat>, ends: seq<nat>,
                   sizes: seq<nat>)
    requires Within(list, |pts|) && i < 8 && |before| == |pts|
    requires Rearranges(order, Parts(o, pts, list, i))
    requires Hook(Part(o, pts, list, i), order, more, before, after, linked)
    requires Pending(o, pts, list, i, starts, ends, sizes, before)
    ensures Pending(o, pts, list, i + 1, starts, ends, sizes, linked)
  {
    forall c | i < c < 8 ensures Linked(starts[c], ends[c], sizes[c], Part(o, pts, list, c), linked) {
      var p := Part(o, pts, list, c);
      assert Linked(starts[c], ends[c], sizes[c], p, before);
      forall k | 0 <= k < |p| - 1 ensures p[k] < |before| && linked[p[k]] == before[p[k]] {
        PartHas(o, pts, list, c, p[k]);
        PartHas(o, pts, list, i, p[k]);
        PartsHas(o, pts, list, i, p[k]);
      }
      ChainKeep(before, linked, p);
    }
  }

  lemma HookedFrame(list: seq<nat>, part: seq<nat>, order: seq<nat>, more: seq<nat>,
                    first: seq<nat>, before: seq<nat>, after: seq<nat>, linked: seq<nat>)
    requires Hook(part, order, more, before, after, linked) && Kept(list, first, before)
    requires forall k :: k in part || k in order ==> k in list
    ensures Kept(list, first, linked)
  {
    assert order != [] ==> order[|order| - 1] in order;
  }

  lemma PartsInList(o: Cube, pts: seq<Point>, list: seq<nat>, i: nat, order: seq<nat>)
    requires Within(list, |pts|) && Rearranges(order, Parts(o, pts, list, i))
    ensures forall k :: k in order ==> k in list
    ensures order != [] ==> order[|order| - 1] < |pts|
  {
    forall k ensures k in order ==> k in list {
      PartsHas(o, pts, list, i, k);
    }
    assert order != [] ==> order[|order| - 1] in order;
  }

  lemma NoPart(o: Cube, pts: seq<Point>, list: seq<nat>, i: nat, start: nat, end: nat, succ: seq<nat>)
    requires Within(list, |pts|) && Linked(start, end, 0, Part(o, pts, list, i), succ)
    ensures Parts(o, pts, list, i + 1) == Parts(o, pts, list, i)
  {}

  lemma Assemble(o: Octant, params: Params, pts: seq<Point>, order: seq<nat>)
    requires o.Octant? && !o.isLeaf && |o.child| == 8 && o.size == |order| > 0 && Splits(params, o.size, o.cube.extent)
    requires Within(order, |pts|) && AllIn(o.cube, pts, order)
    requires Grown(o.child, 8, o.cube, params, pts, order)
    requires o.start == order[0] && o.end == order[|order| - 1]
    ensures Built(o, params, pts, order)
  {
    hide Coded, Stretch;
    assert o.child[..8] == o.child;
    forall c | 0 <= c < 8 && o.child[c].Octant?
      ensures o.child[c].cube == o.cube.Sub(c)
      ensures Offset(o.child, c + 1) <= |order| && Built(o.child[c], params, pts, Stretch(o.child, order, c))
      ensures Coded(o.cube, pts, Stretch(o.child, order, c), c)
    {
      assert Settled(o.child, c, o.cube, params, pts, order);
    }
  }

  /** An inner octant is complete after the eighth child. */
  lemma Complete(o: Octant, params: Params, pts: seq<Point>, list: seq<nat>, order: seq<nat>)
    requires o.Octant? && !o.isLeaf && |o.child| == 8 && o.size == |list| > 0 && Splits(params, o.size, o.cube.extent)
    requires Within(list, |pts|) && AllIn(o.cube, pts, list)
    requires Rearranges(order, Parts(o.cube, pts, list, 8))
    requires Grown(o.child, 8, o.cube, params, pts, order)
    requires order != [] ==> o.start == order[0] && o.end == order[|order| - 1]
    ensures Built(o, params, pts, order) && Rearranges(order, list)
  {
    hide Built, Grown, Part, Parts, Cube.Has;
    PartsRearrange(o.cube, pts, list, order);
    forall k | 0 <= k < |order| ensures order[k] < |pts| && o.cube.Has(pts[order[k]]) {
      assert order[k] in order;
    }
    Assemble(o, params, pts, order);
  }

  /** Everything that holds after child i has been created and hooked on. */
  lemma Adopt(o: Cube, params: Params, pts: seq<Point>, list: seq<nat>, i: nat, child: seq<Octant>, kid: Octant,
              order: seq<nat>, more: seq<nat>, first: seq<nat>, before: seq<nat>, after: seq<nat>, linked: seq<nat>,
              starts: seq<nat>, ends: seq<nat>, sizes: seq<nat>)
    requires Within(list, |pts|) && i < 8 && |before| == |pts| && |child| == 8
    requires Grown(child, i, o, params, pts, order) && Rearranges(order, Parts(o, pts, list, i)) && Chain(before, order)
    requires Built(kid, params, pts, more) && kid.cube == o.Sub(i)
    requires Rearranges(more, Part(o, pts, list, i)) && Chain(after, more)
    requires Pending(o, pts, list, i, starts, ends, sizes, before) && Kept(list, first, before)
    requires Hook(Part(o, pts, list, i), order, more, before, after, linked)
    ensures Grown(child[i := kid], i + 1, o, params, pts, order + more)
    ensures Rearranges(order + more, Parts(o, pts, list, i + 1)) && Chain(linked, order + more)
    ensures Pending(o, pts, list, i + 1, starts, ends, sizes, linked) && Kept(list, first, linked)
  {
    PartsInList(o, pts, list, i, order);
    forall k ensures k in Part(o, pts, list, i) ==> k in list {
      PartHas(o, pts, list, i, k);
    }
    PartCoded(o, pts, list, i, more);
    hide *;
    Hooked(o, pts, list, i, order, more, before, after, linked);
    HookedRest(o, pts, list, i, order, more, before, after, linked, starts, ends, sizes);
    HookedFrame(list, Part(o, pts, list, i), order, more, first, before, after, linked);
    GrowChild(child, i, o, params, pts, order, kid, more);
  }
}

/** The clustering of neighbouring pixel hits. */
module Clustering {

  /** A pointer to a pixel hit, with the index of the pixel. Equal values are
      the same pointer. */
  datatype PixelHit = PixelHit(address: nat, x: int, y: int)

  const TWO32: int := 0x1_0000_0000
  const TWO31: int := 0x8000_0000

  /** The difference of two signed indices that are converted to unsigned first. */
  function Distance(lhs: int, rhs: int): int {
    var a, b := lhs % TWO32, rhs % TWO32;
    if a > b then a - b else b - a
  }

  /** Near, as the code has it. */
  predicate Near(p: PixelHit, q: PixelHit) {
    Distance(p.x, q.x) <= 1 && Distance(p.y, q.y) <= 1
  }

  /** The pixel itself and the eight around it. */
  predicate Neighbours(p: PixelHit, q: PixelHit) {
    -1 <= p.x - q.x <= 1 && -1 <= p.y - q.y <= 1
  }

  // ----- where the two differ

  /** A value of the signed type of the indices. */
  predicate Int32(i: int) {
    -TWO31 <= i < TWO31
  }

  predicate Representable(p: PixelHit) {
    Int32(p.x) && Int32(p.y)
  }

  /** Next to each other, and far apart once they are unsigned. */
  predicate Torn(a: int, b: int) {
    (a == -1 && b == 0) || (a == 0 && b == -1)
  }

  /** The two ends of the type: next to each other only once they are unsigned. */
  predicate Wrapped(a: int, b: int) {
    (a == -TWO31 && b == TWO31 - 1) || (a == TWO31 - 1 && b == -TWO31)
  }

  /** The unsigned distance of two signed 32-bit indices is right but for two pairs. */
  lemma DistanceExact(a: int, b: int)
    requires -0x8000_0000 <= a <= 0x7fff_ffff && -0x8000_0000 <= b <= 0x7fff_ffff
    ensures (Distance(a, b) <= 1 <==> -1 <= a - b <= 1) <==>
      {a, b} != {-1, 0} && {a, b} != {-0x8000_0000, 0x7fff_ffff}
    ensures (Distance(a, b) <= 1 <==> -1 <= a - b <= 1) <==> !Torn(a, b) && !Wrapped(a, b)
    ensures Distance(a, b) <= 1 <==> Meets(a, b)
  {
    PairIs(a, b, -1, 0);
    PairIs(a, b, -0x8000_0000, 0x7fff_ffff);
  }

  lemma PairIs(a: int, b: int, c: int, d: int)
    requires c != d
    ensures {a, b} == {c, d} <==> (a == c && b == d) || (a == d && b == c)
  {
    if {a, b} == {c, d} {
      assert c in {a, b} && d in {a, b};
    }
  }

  predicate Meets(a: int, b: int) {
    Wrapped(a, b) || (-1 <= a - b <= 1 && !Torn(a, b))
  }

  /** Neighbours with a coordinate that is torn, or hits with a wrapped one that
      meet in the other. */
  predicate Astray(p: PixelHit, q: PixelHit) {
    || (Neighbours(p, q) && (Torn(p.x, q.x) || Torn(p.y, q.y)))
    || (Wrapped(p.x, q.x) && Meets(p.y, q.y))
    || (Wrapped(p.y, q.y) && Meets(p.x, q.x))
  }

  /** Exactly when Near is the 8-neighbourhood of two hits. */
  lemma NearExact(p: PixelHit, q: PixelHit)
    requires Representable(p) && Representable(q)
    ensures (Near(p, q) <==> Neighbours(p, q)) <==> !Astray(p, q)
  {
    DistanceExact(p.x, q.x);
    DistanceExact(p.y, q.y);
    hide Distance;
  }

  /** Indices that are not negative are never astray. */
  lemma NearIsNeighbour(p: PixelHit, q: PixelHit)
    requires Representable(p) && Representable(q) && p.x >= 0 && p.y >= 0 && q.x >= 0 && q.y >= 0
    ensures !Astray(p, q) && (Near(p, q) <==> Neighbours(p, q))
  {
    NearExact(p, q);
  }

  // ----- connected components of a relation

  type Relation = (PixelHit, PixelHit) -> bool

  /** A chain of hits of V, each related to the next one. */
  ghost predicate Path(R: Relation, V: set<PixelHit>, s: seq<PixelHit>) {
    (forall i :: 0 <= i < |s| ==> s[i] in V) && forall i :: 0 <= i < |s| - 1 ==> R(s[i], s[i + 1])
  }

  ghost predicate Connected(R: Relation, V: set<PixelHit>, p: PixelHit, q: PixelHit) {
    exists s: seq<PixelHit> :: s != [] && Path(R, V, s) && s[0] == p && s[|s| - 1] == q
  }

  /** c is a connected component of V. */
  ghost predicate Component(R: Relation, V: set<PixelHit>, c: set<PixelHit>) {
    c != {} && c <= V && forall p, q :: p in c && q in V ==> (q in c <==> Connected(R, V, p, q))
  }

  /** Finished clusters: components of V without common hits. */
  ghost predicate Partial(R: Relation, V: set<PixelHit>, clusters: seq<set<PixelHit>>) {
    && (forall i :: 0 <= i < |clusters| ==> Component(R, V, clusters[i]))
    && forall i, j :: 0 <= i < j < |clusters| ==> clusters[i] !! clusters[j]
  }

  ghost predicate Agree(R: Relation, Q: Relation, V: set<PixelHit>) {
    forall p, q :: p in V && q in V ==> R(p, q) == Q(p, q)
  }

  lemma AgreeConnected(R: Relation, Q: Relation, V: set<PixelHit>, p: PixelHit, q: PixelHit)
    requires Agree(R, Q, V)
    ensures Connected(R, V, p, q) <==> Connected(Q, V, p, q)
  {
    forall s: seq<PixelHit> ensures Path(R, V, s) <==> Path(Q, V, s) {}
  }

  /** Relations that agree on the hits have the same components. */
  lemma AgreePartial(R: Relation, Q: Relation, V: set<PixelHit>, clusters: seq<set<PixelHit>>)
    requires Agree(R, Q, V) && Partial(R, V, clusters)
    ensures Partial(Q, V, clusters)
  {
    forall p, q ensures Connected(R, V, p, q) <==> Connected(Q, V, p, q) {
      AgreeConnected(R, Q, V, p, q);
    }
    hide Connected, Agree;
    forall i | 0 <= i < |clusters| ensures Component(Q, V, clusters[i]) {
      assert Component(R, V, clusters[i]);
    }
  }

  lemma ConnectedSelf(R: Relation, V: set<PixelHit>, p: PixelHit)
    requires p in V
    ensures Connected(R, V, p, p)
  {
    assert Path(R, V, [p]);
  }

  lemma ConnectedNext(R: Relation, V: set<PixelHit>, p: PixelHit, q: PixelHit)
    requires p in V && q in V && R(p, q)
    ensures Connected(R, V, p, q)
  {
    assert Path(R, V, [p, q]);
  }

  /** Between two hits the component is both of them exactly if they are related. */
  lemma PairComponent(R: Relation, p: PixelHit, q: PixelHit)
    requires p != q && R(p, q) == R(q, p)
    ensures Component(R, {p, q}, {p, q}) <==> R(p, q)
    ensures Component(R, {p, q}, {p}) <==> !R(p, q)
  {
    var V := {p, q};
    ConnectedSelf(R, V, p);
    ConnectedSelf(R, V, q);
    if R(p, q) {
      ConnectedNext(R, V, p, q);
      ConnectedNext(R, V, q, p);
    } else {
      forall s: seq<PixelHit> | s != [] && Path(R, V, s) ensures s[|s| - 1] == s[0] {
        Stuck(R, p, q, s);
      }
    }
    assert p in V && q in V;
  }

  lemma {:induction false} Stuck(R: Relation, p: PixelHit, q: PixelHit, s: seq<PixelHit>)
    requires !R(p, q) && !R(q, p) && s != [] && Path(R, {p, q}, s)
    ensures s[|s| - 1] == s[0]
  {
    if |s| == 1 {
    } else {
      var t := s[..|s| - 1];
      assert R(s[|s| - 2], s[|s| - 2 + 1]);
      assert s[|s| - 2] in {p, q} && s[|s| - 1] in {p, q};
      forall i | 0 <= i < |t| - 1 ensures R(t[i], t[i + 1]) {
        assert R(s[i], s[i + 1]);
      }
      Stuck(R, p, q, t);
    }
  }

  /** The condition is tight: two hits alone are clustered as the 8-neighbourhood
      has it if and only if they are not astray. */
  lemma PairExact(p: PixelHit, q: PixelHit)
    requires p != q && Representable(p) && Representable(q)
    ensures (Component(Near, {p, q}, {p, q}) <==> Component(Neighbours, {p, q}, {p, q})) <==> !Astray(p, q)
  {
    NearSymmetric(p, q);
    NearExact(p, q);
    PairComponent(Near, p, q);
    PairComponent(Neighbours, p, q);
    hide Component, Near, Neighbours, Astray;
  }

  /** Two adjacent hits on both sides of zero make two clusters. */
  lemma SplitAtZero(p: PixelHit, q: PixelHit)
    requires p == PixelHit(1, -1, 0) && q == PixelHit(2, 0, 0)
    ensures Component(Neighbours, {p, q}, {p, q})
    ensures !Component(Near, {p, q}, {p, q}) && Component(Near, {p, q}, {p})
  {
    NearSymmetric(p, q);
    NearExact(p, q);
    PairComponent(Near, p, q);
    PairComponent(Neighbours, p, q);
    hide Component;
  }

  // ----- no way round

  /** Along a path on which c changes by at most one, every value between the ends is taken. */
  lemma {:induction false} Between(R: Relation, V: set<PixelHit>, c: PixelHit -> int, s: seq<PixelHit>, v: int)
    returns (p: PixelHit)
    requires Gradual(R, c) && s != [] && Path(R, V, s) && c(s[0]) <= v <= c(s[|s| - 1])
    ensures p in V && c(p) == v
  {
    if c(s[0]) == v {
      p := s[0];
    } else {
      var t := s[1..];
      assert R(s[0], s[0 + 1]);
      forall i | 0 <= i < |t| - 1 ensures R(t[i], t[i + 1]) {
        assert R(s[i + 1], s[i + 1 + 1]);
      }
      p := Between(R, V, c, t, v);
    }
  }

  /** Related hits differ by at most one in c. */
  ghost predicate Gradual(R: Relation, c: PixelHit -> int) {
    forall p, q :: R(p, q) ==> -1 <= c(p) - c(q) <= 1
  }

  ghost predicate Taken(V: set<PixelHit>, c: PixelHit -> int, v: int) {
    exists p :: p in V && c(p) == v
  }

  /** With n values in a row there are at least n hits. */
  lemma {:induction false} AtLeast(V: set<PixelHit>, c: PixelHit -> int, lo: int, n: nat)
    requires forall v :: lo <= v < lo + n ==> Taken(V, c, v)
    ensures |V| >= n
  {
    if n == 0 {
    } else {
      var m: nat := n - 1;
      assert Taken(V, c, lo + m);
      var last :| last in V && c(last) == lo + m;
      var rest := V - {last};
      forall v | lo <= v < lo + m ensures Taken(rest, c, v) {
        assert Taken(V, c, v);
        var p :| p in V && c(p) == v;
        assert p in rest;
      }
      AtLeast(rest, c, lo, m);
    }
  }

  /** Connected hits are no further apart than there are hits. */
  lemma NotFar(R: Relation, V: set<PixelHit>, c: PixelHit -> int, p: PixelHit, q: PixelHit)
    requires Gradual(R, c) && Connected(R, V, p, q) && c(p) <= c(q)
    ensures c(q) - c(p) < |V|
  {
    var s: seq<PixelHit> :| s != [] && Path(R, V, s) && s[0] == p && s[|s| - 1] == q;
    var n: nat := c(q) - c(p) + 1;
    forall v | c(p) <= v < c(p) + n ensures Taken(V, c, v) {
      var r := Between(R, V, c, s, v);
    }
    AtLeast(V, c, c(p), n);
  }

  /** The coordinates as the relations see them, in both directions. */
  function Coordinate(x: bool, unsigned: bool, down: bool): PixelHit -> int {
    (p: PixelHit) =>
      var i := if x then p.x else p.y;
      var j := if unsigned then i % TWO32 else i;
      if down then -j else j
  }

  lemma AllGradual(x: bool, down: bool)
    ensures Gradual(Near, Coordinate(x, true, down)) && Gradual(Neighbours, Coordinate(x, false, down))
  {}

  lemma NotFarEither(R: Relation, V: set<PixelHit>, x: bool, unsigned: bool, p: PixelHit, q: PixelHit)
    requires R == (if unsigned then Near else Neighbours) && Connected(R, V, p, q)
    ensures var c := Coordinate(x, unsigned, false); -|V| < c(p) - c(q) < |V|
  {
    hide Near, Neighbours, Connected;
    AllGradual(x, false);
    AllGradual(x, true);
    var up, down := Coordinate(x, unsigned, false), Coordinate(x, unsigned, true);
    if up(p) <= up(q) {
      NotFar(R, V, up, p, q);
    } else {
      NotFar(R, V, down, p, q);
    }
  }

  /** Two hits that are astray are connected under one of the relations only: the
      other one would need a hit at each value of the type. */
  lemma AstrayApart(V: set<PixelHit>, p: PixelHit, q: PixelHit)
    requires p in V && q in V && Representable(p) && Representable(q) && Astray(p, q) && |V| < TWO32
    ensures Connected(Near, V, p, q) <==> !Connected(Neighbours, V, p, q)
  {
    NearExact(p, q);
    hide Connected, Near, Neighbours;
    if Near(p, q) {
      ConnectedNext(Near, V, p, q);
      if Connected(Neighbours, V, p, q) {
        NotFarEither(Neighbours, V, true, false, p, q);
        NotFarEither(Neighbours, V, false, false, p, q);
      }
    } else {
      ConnectedNext(Neighbours, V, p, q);
      if Connected(Near, V, p, q) {
        NotFarEither(Near, V, true, true, p, q);
        NotFarEither(Near, V, false, true, p, q);
      }
    }
  }

  /** Clusters of all hits under Near are those of the 8-neighbourhood if and only
      if no two hits are astray. */
  lemma ClustersExact(V: set<PixelHit>, clusters: seq<set<PixelHit>>)
    requires Partial(Near, V, clusters) && Union(clusters) == V && |V| < TWO32
    requires forall p :: p in V ==> Representable(p)
    ensures Partial(Neighbours, V, clusters) <==> forall p, q :: p in V && q in V ==> !Astray(p, q)
  {
    hide Near, Neighbours, Astray, Connected, Representable, Component;
    if forall p, q :: p in V && q in V ==> !Astray(p, q) {
      NoneAstray(V);
      AgreePartial(Near, Neighbours, V, clusters);
    } else {
      var p, q :| p in V && q in V && Astray(p, q);
      AstrayApart(V, p, q);
      var i :| 0 <= i < |clusters| && p in clusters[i];
      NotBoth(V, clusters[i], p, q);
      assert !Component(Neighbours, V, clusters[i]);
    }
  }

  lemma NotBoth(V: set<PixelHit>, c: set<PixelHit>, p: PixelHit, q: PixelHit)
    requires Component(Near, V, c) && p in c && q in V
    requires Connected(Near, V, p, q) <==> !Connected(Neighbours, V, p, q)
    ensures !Component(Neighbours, V, c)
  {
    hide Near, Neighbours, Connected;
  }

  // ----- components of Near

  ghost predicate Touches(q: PixelHit, cluster: set<PixelHit>) {
    exists p :: p in cluster && Near(q, p)
  }

  ghost predicate PairwiseConnected(V: set<PixelHit>, c: set<PixelHit>) {
    forall p, q :: p in c && q in c ==> Connected(Near, V, p, q)
  }

  /** No hit of V outside c is near a hit of c. */
  ghost predicate Closed(V: set<PixelHit>, c: set<PixelHit>) {
    forall p, q :: p in c && q in V && Near(q, p) ==> q in c
  }

  lemma NearSymmetric(p: PixelHit, q: PixelHit)
    ensures Near(p, q) == Near(q, p)
  {}

  lemma ConnectedSymmetric(V: set<PixelHit>, p: PixelHit, q: PixelHit)
    requires Connected(Near, V, p, q)
    ensures Connected(Near, V, q, p)
  {
    hide Near;
    var s: seq<PixelHit> :| s != [] && Path(Near, V, s) && s[0] == p && s[|s| - 1] == q;
    var n := |s|;
    var t := seq(n, i requires 0 <= i < n => s[n - 1 - i]);
    forall i | 0 <= i < n - 1 ensures Near(t[i], t[i + 1]) {
      NearSymmetric(s[n - 2 - i], s[n - 2 - i + 1]);
      assert Near(s[n - 2 - i], s[n - 2 - i + 1]);
    }
    assert Path(Near, V, t);
  }

  lemma ConnectedOn(R: Relation, V: set<PixelHit>, p: PixelHit, q: PixelHit, r: PixelHit)
    requires Connected(R, V, p, q) && Connected(R, V, q, r)
    ensures Connected(R, V, p, r)
  {
    var s: seq<PixelHit> :| s != [] && Path(R, V, s) && s[0] == p && s[|s| - 1] == q;
    var t: seq<PixelHit> :| t != [] && Path(R, V, t) && t[0] == q && t[|t| - 1] == r;
    var u := s + t[1..];
    forall i | 0 <= i < |u| - 1 ensures R(u[i], u[i + 1]) {
      if i >= |s| - 1 {
        assert R(t[i - (|s| - 1)], t[i - (|s| - 1) + 1]);
      } else {
        assert R(s[i], s[i + 1]);
      }
    }
    assert Path(R, V, u);
  }

  /** A path does not leave a closed set. */
  lemma {:induction false} PathStays(V: set<PixelHit>, c: set<PixelHit>, s: seq<PixelHit>)
    requires Closed(V, c) && s != [] && Path(Near, V, s) && s[0] in c
    ensures s[|s| - 1] in c
    decreases |s|
  {
    if |s| == 1 {
    } else {
      NearSymmetric(s[0], s[1]);
      var t := s[1..];
      assert Near(s[0], s[0 + 1]);
      hide Near;
      forall i | 0 <= i < |t| - 1 ensures Near(t[i], t[i + 1]) {
        assert Near(s[i + 1], s[i + 1 + 1]);
      }
      PathStays(V, c, t);
    }
  }

  lemma ClosedIsComponent(V: set<PixelHit>, c: set<PixelHit>)
    requires c != {} && c <= V && PairwiseConnected(V, c) && Closed(V, c)
    ensures Component(Near, V, c)
  {
    hide Near;
    forall p, q | p in c && q in V && Connected(Near, V, p, q) ensures q in c {
      var s: seq<PixelHit> :| s != [] && Path(Near, V, s) && s[0] == p && s[|s| - 1] == q;
      PathStays(V, c, s);
    }
  }

  lemma AddNear(V: set<PixelHit>, c: set<PixelHit>, q: PixelHit)
    requires PairwiseConnected(V, c) && c <= V && q in V && Touches(q, c)
    ensures PairwiseConnected(V, c + {q})
  {
    hide Near, Connected;
    var p :| p in c && Near(q, p);
    ConnectedNext(Near, V, q, p);
    ConnectedSelf(Near, V, q);
    forall r | r in c ensures Connected(Near, V, q, r) && Connected(Near, V, r, q) {
      ConnectedOn(Near, V, q, p, r);
      ConnectedSymmetric(V, q, r);
    }
  }

  method Touching(pixel: PixelHit, cluster: set<PixelHit>) returns (touching: bool)
    ensures touching == Touches(pixel, cluster)
  {
    var rest := cluster;
    while rest != {}
      invariant rest <= cluster
      invariant forall p :: p in cluster - rest ==> !Near(pixel, p)
      decreases |rest|
    {
      var clusterPixel :| clusterPixel in rest;
      if Near(pixel, clusterPixel) {
        return true;
      }
      rest := rest - {clusterPixel};
    }
    return false;
  }

  ghost predicate Used(usedPixel: map<PixelHit, bool>, p: PixelHit) {
    p in usedPixel && usedPixel[p]
  }

  function Hits(hits: seq<PixelHit>): set<PixelHit> {
    set p | p in hits
  }

  ghost function Union(clusters: seq<set<PixelHit>>): set<PixelHit> {
    set i, p | 0 <= i < |clusters| && p in clusters[i] :: p
  }

  // ----- the cluster around one hit

  /** The cluster grown so far around the hit at `at`. */
  ghost predicate Growing(hits: seq<PixelHit>, at: nat, other: nat, used: map<PixelHit, bool>,
                          finished: set<PixelHit>, cluster: set<PixelHit>) {
    && at < |hits| && at < other <= |hits|
    && hits[at] in cluster && cluster <= Hits(hits) && cluster !! finished
    && (forall p :: p in Hits(hits) ==> (Used(used, p) <==> p in finished || p in cluster))
    && (forall k :: 0 <= k <= at ==> Used(used, hits[k]))
    && PairwiseConnected(Hits(hits), cluster)
    && (forall k :: at < k < other ==> Used(used, hits[k]) || !Touches(hits[k], cluster))
  }

  lemma GrownIsComponent(hits: seq<PixelHit>, at: nat, used: map<PixelHit, bool>, finished: set<PixelHit>,
                         cluster: set<PixelHit>)
    requires Growing(hits, at, |hits|, used, finished, cluster) && Closed(Hits(hits), finished)
    requires finished <= Hits(hits)
    ensures Component(Near, Hits(hits), cluster)
  {
    hide Near, Connected;
    forall p, q | p in cluster && q in Hits(hits) && Near(q, p) ensures q in cluster {
      var k :| 0 <= k < |hits| && hits[k] == q;
      assert Touches(q, cluster);
      assert Used(used, q);
      if q in finished {
        NearSymmetric(p, q);
        assert false;
      }
    }
    ClosedIsComponent(Hits(hits), cluster);
  }

  lemma GrowMore(hits: seq<PixelHit>, at: nat, other: nat, used: map<PixelHit, bool>, finished: set<PixelHit>,
                 cluster: set<PixelHit>)
    requires Growing(hits, at, other, used, finished, cluster) && other < |hits|
    requires !Used(used, hits[other]) && Touches(hits[other], cluster)
    ensures Growing(hits, at, at + 1, used[hits[other] := true], finished, cluster + {hits[other]})
    ensures |Hits(hits) - (cluster + {hits[other]})| < |Hits(hits) - cluster|
  {
    hide Near, Connected, Touches;
    assert hits[other] in Hits(hits) - cluster;
    assert Hits(hits) - (cluster + {hits[other]}) == Hits(hits) - cluster - {hits[other]};
    Smaller(Hits(hits) - (cluster + {hits[other]}), Hits(hits) - cluster, hits[other]);
    AddNear(Hits(hits), cluster, hits[other]);
  }

  /** The loop that keeps adding pixels to the cluster, starting over behind the
      first one after each that was added. */
  method GrowCluster(hits: seq<PixelHit>, at: nat, used0: map<PixelHit, bool>, ghost finished: set<PixelHit>)
    returns (cluster: set<PixelHit>, used: map<PixelHit, bool>)
    requires at < |hits| && !Used(used0, hits[at]) && finished <= Hits(hits)
    requires forall p :: p in Hits(hits) ==> (Used(used0, p) <==> p in finished)
    requires forall k :: 0 <= k < at ==> Used(used0, hits[k])
    ensures Growing(hits, at, |hits|, used, finished, cluster)
  {
    hide Growing, Near, Connected, Touches, Hits;
    cluster := {hits[at]};
    used := used0[hits[at] := true];
    var other := at + 1;
    GrowStart(hits, at, used0, finished);
    while other != |hits|
      invariant other <= |hits| && Growing(hits, at, other, used, finished, cluster)
      decreases |Hits(hits) - cluster|, |hits| - other
    {
      var neighbour := hits[other];
      var touching := Touching(neighbour, cluster);
      if (neighbour in used && used[neighbour]) || !touching {
        GrowOn(hits, at, other, used, finished, cluster);
        other := other + 1;
      } else {
        GrowMore(hits, at, other, used, finished, cluster);
        cluster := cluster + {neighbour};
        used := used[neighbour := true];
        other := at + 1;
      }
    }
  }

  lemma GrowStart(hits: seq<PixelHit>, at: nat, used: map<PixelHit, bool>, finished: set<PixelHit>)
    requires at < |hits| && !Used(used, hits[at]) && finished <= Hits(hits)
    requires forall p :: p in Hits(hits) ==> (Used(used, p) <==> p in finished)
    requires forall k :: 0 <= k < at ==> Used(used, hits[k])
    ensures Growing(hits, at, at + 1, used[hits[at] := true], finished, {hits[at]})
  {
    hide Near, Connected, Touches;
    ConnectedSelf(Near, Hits(hits), hits[at]);
  }

  lemma GrowOn(hits: seq<PixelHit>, at: nat, other: nat, used: map<PixelHit, bool>, finished: set<PixelHit>,
               cluster: set<PixelHit>)
    requires Growing(hits, at, other, used, finished, cluster) && other < |hits|
    requires Used(used, hits[other]) || !Touches(hits[other], cluster)
    ensures Growing(hits, at, other + 1, used, finished, cluster)
  {
    hide Near, Connected, Touches;
  }

  lemma Smaller(a: set<PixelHit>, b: set<PixelHit>, p: PixelHit)
    requires a == b - {p} && p in b
    ensures |a| < |b|
  {}

  // ----- all clusters

  lemma ComponentsClosed(V: set<PixelHit>, clusters: seq<set<PixelHit>>)
    requires Partial(Near, V, clusters)
    ensures Closed(V, Union(clusters)) && Union(clusters) <= V
  {
    hide Near, Connected;
    forall p, q | p in Union(clusters) && q in V && Near(q, p) ensures q in Union(clusters) {
      var i :| 0 <= i < |clusters| && p in clusters[i];
      NearSymmetric(p, q);
      ConnectedNext(Near, V, p, q);
      assert Component(Near, V, clusters[i]);
    }
    assert forall i :: 0 <= i < |clusters| ==> Component(Near, V, clusters[i]);
  }

  lemma OneMore(V: set<PixelHit>, clusters: seq<set<PixelHit>>, c: set<PixelHit>)
    requires Partial(Near, V, clusters) && Component(Near, V, c) && c !! Union(clusters)
    ensures Partial(Near, V, clusters + [c]) && Union(clusters + [c]) == Union(clusters) + c
  {
    hide Component;
    var more := clusters + [c];
    forall i, j | 0 <= i < j < |more| ensures more[i] !! more[j] {
      if j == |clusters| {
        assert clusters[i] <= Union(clusters);
      }
    }
    forall p ensures p in Union(more) <==> p in Union(clusters) || p in c {
      if p in c {
        assert p in more[|clusters|];
      }
      if p in Union(clusters) {
        var i :| 0 <= i < |clusters| && p in clusters[i];
        assert p in more[i];
      }
    }
  }

  lemma NoneAstray(V: set<PixelHit>)
    requires forall p, q :: p in V && q in V ==> Representable(p) && !Astray(p, q)
    ensures Agree(Near, Neighbours, V)
  {
    hide Near, Neighbours, Astray;
    forall p, q | p in V && q in V ensures Near(p, q) == Neighbours(p, q) {
      NearExact(p, q);
    }
  }

  lemma NotNegative(V: set<PixelHit>)
    requires forall p :: p in V ==> Representable(p) && p.x >= 0 && p.y >= 0
    ensures forall p, q :: p in V && q in V ==> Representable(p) && !Astray(p, q)
  {
    forall p, q | p in V && q in V ensures !Astray(p, q) {
      NearIsNeighbour(p, q);
    }
  }

  /** The clusters are the connected components of the hits under Near, each once:
      those of the 8-neighbourhood if and only if no two hits are astray. Only with
      a hit at each of 2^32 indices may they be so otherwise. */
  method DoClustering(hits: seq<PixelHit>) returns (clusters: seq<set<PixelHit>>)
    ensures Partial(Near, Hits(hits), clusters) && Union(clusters) == Hits(hits)
    ensures (forall p :: p in Hits(hits) ==> Representable(p)) && |Hits(hits)| < TWO32 ==>
      (Partial(Neighbours, Hits(hits), clusters) <==>
       forall p, q :: p in Hits(hits) && q in Hits(hits) ==> !Astray(p, q))
    ensures (forall p, q :: p in Hits(hits) && q in Hits(hits) ==> Representable(p) && !Astray(p, q)) ==>
      Partial(Neighbours, Hits(hits), clusters)
    ensures (forall p :: p in Hits(hits) ==> Representable(p) && p.x >= 0 && p.y >= 0) ==>
      Partial(Neighbours, Hits(hits), clusters)
  {
    hide Near, Neighbours, Connected, Component, Closed, Astray, Agree, Hits;
    clusters := [];
    var used: map<PixelHit, bool> := map[];
    for at := 0 to |hits|
      invariant Partial(Near, Hits(hits), clusters) && Union(clusters) <= Hits(hits)
      invariant forall p :: p in Hits(hits) ==> (Used(used, p) <==> p in Union(clusters))
      invariant forall k :: 0 <= k < at ==> Used(used, hits[k])
    {
      var pixelHit := hits[at];
      if !(pixelHit in used && used[pixelHit]) {
        ComponentsClosed(Hits(hits), clusters);
        var cluster;
        cluster, used := GrowCluster(hits, at, used, Union(clusters));
        GrownIsComponent(hits, at, used, Union(clusters), cluster);
        OneMore(Hits(hits), clusters, cluster);
        clusters := clusters + [cluster];
      }
    }
    AllUsed(hits, used, Union(clusters));
    AsNeighbours(Hits(hits), clusters);
  }

  lemma AsNeighbours(V: set<PixelHit>, clusters: seq<set<PixelHit>>)
    requires Partial(Near, V, clusters) && Union(clusters) == V
    ensures (forall p :: p in V ==> Representable(p)) && |V| < TWO32 ==>
      (Partial(Neighbours, V, clusters) <==> forall p, q :: p in V && q in V ==> !Astray(p, q))
    ensures (forall p, q :: p in V && q in V ==> Representable(p) && !Astray(p, q)) ==> Partial(Neighbours, V, clusters)
    ensures (forall p :: p in V ==> Representable(p) && p.x >= 0 && p.y >= 0) ==> Partial(Neighbours, V, clusters)
  {
    hide Partial, Union, Astray;
    if (forall p :: p in V ==> Representable(p)) && |V| < TWO32 {
      ClustersExact(V, clusters);
    }
    if forall p :: p in V ==> Representable(p) && p.x >= 0 && p.y >= 0 {
      NotNegative(V);
    }
    if forall p, q :: p in V && q in V ==> Representable(p) && !Astray(p, q) {
      NoneAstray(V);
      AgreePartial(Near, Neighbours, V, clusters);
    }
  }

  lemma AllUsed(hits: seq<PixelHit>, used: map<PixelHit, bool>, all: set<PixelHit>)
    requires all <= Hits(hits) && forall p :: p in Hits(hits) ==> (Used(used, p) <==> p in all)
    requires forall k :: 0 <= k < |hits| ==> Used(used, hits[k])
    ensures all == Hits(hits)
  {
    forall p | p in Hits(hits) ensures p in all {
      var k :| 0 <= k < |hits| && hits[k] == p;
    }
  }
}

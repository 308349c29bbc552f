/** What the archives write for a graph of shared pointers, and what they read back. */
module Archives {
  import opened Wrappers

  const MSB: nat := 0x8000_0000
  const TWO32: nat := 0x1_0000_0000

  /** The bookkeeping of fresh archives. */
  const NEW_OUT: Out := Out(1, map[], {})
  const NEW_IN: In := In(map[], map[], map[], 1)

  datatype Token = Id(bits: nat) | Version(v: nat) | Data(x: int)

  /** A serialised class: the version its save function has, and the classes its
      pointer members point to. */
  datatype Class = Class(version: nat, members: seq<nat>)

  /** A saved object; member pointers are addresses, 0 is null. */
  datatype Node = Node(cls: nat, payload: int, members: seq<nat>)

  /** A loaded object, with the version its load function was given. */
  datatype Loaded = Loaded(cls: nat, version: nat, payload: int, members: seq<nat>)

  ghost predicate Typed(schema: seq<Class>, heap: map<nat, Node>) {
    && 0 !in heap
    && (forall t, i :: 0 <= t < |schema| && 0 <= i < |schema[t].members| ==> schema[t].members[i] < |schema|)
    && forall a :: a in heap ==>
         && heap[a].cls < |schema| && |heap[a].members| == |schema[heap[a].cls].members|
         && AllTyped(heap, heap[a].members, schema[heap[a].cls].members)
  }

  /** p is null or points to an object of class t. */
  predicate TypedPointer(heap: map<nat, Node>, p: nat, t: nat) {
    p == 0 || (p in heap && heap[p].cls == t)
  }

  predicate AllTyped(heap: map<nat, Node>, ps: seq<nat>, ts: seq<nat>) {
    |ps| == |ts| && forall i :: 0 <= i < |ps| ==> TypedPointer(heap, ps[i], ts[i])
  }

  // ----- what can be reached

  /** A chain of objects, each with a member that points to the next one. */
  ghost predicate Trail(heap: map<nat, Node>, s: seq<nat>) {
    && s != [] && (forall i :: 0 <= i < |s| ==> s[i] in heap)
    && forall i :: 0 <= i < |s| - 1 ==> s[i + 1] in heap[s[i]].members
  }

  ghost predicate Reaches(heap: map<nat, Node>, p: nat, a: nat) {
    exists s: seq<nat> :: Trail(heap, s) && s[0] == p && s[|s| - 1] == a
  }

  /** The objects that can be reached from the pointers. */
  ghost function Reach(heap: map<nat, Node>, ps: seq<nat>): (r: set<nat>)
    ensures r <= heap.Keys
  {
    set a | a in heap && exists i :: 0 <= i < |ps| && Reaches(heap, ps[i], a)
  }

  lemma ReachSelf(heap: map<nat, Node>, p: nat)
    requires p in heap
    ensures p in Reach(heap, [p])
  {
    assert Trail(heap, [p]);
    assert Reaches(heap, [p][0], p);
  }

  lemma ReachMembers(heap: map<nat, Node>, p: nat)
    requires p in heap
    ensures Reach(heap, heap[p].members) <= Reach(heap, [p])
  {
    var ms := heap[p].members;
    forall a | a in Reach(heap, ms) ensures a in Reach(heap, [p]) {
      var i :| 0 <= i < |ms| && Reaches(heap, ms[i], a);
      var s: seq<nat> :| Trail(heap, s) && s[0] == ms[i] && s[|s| - 1] == a;
      var t := [p] + s;
      forall k | 0 <= k < |t| - 1 ensures t[k + 1] in heap[t[k]].members {
        if k > 0 {
          assert s[k - 1 + 1] in heap[s[k - 1]].members;
        }
      }
      assert Trail(heap, t);
      assert Reaches(heap, [p][0], a);
    }
  }

  lemma ReachParts(heap: map<nat, Node>, ps: seq<nat>)
    requires ps != []
    ensures Reach(heap, [ps[0]]) <= Reach(heap, ps) && Reach(heap, ps[1..]) <= Reach(heap, ps)
  {
    hide Reaches;
    forall a | a in Reach(heap, [ps[0]]) ensures a in Reach(heap, ps) {
      assert Reaches(heap, ps[0], a);
    }
    forall a | a in Reach(heap, ps[1..]) ensures a in Reach(heap, ps) {
      var i :| 0 <= i < |ps[1..]| && Reaches(heap, ps[1..][i], a);
      assert Reaches(heap, ps[i + 1], a);
    }
  }

  // ----- saving

  /** The bookkeeping of an output archive. */
  datatype Out = Out(next: nat, ids: map<nat, nat>, seen: set<nat>)

  ghost predicate Sane(heap: map<nat, Node>, o: Out) {
    && o.ids.Keys <= heap.Keys && |o.ids| < MSB && o.next == |o.ids| + 1
    && forall a :: a in o.ids ==> 0 < o.ids[a] < o.next
  }

  /** The objects saved already, and those that can be reached from ps, are fewer
      than 2^31. */
  ghost predicate Room(heap: map<nat, Node>, o: Out, ps: seq<nat>) {
    |o.ids.Keys + Reach(heap, ps)| < MSB
  }

  lemma RoomNew(heap: map<nat, Node>, o: Out, p: nat)
    requires p in heap && p !in o.ids && Room(heap, o, [p])
    ensures |o.ids| + 1 < MSB
    ensures forall o1: Out :: o1.ids.Keys == o.ids.Keys + {p} ==> Room(heap, o1, heap[p].members)
  {
    ReachSelf(heap, p);
    ReachMembers(heap, p);
    hide Reach;
    var all := o.ids.Keys + Reach(heap, [p]);
    SubsetSize(o.ids.Keys + {p}, all);
    forall o1: Out | o1.ids.Keys == o.ids.Keys + {p} ensures Room(heap, o1, heap[p].members) {
      SubsetSize(o1.ids.Keys + Reach(heap, heap[p].members), all);
    }
  }

  lemma RoomHead(heap: map<nat, Node>, o: Out, ps: seq<nat>)
    requires ps != [] && Room(heap, o, ps)
    ensures Room(heap, o, [ps[0]])
  {
    ReachParts(heap, ps);
    hide Reach;
    SubsetSize(o.ids.Keys + Reach(heap, [ps[0]]), o.ids.Keys + Reach(heap, ps));
  }

  lemma RoomTail(heap: map<nat, Node>, o: Out, o1: Out, ps: seq<nat>)
    requires ps != [] && Room(heap, o, ps) && o1.ids.Keys <= o.ids.Keys + Reach(heap, [ps[0]])
    ensures Room(heap, o1, ps[1..])
  {
    ReachParts(heap, ps);
    hide Reach;
    SubsetSize(o1.ids.Keys + Reach(heap, ps[1..]), o.ids.Keys + Reach(heap, ps));
  }

  /** value | msb_32bit on 32-bit numbers. */
  function WithMsb(value: nat): nat {
    if value % TWO32 >= MSB then value % TWO32 else value % TWO32 + MSB
  }

  /** OutputArchive::registerSharedPointer: the new bookkeeping and the id. */
  function Register(o: Out, p: nat): (Out, nat) {
    if p == 0 then (o, 0)
    else if p in o.ids then (o, o.ids[p])
    else (o.(next := (o.next + 1) % TWO32, ids := o.ids[p := o.next]), WithMsb(o.next))
  }

  /** registerClassVersion: the version is written the first time only. */
  function RegisterVersion(schema: seq<Class>, o: Out, t: nat): (Out, seq<Token>)
    requires t < |schema|
  {
    (o.(seen := o.seen + {t}), if t in o.seen then [] else [Version(schema[t].version)])
  }

  lemma RegisterNew(heap: map<nat, Node>, o: Out, p: nat)
    requires Sane(heap, o) && p in heap && p != 0 && p !in o.ids && |o.ids| + 1 < MSB
    ensures o.next < MSB && Register(o, p) == (Out(o.next + 1, o.ids[p := o.next], o.seen), o.next + MSB)
    ensures Sane(heap, Register(o, p).0)
    ensures |heap.Keys - Register(o, p).0.ids.Keys| < |heap.Keys - o.ids.Keys|
  {
    OneMoreKey(heap, o.ids, p, o.next);
    RegisterIs(o, p);
    hide Register;
  }

  lemma RegisterIs(o: Out, p: nat)
    requires o.next < MSB && p != 0 && p !in o.ids
    ensures Register(o, p) == (Out(o.next + 1, o.ids[p := o.next], o.seen), o.next + MSB)
  {
    SmallId(o.next);
    hide WithMsb;
  }

  lemma SmallId(x: nat)
    requires x < MSB
    ensures (x + 1) % TWO32 == x + 1 && WithMsb(x) == x + MSB
  {}

  lemma OneMoreKey(heap: map<nat, Node>, ids: map<nat, nat>, p: nat, x: nat)
    requires ids.Keys <= heap.Keys && p in heap && p !in ids
    ensures ids[p := x].Keys <= heap.Keys && |ids[p := x]| == |ids| + 1 <= |heap|
    ensures |heap.Keys - ids[p := x].Keys| < |heap.Keys - ids.Keys|
  {
    var more := ids[p := x];
    assert more.Keys == ids.Keys + {p};
    SubsetSize(more.Keys, heap.Keys);
    SubsetSize(ids.Keys, heap.Keys);
  }

  lemma SubsetSize(a: set<nat>, b: set<nat>)
    requires a <= b
    ensures |a| <= |b| && |b - a| == |b| - |a|
  {
    assert b == a + (b - a);
  }

  lemma FewerLeft(heap: map<nat, Node>, a: Out, b: Out)
    requires a.ids.Keys <= b.ids.Keys
    ensures |heap.Keys - b.ids.Keys| <= |heap.Keys - a.ids.Keys|
  {
    SubsetSize(heap.Keys - b.ids.Keys, heap.Keys - a.ids.Keys);
  }

  /** A new object is registered before its members are saved. */
  lemma SaveBegins(schema: seq<Class>, heap: map<nat, Node>, o: Out, p: nat)
    requires Typed(schema, heap) && Sane(heap, o) && p in heap && p !in o.ids && Room(heap, o, [p])
    ensures heap[p].cls < |schema| && p != 0 && |o.ids| + 1 < MSB
    ensures forall i :: 0 <= i < |heap[p].members| ==> heap[p].members[i] == 0 || heap[p].members[i] in heap
    ensures {p} + Reach(heap, heap[p].members) <= Reach(heap, [p])
    ensures var o2 := RegisterVersion(schema, Register(o, p).0, heap[p].cls).0;
      && o2.ids.Keys == o.ids.Keys + {p} && Sane(heap, o2) && Room(heap, o2, heap[p].members)
      && |heap.Keys - o2.ids.Keys| < |heap.Keys - o.ids.Keys|
  {
    hide *;
    MemberTypes(schema, heap, p);
    ReachSelf(heap, p);
    ReachMembers(heap, p);
    RoomNew(heap, o, p);
    RegisterNew(heap, o, p);
    var o1 := Register(o, p).0;
    assert o1.ids.Keys == o.ids.Keys + {p};
    VersionKeeps(schema, heap, o1, heap[p].cls);
  }

  lemma VersionKeeps(schema: seq<Class>, heap: map<nat, Node>, o: Out, t: nat)
    requires Sane(heap, o) && t < |schema|
    ensures var o2 := RegisterVersion(schema, o, t).0; Sane(heap, o2) && o2.ids == o.ids
  {}

  /** Saving a shared pointer: its id and, the first time, what it points to. */
  ghost function Save(schema: seq<Class>, heap: map<nat, Node>, o: Out, p: nat): (r: (Out, seq<Token>))
    requires Typed(schema, heap) && Sane(heap, o) && (p == 0 || p in heap) && Room(heap, o, [p])
    ensures Sane(heap, r.0) && o.ids.Keys <= r.0.ids.Keys <= o.ids.Keys + Reach(heap, [p])
    decreases |heap.Keys - o.ids.Keys|, 0, 0
  {
    hide Reach, Room;
    var (o1, id) := Register(o, p);
    if p == 0 || p in o.ids then (o1, [Id(id)]) else
    SaveBegins(schema, heap, o, p);
    hide Typed, Sane, Register;
    var node := heap[p];
    var (o2, vs) := RegisterVersion(schema, o1, node.cls);
    var (o3, ms) := SaveAll(schema, heap, o2, node.members);
    (o3, [Id(id)] + vs + [Data(node.payload)] + ms)
  }

  ghost function SaveAll(schema: seq<Class>, heap: map<nat, Node>, o: Out, ps: seq<nat>): (r: (Out, seq<Token>))
    requires Typed(schema, heap) && Sane(heap, o) && Room(heap, o, ps)
    requires forall i :: 0 <= i < |ps| ==> ps[i] == 0 || ps[i] in heap
    ensures Sane(heap, r.0) && o.ids.Keys <= r.0.ids.Keys <= o.ids.Keys + Reach(heap, ps)
    decreases |heap.Keys - o.ids.Keys|, 1, |ps|
  {
    hide Reach, Room, Typed, Sane;
    if ps == [] then (o, []) else
    RoomHead(heap, o, ps);
    var (o1, head) := Save(schema, heap, o, ps[0]);
    FewerLeft(heap, o, o1);
    RoomTail(heap, o, o1, ps);
    ReachParts(heap, ps);
    var (o2, tail) := SaveAll(schema, heap, o1, ps[1..]);
    (o2, head + tail)
  }

  // ----- loading

  /** The bookkeeping of an input archive, and the objects made so far. */
  datatype In = In(ptrs: map<nat, nat>, versions: map<nat, nat>, objects: map<nat, Loaded>, unused: nat)

  /** loadClassVersion: read the first time only. */
  function LoadVersion(n: In, t: nat, tokens: seq<Token>): Result<(In, nat, seq<Token>)> {
    if t in n.versions then Ok((n, n.versions[t], tokens))
    else if tokens == [] || !tokens[0].Version? then Failure
    else Ok((n.(versions := n.versions[t := tokens[0].v]), tokens[0].v, tokens[1..]))
  }

  /** A new object of class t is registered under the number. */
  function Begun(n: In, number: nat, t: nat): In {
    In(n.ptrs[number := n.unused], n.versions, n.objects[n.unused := Loaded(t, 0, 0, [])], n.unused + 1)
  }

  /** Loading a shared pointer: a new object is registered before it is read. */
  function Load(schema: seq<Class>, n: In, t: nat, tokens: seq<Token>): (r: Result<(In, nat, seq<Token>)>)
    requires t < |schema|
    ensures r.Ok? ==> |r.value.2| < |tokens|
    decreases |tokens|, 0, 0
  {
    if tokens == [] || !tokens[0].Id? then Failure else
    var id := tokens[0].bits;
    if id >= MSB then
      LoadFirst(schema, Begun(n, id - MSB, t), t, n.unused, tokens[1..])
    else if id == 0 then Ok((n, 0, tokens[1..]))
    else if id in n.ptrs then Ok((n, n.ptrs[id], tokens[1..]))
    else Failure
  }

  /** Reading the object at q, which is registered already. */
  function LoadFirst(schema: seq<Class>, n: In, t: nat, q: nat, tokens: seq<Token>): (r: Result<(In, nat, seq<Token>)>)
    requires t < |schema|
    ensures r.Ok? ==> |r.value.2| < |tokens|
    decreases |tokens|, 0, 0
  {
    var version := LoadVersion(n, t, tokens);
    if version.Failure? || version.value.2 == [] || !version.value.2[0].Data? then Failure else
    var members := LoadAll(schema, version.value.0, schema[t].members, version.value.2[1..]);
    if members.Failure? then Failure else
    var (n', qs, left) := members.value;
    Ok((In(n'.ptrs, n'.versions, n'.objects[q := Loaded(t, version.value.1, version.value.2[0].x, qs)], n'.unused), q,
        left))
  }

  function LoadAll(schema: seq<Class>, n: In, ts: seq<nat>, tokens: seq<Token>): (r: Result<(In, seq<nat>, seq<Token>)>)
    ensures r.Ok? ==> |r.value.2| <= |tokens|
    decreases |tokens|, 1, |ts|
  {
    if ts == [] then Ok((n, [], tokens)) else
    if ts[0] >= |schema| then Failure else
    var head := Load(schema, n, ts[0], tokens);
    if head.Failure? then Failure else
    var tail := LoadAll(schema, head.value.0, ts[1..], head.value.2);
    if tail.Failure? then Failure else
    Ok((tail.value.0, [head.value.1] + tail.value.1, tail.value.2))
  }

  // ----- the archives in step

  ghost predicate Mapped(o: Out, n: In, p: nat) {
    p == 0 || (p in o.ids && o.ids[p] in n.ptrs)
  }

  /** The address that the loaded object for p has. */
  ghost function Image(o: Out, n: In, p: nat): nat {
    if p != 0 && p in o.ids && o.ids[p] in n.ptrs then n.ptrs[o.ids[p]] else 0
  }

  /** Every id that was issued leads to an object of its own. */
  ghost predicate Linked(ids: map<nat, nat>, ptrs: map<nat, nat>, objects: map<nat, Loaded>, unused: nat) {
    && unused > 0 && 0 !in ids
    && (forall a :: a in ids ==> ids[a] in ptrs && 0 < ptrs[ids[a]] < unused && ptrs[ids[a]] in objects)
    && (forall a, b :: a in ids && b in ids && ptrs[ids[a]] == ptrs[ids[b]] ==> a == b)
    && forall q :: q in objects ==> q < unused
  }

  /** The versions known are those that were written. */
  ghost predicate SameVersions(schema: seq<Class>, versions: map<nat, nat>, seen: set<nat>) {
    versions.Keys == seen && forall t :: t in seen ==> t < |schema| && versions[t] == schema[t].version
  }

  ghost predicate InStep(schema: seq<Class>, heap: map<nat, Node>, o: Out, n: In) {
    Sane(heap, o) && Linked(o.ids, n.ptrs, n.objects, n.unused) && SameVersions(schema, n.versions, o.seen)
  }

  ghost function Images(o: Out, n: In, ps: seq<nat>): (qs: seq<nat>)
    ensures |qs| == |ps|
  {
    seq(|ps|, i requires 0 <= i < |ps| => Image(o, n, ps[i]))
  }

  /** The object loaded for a is the image of the one saved, and was read with the
      version it was written with. */
  ghost predicate Rebuilt(schema: seq<Class>, heap: map<nat, Node>, o: Out, n: In, a: nat)
    requires a in heap && heap[a].cls < |schema|
  {
    && a != 0 && Mapped(o, n, a) && (forall i :: 0 <= i < |heap[a].members| ==> Mapped(o, n, heap[a].members[i]))
    && Image(o, n, a) in n.objects
    && n.objects[Image(o, n, a)]
         == Loaded(heap[a].cls, schema[heap[a].cls].version, heap[a].payload, Images(o, n, heap[a].members))
  }

  /** Later states keep the ids, their objects, and the objects' content. */
  ghost predicate Grows(o: Out, n: In, o': Out, n': In) {
    && n.unused <= n'.unused
    && (forall a :: a in o.ids ==>
          a in o'.ids && Mapped(o, n, a) && Mapped(o', n', a) && Image(o', n', a) == Image(o, n, a))
    && forall q :: q in n.objects ==> q in n'.objects && n'.objects[q] == n.objects[q]
  }

  /** What has been saved in between has been rebuilt. */
  ghost predicate NewRebuilt(schema: seq<Class>, heap: map<nat, Node>, o: Out, o': Out, n': In) {
    forall a :: a in o'.ids && a !in o.ids ==> a in heap && heap[a].cls < |schema| && Rebuilt(schema, heap, o', n', a)
  }

  lemma GrowsOn(o: Out, n: In, o1: Out, n1: In, o2: Out, n2: In)
    requires Grows(o, n, o1, n1) && Grows(o1, n1, o2, n2)
    ensures Grows(o, n, o2, n2)
  {
    hide Mapped, Image;
  }

  lemma MappedOn(o: Out, n: In, o': Out, n': In, p: nat)
    requires Grows(o, n, o', n') && Mapped(o, n, p)
    ensures Mapped(o', n', p) && Image(o', n', p) == Image(o, n, p)
  {}

  lemma RebuiltOn(schema: seq<Class>, heap: map<nat, Node>, o: Out, n: In, o': Out, n': In, a: nat)
    requires a in heap && heap[a].cls < |schema| && Rebuilt(schema, heap, o, n, a) && Grows(o, n, o', n')
    ensures Rebuilt(schema, heap, o', n', a)
  {
    hide Grows, Mapped, Image;
    MappedOn(o, n, o', n', a);
    var ps := heap[a].members;
    forall i | 0 <= i < |ps| ensures Mapped(o', n', ps[i]) && Image(o', n', ps[i]) == Image(o, n, ps[i]) {
      MappedOn(o, n, o', n', ps[i]);
    }
    assert Images(o', n', ps) == Images(o, n, ps);
    ObjectsOn(o, n, o', n', Image(o, n, a));
  }

  lemma ObjectsOn(o: Out, n: In, o': Out, n': In, q: nat)
    requires Grows(o, n, o', n') && q in n.objects
    ensures q in n'.objects && n'.objects[q] == n.objects[q]
  {}

  lemma NewOn(schema: seq<Class>, heap: map<nat, Node>, o: Out, o1: Out, n1: In, o2: Out, n2: In)
    requires NewRebuilt(schema, heap, o, o1, n1) && Grows(o1, n1, o2, n2) && NewRebuilt(schema, heap, o1, o2, n2)
    ensures NewRebuilt(schema, heap, o, o2, n2)
  {
    hide Rebuilt, Grows;
    forall a | a in o2.ids && a !in o.ids
      ensures a in heap && heap[a].cls < |schema| && Rebuilt(schema, heap, o2, n2, a)
    {
      if a in o1.ids {
        RebuiltOn(schema, heap, o1, n1, o2, n2, a);
      }
    }
  }

  /** Registering a new object on both sides. */
  lemma LinkNew(ids: map<nat, nat>, ptrs: map<nat, nat>, objects: map<nat, Loaded>, unused: nat, p: nat, id: nat,
                x: Loaded)
    requires Linked(ids, ptrs, objects, unused) && p !in ids && p != 0
    requires forall a :: a in ids ==> ids[a] < id
    ensures Linked(ids[p := id], ptrs[id := unused], objects[unused := x], unused + 1)
  {}

  lemma StepNew(schema: seq<Class>, heap: map<nat, Node>, o: Out, n: In, p: nat, t: nat)
    requires InStep(schema, heap, o, n) && p in heap && p != 0 && p !in o.ids && |o.ids| + 1 < MSB
    ensures var o1 := Register(o, p).0;
      var n1 := Begun(n, o.next, t);
      InStep(schema, heap, o1, n1) && Grows(o, n, o1, n1) && Mapped(o1, n1, p) && Image(o1, n1, p) == n.unused
      && o1.ids.Keys == o.ids.Keys + {p}
  {
    RegisterNew(heap, o, p);
    LinkNew(o.ids, n.ptrs, n.objects, n.unused, p, o.next, Loaded(t, 0, 0, []));
    hide Register, SameVersions;
    var o1 := Register(o, p).0;
    assert o1 == Out(o.next + 1, o.ids[p := o.next], o.seen);
    var n1 := Begun(n, o.next, t);
    NewGrows(o, n, o1, n1, p, Loaded(t, 0, 0, []));
    hide *;
  }

  lemma NewGrows(o: Out, n: In, o1: Out, n1: In, p: nat, x: Loaded)
    requires Linked(o.ids, n.ptrs, n.objects, n.unused) && p != 0 && p !in o.ids && forall a :: a in o.ids ==>
      o.ids[a] < o.next
    requires o1.ids == o.ids[p := o.next] && n1.ptrs == n.ptrs[o.next := n.unused]
    requires n1.objects == n.objects[n.unused := x] && n1.unused == n.unused + 1
    ensures Grows(o, n, o1, n1) && Mapped(o1, n1, p) && Image(o1, n1, p) == n.unused
    ensures o1.ids.Keys == o.ids.Keys + {p}
  {
    assert forall a :: a in o.ids ==> a != p && o1.ids[a] == o.ids[a] != o.next;
  }

  lemma VersionRead(n: In, t: nat, v: nat, vs: seq<Token>, suffix: seq<Token>)
    requires if t in n.versions then n.versions[t] == v && vs == [] else vs == [Version(v)]
    ensures LoadVersion(n, t, vs + suffix) == Ok((In(n.ptrs, n.versions[t := v], n.objects, n.unused), v, suffix))
  {
    var tokens := vs + suffix;
    if t in n.versions {
      assert tokens == suffix && n.versions[t := v] == n.versions;
    } else {
      assert tokens[0] == Version(v) && tokens[1..] == suffix;
    }
  }

  lemma VersionKnown(schema: seq<Class>, versions: map<nat, nat>, seen: set<nat>, t: nat)
    requires SameVersions(schema, versions, seen) && t < |schema|
    ensures SameVersions(schema, versions[t := schema[t].version], seen + {t})
    ensures t in seen <==> t in versions
  {
    assert versions[t := schema[t].version].Keys == seen + {t};
  }

  /** The version is written and read, or known on both sides. */
  lemma StepVersion(schema: seq<Class>, heap: map<nat, Node>, o: Out, n: In, t: nat, suffix: seq<Token>)
    requires InStep(schema, heap, o, n) && t < |schema|
    ensures var (o1, vs) := RegisterVersion(schema, o, t);
      var n1 := In(n.ptrs, n.versions[t := schema[t].version], n.objects, n.unused);
      LoadVersion(n, t, vs + suffix) == Ok((n1, schema[t].version, suffix))
      && InStep(schema, heap, o1, n1) && o1.ids == o.ids
  {
    hide Linked, LoadVersion;
    VersionKnown(schema, n.versions, o.seen, t);
    assert t in o.seen ==> n.versions[t] == schema[t].version;
    hide SameVersions;
    VersionRead(n, t, schema[t].version, RegisterVersion(schema, o, t).1, suffix);
  }

  /** Announcing classes one after the other while saving. */
  function WriteVersions(schema: seq<Class>, o: Out, ts: seq<nat>): (Out, seq<Token>)
    requires forall i :: 0 <= i < |ts| ==> ts[i] < |schema|
    decreases |ts|
  {
    if ts == [] then (o, []) else
    var (o1, vs) := RegisterVersion(schema, o, ts[0]);
    var (o2, more) := WriteVersions(schema, o1, ts[1..]);
    (o2, vs + more)
  }

  /** Asking for their versions while loading. */
  function ReadVersions(n: In, ts: seq<nat>, tokens: seq<Token>): Result<(In, seq<nat>, seq<Token>)>
    decreases |ts|
  {
    if ts == [] then Ok((n, [], tokens)) else
    var head := LoadVersion(n, ts[0], tokens);
    if head.Failure? then Failure else
    var tail := ReadVersions(head.value.0, ts[1..], head.value.2);
    if tail.Failure? then Failure else
    Ok((tail.value.0, [head.value.1] + tail.value.1, tail.value.2))
  }

  function VersionsOf(schema: seq<Class>, ts: seq<nat>): (vs: seq<nat>)
    requires forall i :: 0 <= i < |ts| ==> ts[i] < |schema|
    ensures |vs| == |ts|
  {
    seq(|ts|, i requires 0 <= i < |ts| => schema[ts[i]].version)
  }

  function Unseen(ts: seq<nat>, seen: set<nat>): set<nat> {
    set t | t in ts && t !in seen
  }

  lemma UnseenStep(ts: seq<nat>, seen: set<nat>)
    requires ts != []
    ensures |Unseen(ts, seen)| == (if ts[0] in seen then 0 else 1) + |Unseen(ts[1..], seen + {ts[0]})|
  {
    var rest := Unseen(ts[1..], seen + {ts[0]});
    assert ts == [ts[0]] + ts[1..];
    if ts[0] in seen {
      assert Unseen(ts, seen) == rest;
    } else {
      assert Unseen(ts, seen) == {ts[0]} + rest;
    }
  }

  /** Over any run: one version is written for each class that is new, every load
      is given the version of its class, and what follows is left in the stream. */
  lemma {:induction false} VersionsInLockstep(schema: seq<Class>, heap: map<nat, Node>, o: Out, n: In, ts: seq<nat>,
                                              suffix: seq<Token>) returns (n': In)
    requires InStep(schema, heap, o, n) && forall i :: 0 <= i < |ts| ==> ts[i] < |schema|
    ensures var (o', tokens) := WriteVersions(schema, o, ts);
      && |tokens| == |Unseen(ts, o.seen)| && InStep(schema, heap, o', n')
      && ReadVersions(n, ts, tokens + suffix) == Ok((n', VersionsOf(schema, ts), suffix))
    decreases |ts|
  {
    hide InStep, LoadVersion, Unseen;
    if ts == [] {
      n' := n;
      NoneUnseen(o.seen);
      assert [] + suffix == suffix;
    } else {
      var t, rest := ts[0], ts[1..];
      var o1, vs := RegisterVersion(schema, o, t).0, RegisterVersion(schema, o, t).1;
      var more := WriteVersions(schema, o1, rest).1;
      StepVersion(schema, heap, o, n, t, more + suffix);
      UnseenStep(ts, o.seen);
      var n1 := In(n.ptrs, n.versions[t := schema[t].version], n.objects, n.unused);
      n' := VersionsInLockstep(schema, heap, o1, n1, rest, suffix);
      assert vs + more + suffix == vs + (more + suffix);
      assert VersionsOf(schema, ts) == [schema[t].version] + VersionsOf(schema, rest);
    }
  }

  lemma NoneUnseen(seen: set<nat>)
    ensures Unseen([], seen) == {}
  {}

  // ----- round trip

  /** The archives have moved on together. */
  ghost predicate Together(schema: seq<Class>, heap: map<nat, Node>, o: Out, n: In, o': Out, n': In) {
    InStep(schema, heap, o', n') && Grows(o, n, o', n') && NewRebuilt(schema, heap, o, o', n')
  }

  lemma TogetherNow(schema: seq<Class>, heap: map<nat, Node>, o: Out, n: In)
    requires InStep(schema, heap, o, n)
    ensures Together(schema, heap, o, n, o, n)
  {}

  lemma TogetherOn(schema: seq<Class>, heap: map<nat, Node>, o: Out, n: In, o1: Out, n1: In, o2: Out, n2: In)
    requires Together(schema, heap, o, n, o1, n1) && Together(schema, heap, o1, n1, o2, n2)
    ensures Together(schema, heap, o, n, o2, n2)
  {
    hide Grows, NewRebuilt, InStep;
    GrowsOn(o, n, o1, n1, o2, n2);
    NewOn(schema, heap, o, o1, n1, o2, n2);
  }

  /** The object is filled in after everything below it has been loaded. */
  lemma Filled(schema: seq<Class>, heap: map<nat, Node>, o: Out, n: In, o1: Out, n1: In, o3: Out, n3: In, p: nat)
    requires p in heap && p != 0 && heap[p].cls < |schema| && InStep(schema, heap, o, n)
    requires Grows(o, n, o1, n1) && Mapped(o1, n1, p) && Image(o1, n1, p) == n.unused && o1.ids.Keys == o.ids.Keys + {p}
    requires Together(schema, heap, o1, n1, o3, n3)
    requires forall i :: 0 <= i < |heap[p].members| ==> Mapped(o3, n3, heap[p].members[i])
    ensures var x := Loaded(heap[p].cls, schema[heap[p].cls].version, heap[p].payload, Images(o3, n3, heap[p].members));
      var n4 := In(n3.ptrs, n3.versions, n3.objects[n.unused := x], n3.unused);
      Together(schema, heap, o, n, o3, n4) && Mapped(o3, n4, p) && Image(o3, n4, p) == n.unused
  {
    var q := n.unused;
    var x := Loaded(heap[p].cls, schema[heap[p].cls].version, heap[p].payload, Images(o3, n3, heap[p].members));
    var n4 := In(n3.ptrs, n3.versions, n3.objects[q := x], n3.unused);
    assert p in o1.ids;
    hide Linked, SameVersions, Sane, Grows, Mapped, Image, Images, Rebuilt, Typed, InStep;
    MappedOn(o1, n1, o3, n3, p);
    GrowsOn(o, n, o1, n1, o3, n3);
    FillKeeps(schema, heap, o3, n3, q, x, p);
    FillGrows(schema, heap, o, n, o3, n3, n4, x);
    KeysGrow(o1, n1, o3, n3);
    forall a | a in o3.ids && a !in o.ids
      ensures a in heap && heap[a].cls < |schema| && Rebuilt(schema, heap, o3, n4, a)
    {
      if a == p {
        FillRebuilds(schema, heap, o3, n3, n4, p);
      } else {
        assert a !in o1.ids;
        FillApart(schema, heap, o3, n3, n4, q, x, p, a);
      }
    }
    FillMapped(o3, n3, n4, p);
  }

  lemma KeysGrow(o: Out, n: In, o': Out, n': In)
    requires Grows(o, n, o', n')
    ensures o.ids.Keys <= o'.ids.Keys
  {
    hide Mapped, Image;
  }

  lemma FillMapped(o: Out, n: In, n4: In, p: nat)
    requires n4.ptrs == n.ptrs
    ensures Mapped(o, n4, p) == Mapped(o, n, p) && Image(o, n4, p) == Image(o, n, p)
  {}

  lemma FillKeeps(schema: seq<Class>, heap: map<nat, Node>, o: Out, n: In, q: nat, x: Loaded, p: nat)
    requires InStep(schema, heap, o, n) && p != 0 && Mapped(o, n, p) && Image(o, n, p) == q
    ensures InStep(schema, heap, o, In(n.ptrs, n.versions, n.objects[q := x], n.unused))
  {
    hide SameVersions;
  }

  lemma FillGrows(schema: seq<Class>, heap: map<nat, Node>, o: Out, n: In, o3: Out, n3: In, n4: In, x: Loaded)
    requires Grows(o, n, o3, n3) && InStep(schema, heap, o, n)
    requires n4 == In(n3.ptrs, n3.versions, n3.objects[n.unused := x], n3.unused)
    ensures Grows(o, n, o3, n4)
  {}

  lemma FillRebuilds(schema: seq<Class>, heap: map<nat, Node>, o: Out, n: In, n4: In, p: nat)
    requires p in heap && heap[p].cls < |schema| && p != 0 && Mapped(o, n, p)
    requires forall i :: 0 <= i < |heap[p].members| ==> Mapped(o, n, heap[p].members[i])
    requires n4 == In(n.ptrs, n.versions, n.objects[Image(o, n, p) :=
      Loaded(heap[p].cls, schema[heap[p].cls].version, heap[p].payload, Images(o, n, heap[p].members))], n.unused)
    ensures Rebuilt(schema, heap, o, n4, p)
  {
    assert Images(o, n4, heap[p].members) == Images(o, n, heap[p].members);
  }

  lemma FillApart(schema: seq<Class>, heap: map<nat, Node>, o: Out, n: In, n4: In, q: nat, x: Loaded, p: nat, a: nat)
    requires a in heap && heap[a].cls < |schema| && Rebuilt(schema, heap, o, n, a) && a != p && a in o.ids && p in o.ids
    requires InStep(schema, heap, o, n) && p != 0 && Mapped(o, n, p) && Image(o, n, p) == q
    requires n4 == In(n.ptrs, n.versions, n.objects[q := x], n.unused)
    ensures Rebuilt(schema, heap, o, n4, a)
  {
    hide SameVersions;
    assert Image(o, n, a) != q;
    assert Images(o, n4, heap[a].members) == Images(o, n, heap[a].members);
  }

  /** Loading what stands for a pointer seen for the first time. */
  lemma LoadNew(schema: seq<Class>, n: In, t: nat, id: nat, vs: seq<Token>, x: int, ms: seq<Token>, suffix: seq<Token>,
                n1: In, n2: In, v: nat, n3: In, qs: seq<nat>)
    requires t < |schema| && id >= MSB
    requires n1 == Begun(n, id - MSB, t)
    requires LoadVersion(n1, t, vs + ([Data(x)] + (ms + suffix))) == Ok((n2, v, [Data(x)] + (ms + suffix)))
    requires LoadAll(schema, n2, schema[t].members, ms + suffix) == Ok((n3, qs, suffix))
    ensures Load(schema, n, t, [Id(id)] + vs + [Data(x)] + ms + suffix)
         == Ok((In(n3.ptrs, n3.versions, n3.objects[n.unused := Loaded(t, v, x, qs)], n3.unused), n.unused, suffix))
  {
    hide *;
    var rest := vs + ([Data(x)] + (ms + suffix));
    LoadFirstIs(schema, n1, t, n.unused, rest, x, ms + suffix, n2, v, n3, qs, suffix);
    LoadId(schema, n, t, id, rest);
    Joined(Id(id), vs, Data(x), ms, suffix);
  }

  lemma Joined(a: Token, b: seq<Token>, c: Token, d: seq<Token>, e: seq<Token>)
    ensures [a] + b + [c] + d + e == [a] + (b + ([c] + (d + e)))
  {}

  lemma LoadId(schema: seq<Class>, n: In, t: nat, id: nat, rest: seq<Token>)
    requires t < |schema| && id >= MSB
    ensures Load(schema, n, t, [Id(id)] + rest)
         == LoadFirst(schema, Begun(n, id - MSB, t), t, n.unused, rest)
  {
    hide *;
    var tokens := [Id(id)] + rest;
    assert tokens[0] == Id(id) && tokens[1..] == rest;
    LoadMarked(schema, n, t, id, tokens);
  }

  lemma LoadMarked(schema: seq<Class>, n: In, t: nat, id: nat, tokens: seq<Token>)
    requires t < |schema| && id >= MSB && tokens != [] && tokens[0] == Id(id)
    ensures Load(schema, n, t, tokens)
         == LoadFirst(schema, Begun(n, id - MSB, t), t, n.unused, tokens[1..])
  {
    hide LoadFirst, LoadAll, LoadVersion;
  }

  lemma LoadFirstIs(schema: seq<Class>, n: In, t: nat, q: nat, tokens: seq<Token>, x: int, after: seq<Token>,
                    n2: In, v: nat, n3: In, qs: seq<nat>, left: seq<Token>)
    requires t < |schema| && LoadVersion(n, t, tokens) == Ok((n2, v, [Data(x)] + after))
    requires LoadAll(schema, n2, schema[t].members, after) == Ok((n3, qs, left))
    ensures LoadFirst(schema, n, t, q, tokens)
         == Ok((In(n3.ptrs, n3.versions, n3.objects[q := Loaded(t, v, x, qs)], n3.unused), q, left))
  {
    hide LoadVersion, LoadAll;
    assert ([Data(x)] + after)[1..] == after;
  }

  /** Loading what stands for null or for a pointer seen before. */
  lemma LoadOld(schema: seq<Class>, heap: map<nat, Node>, o: Out, n: In, p: nat, t: nat, suffix: seq<Token>)
    requires t < |schema| && InStep(schema, heap, o, n) && (p == 0 || p in o.ids)
    ensures Mapped(o, n, p) && Register(o, p).0 == o
    ensures Load(schema, n, t, [Id(Register(o, p).1)] + suffix) == Ok((n, Image(o, n, p), suffix))
  {
    hide SameVersions;
    assert ([Id(Register(o, p).1)] + suffix)[1..] == suffix;
  }

  lemma SaneIn(schema: seq<Class>, heap: map<nat, Node>, o: Out, n: In)
    requires InStep(schema, heap, o, n)
    ensures Sane(heap, o)
  {}

  lemma VersionTogether(schema: seq<Class>, heap: map<nat, Node>, o: Out, n: In, o': Out, n': In)
    requires InStep(schema, heap, o, n) && InStep(schema, heap, o', n')
    requires o'.ids == o.ids && n'.ptrs == n.ptrs && n'.objects == n.objects && n'.unused == n.unused
    ensures Together(schema, heap, o, n, o', n')
  {
    hide SameVersions, Sane, Rebuilt;
    forall a ensures Mapped(o', n', a) == Mapped(o, n, a) && Image(o', n', a) == Image(o, n, a) {}
    assert forall a :: a in o.ids ==> Mapped(o, n, a);
    hide Mapped, Image, Linked;
  }

  lemma MemberTypes(schema: seq<Class>, heap: map<nat, Node>, p: nat)
    requires Typed(schema, heap) && p in heap
    ensures heap[p].cls < |schema| && p != 0 && AllTyped(heap, heap[p].members, schema[heap[p].cls].members)
    ensures forall i :: 0 <= i < |schema[heap[p].cls].members| ==> schema[heap[p].cls].members[i] < |schema|
    ensures forall i :: 0 <= i < |heap[p].members| ==> heap[p].members[i] == 0 || heap[p].members[i] in heap
  {}

  lemma SaveNew(schema: seq<Class>, heap: map<nat, Node>, o: Out, p: nat)
    returns (o1: Out, id: nat, o2: Out, vs: seq<Token>, o3: Out, ms: seq<Token>)
    requires Typed(schema, heap) && Sane(heap, o) && p in heap && p != 0 && p !in o.ids && Room(heap, o, [p])
    ensures heap[p].cls < |schema|
    ensures (forall i :: 0 <= i < |heap[p].members| ==> heap[p].members[i] == 0 || heap[p].members[i] in heap)
    ensures (o1, id) == Register(o, p) && (o2, vs) == RegisterVersion(schema, o1, heap[p].cls)
    ensures Sane(heap, o2) && o2.ids == o1.ids && Room(heap, o2, heap[p].members)
    ensures |o.ids| + 1 < MSB && |heap.Keys - o2.ids.Keys| < |heap.Keys - o.ids.Keys|
    ensures (o3, ms) == SaveAll(schema, heap, o2, heap[p].members)
    ensures Save(schema, heap, o, p) == (o3, [Id(id)] + vs + [Data(heap[p].payload)] + ms)
  {
    SaveBegins(schema, heap, o, p);
    hide Typed, Room, Reach, Sane, Register;
    o1, id := Register(o, p).0, Register(o, p).1;
    o2, vs := RegisterVersion(schema, o1, heap[p].cls).0, RegisterVersion(schema, o1, heap[p].cls).1;
    o3, ms := SaveAll(schema, heap, o2, heap[p].members).0, SaveAll(schema, heap, o2, heap[p].members).1;
    hide SaveAll;
  }

  /** What save writes for a pointer, load reads back, from any stream that goes
      on after it; the archives stay in step, and everything saved is rebuilt. */
  lemma {:induction false} RoundTrip(schema: seq<Class>, heap: map<nat, Node>, o: Out, n: In, p: nat, t: nat,
                                     suffix: seq<Token>)
    returns (n': In)
    requires Typed(schema, heap) && InStep(schema, heap, o, n) && t < |schema| && TypedPointer(heap, p, t)
    requires Room(heap, o, [p])
    ensures var (o', tokens) := Save(schema, heap, o, p);
      && Together(schema, heap, o, n, o', n') && Mapped(o', n', p)
      && Load(schema, n, t, tokens + suffix) == Ok((n', Image(o', n', p), suffix))
    decreases |heap.Keys - o.ids.Keys|, 1, 0
  {
    SaneIn(schema, heap, o, n);
    hide Load, LoadFirst, LoadAll, LoadVersion, InStep, Together, Grows, Mapped, Image, Images, Register,
         RegisterVersion,
         Linked, SaveAll, Typed, Sane, Room, Reach;
    if p == 0 || p in o.ids {
      LoadOld(schema, heap, o, n, p, t, suffix);
      TogetherNow(schema, heap, o, n);
      n' := n;
    } else {
      MemberTypes(schema, heap, p);
      hide Save;
      n' := RoundTripNew(schema, heap, o, n, p, t, suffix);
    }
  }

  lemma {:induction false} RoundTripNew(schema: seq<Class>, heap: map<nat, Node>, o: Out, n: In, p: nat, t: nat,
                                        suffix: seq<Token>)
    returns (n4: In)
    requires Typed(schema, heap) && InStep(schema, heap, o, n) && t < |schema| && p in heap && heap[p].cls == t
    requires p !in o.ids
    requires Room(heap, o, [p])
    ensures Sane(heap, o)
    ensures var (o', tokens) := Save(schema, heap, o, p);
      && Together(schema, heap, o, n, o', n4) && Mapped(o', n4, p)
      && Load(schema, n, t, tokens + suffix) == Ok((n4, Image(o', n4, p), suffix))
    decreases |heap.Keys - o.ids.Keys|, 0, 0
  {
    SaneIn(schema, heap, o, n);
    MemberTypes(schema, heap, p);
    RoomNew(heap, o, p);
    hide *;
    var o1, id, o2, vs, o3, ms := SaveNew(schema, heap, o, p);
    var node := heap[p];
    var n1, n2 := NewStart(schema, heap, o, n, p, t, [Data(node.payload)] + (ms + suffix), o1, id, o2, vs);
    var n3 := RoundTripAll(schema, heap, o2, n2, node.members, schema[t].members, suffix);
    n4 := NewDone(schema, heap, o, n, p, t, suffix, id, vs, ms, o1, n1, o2, n2, o3, n3);
  }

  /** The new object is registered, and its version is known, on both sides. */
  lemma NewStart(schema: seq<Class>, heap: map<nat, Node>, o: Out, n: In, p: nat, t: nat, rest: seq<Token>,
                 o1: Out, id: nat, o2: Out, vs: seq<Token>)
    returns (n1: In, n2: In)
    requires InStep(schema, heap, o, n) && Sane(heap, o) && t < |schema| && p in heap && p != 0 && p !in o.ids
    requires |o.ids| + 1 < MSB && (o1, id) == Register(o, p) && (o2, vs) == RegisterVersion(schema, o1, t)
    ensures id >= MSB && n1 == Begun(n, id - MSB, t)
    ensures Grows(o, n, o1, n1) && Mapped(o1, n1, p) && Image(o1, n1, p) == n.unused && o1.ids.Keys == o.ids.Keys + {p}
    ensures LoadVersion(n1, t, vs + rest) == Ok((n2, schema[t].version, rest))
    ensures InStep(schema, heap, o2, n2) && Together(schema, heap, o1, n1, o2, n2)
  {
    hide *;
    NewId(heap, o, p);
    StepNew(schema, heap, o, n, p, t);
    n1 := Begun(n, o.next, t);
    StepVersion(schema, heap, o1, n1, t, rest);
    n2 := In(n1.ptrs, n1.versions[t := schema[t].version], n1.objects, n1.unused);
    VersionTogether(schema, heap, o1, n1, o2, n2);
  }

  lemma NewId(heap: map<nat, Node>, o: Out, p: nat)
    requires Sane(heap, o) && p in heap && p != 0 && p !in o.ids && |o.ids| + 1 < MSB
    ensures Register(o, p).1 >= MSB && Register(o, p).1 - MSB == o.next
  {
    RegisterNew(heap, o, p);
    hide *;
  }

  /** Once its members are loaded, the new object is complete. */
  lemma NewDone(schema: seq<Class>, heap: map<nat, Node>, o: Out, n: In, p: nat, t: nat, suffix: seq<Token>, id: nat,
                vs: seq<Token>, ms: seq<Token>, o1: Out, n1: In, o2: Out, n2: In, o3: Out, n3: In)
    returns (n4: In)
    requires t < |schema| && p in heap && p != 0 && heap[p].cls == t && id >= MSB && InStep(schema, heap, o, n)
    requires n1 == Begun(n, id - MSB, t)
    requires Grows(o, n, o1, n1) && Mapped(o1, n1, p) && Image(o1, n1, p) == n.unused && o1.ids.Keys == o.ids.Keys + {p}
    requires Together(schema, heap, o1, n1, o2, n2) && Together(schema, heap, o2, n2, o3, n3)
    requires forall i :: 0 <= i < |heap[p].members| ==> Mapped(o3, n3, heap[p].members[i])
    requires LoadVersion(n1, t, vs + ([Data(heap[p].payload)] + (ms + suffix)))
          == Ok((n2, schema[t].version, [Data(heap[p].payload)] + (ms + suffix)))
    requires LoadAll(schema, n2, schema[t].members, ms + suffix)
          == Ok((n3, Images(o3, n3, heap[p].members), suffix))
    ensures Together(schema, heap, o, n, o3, n4) && Mapped(o3, n4, p)
    ensures Load(schema, n, t, [Id(id)] + vs + [Data(heap[p].payload)] + ms + suffix)
         == Ok((n4, Image(o3, n4, p), suffix))
  {
    hide *;
    TogetherOn(schema, heap, o1, n1, o2, n2, o3, n3);
    Filled(schema, heap, o, n, o1, n1, o3, n3, p);
    var qs := Images(o3, n3, heap[p].members);
    LoadNew(schema, n, t, id, vs, heap[p].payload, ms, suffix, n1, n2, schema[t].version, n3, qs);
    var x := Loaded(t, schema[t].version, heap[p].payload, qs);
    n4 := In(n3.ptrs, n3.versions, n3.objects[n.unused := x], n3.unused);
  }

  lemma {:induction false} RoundTripAll(schema: seq<Class>, heap: map<nat, Node>, o: Out, n: In, ps: seq<nat>,
                                        ts: seq<nat>, suffix: seq<Token>)
    returns (n': In)
    requires Typed(schema, heap) && InStep(schema, heap, o, n) && AllTyped(heap, ps, ts)
    requires (forall i :: 0 <= i < |ts| ==> ts[i] < |schema|) && Room(heap, o, ps)
    ensures Sane(heap, o) && forall i :: 0 <= i < |ps| ==> ps[i] == 0 || ps[i] in heap
    ensures var (o', tokens) := SaveAll(schema, heap, o, ps);
      && Together(schema, heap, o, n, o', n') && (forall i :: 0 <= i < |ps| ==> Mapped(o', n', ps[i]))
      && LoadAll(schema, n, ts, tokens + suffix) == Ok((n', Images(o', n', ps), suffix))
    decreases |heap.Keys - o.ids.Keys|, 2, |ps|, 1
  {
    SaneIn(schema, heap, o, n);
    MembersKnown(heap, ps, ts);
    hide *;
    if ps == [] {
      NoMembers(schema, heap, o, n, suffix);
      TogetherNow(schema, heap, o, n);
      n' := n;
    } else {
      n' := RoundTripMore(schema, heap, o, n, ps, ts, suffix);
    }
  }

  lemma {:induction false} RoundTripMore(schema: seq<Class>, heap: map<nat, Node>, o: Out, n: In, ps: seq<nat>,
                                         ts: seq<nat>, suffix: seq<Token>)
    returns (n': In)
    requires Typed(schema, heap) && InStep(schema, heap, o, n) && Sane(heap, o) && AllTyped(heap, ps, ts) && ps != []
    requires forall i :: 0 <= i < |ps| ==> ps[i] == 0 || ps[i] in heap
    requires (forall i :: 0 <= i < |ts| ==> ts[i] < |schema|) && Room(heap, o, ps)
    ensures var (o', tokens) := SaveAll(schema, heap, o, ps);
      && Together(schema, heap, o, n, o', n') && (forall i :: 0 <= i < |ps| ==> Mapped(o', n', ps[i]))
      && LoadAll(schema, n, ts, tokens + suffix) == Ok((n', Images(o', n', ps), suffix))
    decreases |heap.Keys - o.ids.Keys|, 2, |ps|, 0
  {
    hide *;
    var o1, head, o2, tail := SaveMore(schema, heap, o, ps);
    MembersTail(heap, ps, ts);
    RoomHead(heap, o, ps);
    var n1 := RoundTrip(schema, heap, o, n, ps[0], ts[0], tail + suffix);
    FewerLeft(heap, o, o1);
    TogetherIn(schema, heap, o, n, o1, n1);
    n' := RoundTripAll(schema, heap, o1, n1, ps[1..], ts[1..], suffix);
    TogetherOn(schema, heap, o, n, o1, n1, o2, n');
    AllMapped(schema, heap, o1, n1, o2, n', ps);
    LoadMore(schema, n, ts, head, tail, suffix, n1, Image(o1, n1, ps[0]), n', Images(o2, n', ps[1..]));
  }

  lemma MembersKnown(heap: map<nat, Node>, ps: seq<nat>, ts: seq<nat>)
    requires AllTyped(heap, ps, ts)
    ensures |ps| == |ts| && forall i :: 0 <= i < |ps| ==> ps[i] == 0 || ps[i] in heap
  {}

  lemma MembersTail(heap: map<nat, Node>, ps: seq<nat>, ts: seq<nat>)
    requires AllTyped(heap, ps, ts) && ps != []
    ensures |ts| == |ps| && TypedPointer(heap, ps[0], ts[0]) && AllTyped(heap, ps[1..], ts[1..])
  {}

  lemma NoMembers(schema: seq<Class>, heap: map<nat, Node>, o: Out, n: In, suffix: seq<Token>)
    requires Typed(schema, heap) && Sane(heap, o) && Room(heap, o, [])
    ensures SaveAll(schema, heap, o, []) == (o, []) && Images(o, n, []) == []
    ensures LoadAll(schema, n, [], [] + suffix) == Ok((n, [], suffix))
  {
    assert [] + suffix == suffix;
  }

  lemma SaveMore(schema: seq<Class>, heap: map<nat, Node>, o: Out, ps: seq<nat>)
    returns (o1: Out, head: seq<Token>, o2: Out, tail: seq<Token>)
    requires Typed(schema, heap) && Sane(heap, o) && ps != [] && Room(heap, o, ps)
    requires forall i :: 0 <= i < |ps| ==> ps[i] == 0 || ps[i] in heap
    ensures Room(heap, o, [ps[0]])
    ensures (o1, head) == Save(schema, heap, o, ps[0]) && Sane(heap, o1) && o.ids.Keys <= o1.ids.Keys
    ensures o1.ids.Keys <= o.ids.Keys + Reach(heap, [ps[0]]) && Room(heap, o1, ps[1..])
    ensures (o2, tail) == SaveAll(schema, heap, o1, ps[1..])
    ensures SaveAll(schema, heap, o, ps) == (o2, head + tail)
  {
    RoomHead(heap, o, ps);
    hide Typed, Sane, Save, Reach;
    o1, head := Save(schema, heap, o, ps[0]).0, Save(schema, heap, o, ps[0]).1;
    RoomTail(heap, o, o1, ps);
    hide Room;
    o2, tail := SaveAll(schema, heap, o1, ps[1..]).0, SaveAll(schema, heap, o1, ps[1..]).1;
  }

  lemma TogetherIn(schema: seq<Class>, heap: map<nat, Node>, o: Out, n: In, o': Out, n': In)
    requires Together(schema, heap, o, n, o', n')
    ensures InStep(schema, heap, o', n') && NewRebuilt(schema, heap, o, o', n')
  {}

  lemma AllMapped(schema: seq<Class>, heap: map<nat, Node>, o: Out, n: In, o': Out, n': In, ps: seq<nat>)
    requires Together(schema, heap, o, n, o', n') && ps != [] && Mapped(o, n, ps[0])
    requires forall i :: 0 <= i < |ps[1..]| ==> Mapped(o', n', ps[1..][i])
    ensures forall i :: 0 <= i < |ps| ==> Mapped(o', n', ps[i])
    ensures Images(o', n', ps) == [Image(o, n, ps[0])] + Images(o', n', ps[1..])
  {
    hide Grows, InStep, NewRebuilt;
    MappedOn(o, n, o', n', ps[0]);
    hide Mapped, Image;
    forall i | 0 <= i < |ps| ensures Mapped(o', n', ps[i]) {
      assert i > 0 ==> ps[1..][i - 1] == ps[i];
    }
  }

  lemma LoadMore(schema: seq<Class>, n: In, ts: seq<nat>, head: seq<Token>, tail: seq<Token>, suffix: seq<Token>,
                 n1: In, q: nat, n2: In, qs: seq<nat>)
    requires ts != [] && ts[0] < |schema|
    requires Load(schema, n, ts[0], head + (tail + suffix)) == Ok((n1, q, tail + suffix))
    requires LoadAll(schema, n1, ts[1..], tail + suffix) == Ok((n2, qs, suffix))
    ensures LoadAll(schema, n, ts, head + tail + suffix) == Ok((n2, [q] + qs, suffix))
  {
    hide Load;
    assert head + tail + suffix == head + (tail + suffix);
  }

  lemma NewInStep(schema: seq<Class>, heap: map<nat, Node>)
    ensures InStep(schema, heap, NEW_OUT, NEW_IN) && Sane(heap, NEW_OUT)
  {}

  /** qs is ps up to new addresses: null where ps is, equal where ps is. */
  ghost predicate SameAliasing(ps: seq<nat>, qs: seq<nat>) {
    && |qs| == |ps| && (forall i :: 0 <= i < |ps| ==> (qs[i] == 0 <==> ps[i] == 0))
    && forall i, j :: 0 <= i < |ps| && 0 <= j < |ps| ==> (qs[i] == qs[j] <==> ps[i] == ps[j])
  }

  /** Everything that can be reached from ps has been saved, and everything saved
      has been rebuilt, each object with the version it was saved with. */
  ghost predicate AllRebuilt(schema: seq<Class>, heap: map<nat, Node>, o: Out, n: In, ps: seq<nat>) {
    && (forall i :: 0 <= i < |ps| && ps[i] != 0 ==> ps[i] in o.ids)
    && forall a :: a in o.ids ==>
         && a in heap && heap[a].cls < |schema| && Rebuilt(schema, heap, o, n, a)
         && forall i :: 0 <= i < |heap[a].members| && heap[a].members[i] != 0 ==> heap[a].members[i] in o.ids
  }

  lemma ImagesAlias(schema: seq<Class>, heap: map<nat, Node>, o: Out, n: In, ps: seq<nat>)
    requires InStep(schema, heap, o, n) && forall i :: 0 <= i < |ps| ==> Mapped(o, n, ps[i])
    ensures SameAliasing(ps, Images(o, n, ps))
  {
    hide SameVersions, Sane;
    forall i, j | 0 <= i < |ps| && 0 <= j < |ps|
      ensures (Image(o, n, ps[i]) == 0 <==> ps[i] == 0)
      ensures (Image(o, n, ps[i]) == Image(o, n, ps[j]) <==> ps[i] == ps[j])
    {
      assert Mapped(o, n, ps[i]) && Mapped(o, n, ps[j]);
    }
    hide Image, Mapped, Linked;
  }

  lemma AllNewRebuilt(schema: seq<Class>, heap: map<nat, Node>, o: Out, n: In, ps: seq<nat>)
    requires NewRebuilt(schema, heap, NEW_OUT, o, n) && forall i :: 0 <= i < |ps| ==> Mapped(o, n, ps[i])
    ensures AllRebuilt(schema, heap, o, n, ps)
  {
    forall i | 0 <= i < |ps| && ps[i] != 0 ensures ps[i] in o.ids {
      assert Mapped(o, n, ps[i]);
    }
    forall a | a in o.ids
      ensures a in heap && heap[a].cls < |schema| && Rebuilt(schema, heap, o, n, a)
      ensures forall i :: 0 <= i < |heap[a].members| && heap[a].members[i] != 0 ==> heap[a].members[i] in o.ids
    {
      assert a !in NEW_OUT.ids;
      hide Images, Image;
      forall i | 0 <= i < |heap[a].members| && heap[a].members[i] != 0 ensures heap[a].members[i] in o.ids {
        assert Mapped(o, n, heap[a].members[i]);
      }
    }
    hide Rebuilt, Mapped;
  }

  /** A graph of shared pointers, with sharing and cycles, survives. */
  lemma GraphSurvives(schema: seq<Class>, heap: map<nat, Node>, ps: seq<nat>, ts: seq<nat>)
    returns (n: In, qs: seq<nat>)
    requires Typed(schema, heap) && AllTyped(heap, ps, ts) && forall i :: 0 <= i < |ts| ==> ts[i] < |schema|
    requires |Reach(heap, ps)| < MSB
    ensures Sane(heap, NEW_OUT) && Room(heap, NEW_OUT, ps) && forall i :: 0 <= i < |ps| ==> ps[i] == 0 || ps[i] in heap
    ensures var (o, tokens) := SaveAll(schema, heap, NEW_OUT, ps);
      LoadAll(schema, NEW_IN, ts, tokens) == Ok((n, qs, [])) && SameAliasing(ps, qs) &&
      AllRebuilt(schema, heap, o, n, ps)
      && o.ids.Keys == Reach(heap, ps) && o.next == |Reach(heap, ps)| + 1
  {
    hide *;
    NewInStep(schema, heap);
    NewRoom(heap, ps);
    MembersKnown(heap, ps, ts);
    n := RoundTripAll(schema, heap, NEW_OUT, NEW_IN, ps, ts, []);
    var o, tokens := SaveAll(schema, heap, NEW_OUT, ps).0, SaveAll(schema, heap, NEW_OUT, ps).1;
    assert tokens + [] == tokens;
    qs := Images(o, n, ps);
    TogetherIn(schema, heap, NEW_OUT, NEW_IN, o, n);
    ImagesAlias(schema, heap, o, n, ps);
    AllNewRebuilt(schema, heap, o, n, ps);
    ReachedIsSaved(schema, heap, o, n, ps);
    SaneCounts(heap, o);
  }

  lemma NewRoom(heap: map<nat, Node>, ps: seq<nat>)
    requires |Reach(heap, ps)| < MSB
    ensures Room(heap, NEW_OUT, ps) && NEW_OUT.ids.Keys + Reach(heap, ps) == Reach(heap, ps)
  {
    hide Reach;
    assert NEW_OUT.ids.Keys + Reach(heap, ps) == Reach(heap, ps);
  }

  lemma SaneCounts(heap: map<nat, Node>, o: Out)
    requires Sane(heap, o)
    ensures o.next == |o.ids.Keys| + 1
  {}

  /** Everything that can be reached has been saved. */
  lemma ReachedIsSaved(schema: seq<Class>, heap: map<nat, Node>, o: Out, n: In, ps: seq<nat>)
    requires Typed(schema, heap) && AllRebuilt(schema, heap, o, n, ps)
    ensures Reach(heap, ps) <= o.ids.Keys
  {
    hide Rebuilt, AllTyped;
    forall a | a in Reach(heap, ps) ensures a in o.ids {
      var i :| 0 <= i < |ps| && Reaches(heap, ps[i], a);
      var s: seq<nat> :| Trail(heap, s) && s[0] == ps[i] && s[|s| - 1] == a;
      for k := 0 to |s| - 1
        invariant s[k] in o.ids
      {
        assert s[k + 1] in heap[s[k]].members && s[k + 1] in heap;
      }
    }
  }

  // ----- the archives as objects

  class OutputArchive {
    var currentPointerId: nat
    var sharedPointerMap: map<nat, nat>
    var versionedTypes: set<nat>
    var stream: seq<Token>

    ghost function Book(): Out
      reads `currentPointerId, `sharedPointerMap, `versionedTypes
    {
      Out(currentPointerId, sharedPointerMap, versionedTypes)
    }

    constructor ()
      ensures Book() == NEW_OUT && stream == []
    {
      currentPointerId, sharedPointerMap, versionedTypes, stream := 1, map[], {}, [];
    }

    method RegisterSharedPointer(p: nat) returns (id: nat)
      modifies `currentPointerId, `sharedPointerMap
      ensures (Book(), id) == Register(old(Book()), p)
      ensures p != 0 ==> p in sharedPointerMap && (id == sharedPointerMap[p] || id == WithMsb(sharedPointerMap[p]))
      ensures p != 0 && p !in old(sharedPointerMap) ==> id >= MSB
      ensures p == 0 || p in old(sharedPointerMap) ==>
        id == (if p == 0 then 0 else sharedPointerMap[p]) && Book() == old(Book())
      ensures forall a :: a in old(sharedPointerMap) && a != 0 ==>
        a in sharedPointerMap && sharedPointerMap[a] == old(sharedPointerMap)[a]
    {
      if p == 0 {
        return 0;
      }
      if p !in sharedPointerMap {
        var ptrId := currentPointerId;
        currentPointerId := (currentPointerId + 1) % TWO32;
        sharedPointerMap := sharedPointerMap[p := ptrId];
        return WithMsb(ptrId);
      } else {
        return sharedPointerMap[p];
      }
    }

    method RegisterClassVersion(schema: seq<Class>, t: nat) returns (version: nat)
      requires t < |schema|
      modifies `versionedTypes, `stream
      ensures Book() == RegisterVersion(schema, old(Book()), t).0
      ensures stream == old(stream) + RegisterVersion(schema, old(Book()), t).1
      ensures version == schema[t].version && t in versionedTypes
      ensures stream == old(stream) <==> t in old(versionedTypes)
    {
      version := schema[t].version;
      if t !in versionedTypes {
        stream := stream + [Version(version)];
      }
      versionedTypes := versionedTypes + {t};
    }

    method SavePointer(schema: seq<Class>, heap: map<nat, Node>, p: nat)
      requires Typed(schema, heap) && Sane(heap, Book()) && (p == 0 || p in heap) && Room(heap, Book(), [p])
      modifies this
      ensures Book() == Save(schema, heap, old(Book()), p).0
      ensures stream == old(stream) + Save(schema, heap, old(Book()), p).1
      decreases |heap.Keys - sharedPointerMap.Keys|, 0
    {
      hide Save, SaveAll, Typed, Sane, Register, RegisterVersion, Room, Reach;
      ghost var o := Book();
      IdTells(schema, heap, o, p);
      var id := RegisterSharedPointer(p);
      stream := stream + [Id(id)];
      if id >= MSB {
        ghost var o1, id', o2, vs, o3, ms := SaveNew(schema, heap, o, p);
        var version := RegisterClassVersion(schema, heap[p].cls);
        stream := stream + [Data(heap[p].payload)];
        SaveMembers(schema, heap, heap[p].members);
        Joined4(old(stream), [Id(id)], vs, [Data(heap[p].payload)], ms);
      }
    }

    method SaveMembers(schema: seq<Class>, heap: map<nat, Node>, ps: seq<nat>)
      requires Typed(schema, heap) && Sane(heap, Book()) && Room(heap, Book(), ps)
      requires forall i :: 0 <= i < |ps| ==> ps[i] == 0 || ps[i] in heap
      modifies this
      ensures Book() == SaveAll(schema, heap, old(Book()), ps).0
      ensures stream == old(stream) + SaveAll(schema, heap, old(Book()), ps).1
      decreases |heap.Keys - sharedPointerMap.Keys|, 1
    {
      hide Save, SaveAll, Typed, Sane, Room, Reach;
      ghost var o, before, all, rest := Book(), stream, SaveAll(schema, heap, Book(), ps), ps;
      for i := 0 to |ps|
        invariant rest == ps[i..] && Sane(heap, Book()) && o.ids.Keys <= Book().ids.Keys && Room(heap, Book(), rest)
        invariant SaveAll(schema, heap, Book(), rest).0 == all.0
        invariant before + all.1 == stream + SaveAll(schema, heap, Book(), rest).1
      {
        Next(ps, i);
        ghost var o1, head, o2, tail := SaveMore(schema, heap, Book(), rest);
        FewerLeft(heap, o, Book());
        JoinAssociates(stream, head, tail);
        SavePointer(schema, heap, ps[i]);
        rest := rest[1..];
      }
      SavedAll(schema, heap, Book());
    }
  }

  lemma Next(ps: seq<nat>, i: nat)
    requires i < |ps|
    ensures ps[i..] != [] && ps[i..][0] == ps[i] && ps[i..][1..] == ps[i + 1..]
    ensures forall k :: 0 <= k < |ps[i..]| ==> ps[i..][k] == ps[i + k]
  {}

  lemma SavedAll(schema: seq<Class>, heap: map<nat, Node>, o: Out)
    requires Typed(schema, heap) && Sane(heap, o) && Room(heap, o, [])
    ensures SaveAll(schema, heap, o, []) == (o, [])
  {}

  lemma JoinAssociates(a: seq<Token>, b: seq<Token>, c: seq<Token>)
    ensures a + (b + c) == a + b + c
  {}

  lemma Joined4(s: seq<Token>, a: seq<Token>, b: seq<Token>, c: seq<Token>, d: seq<Token>)
    ensures s + a + b + c + d == s + (a + b + c + d)
  {}

  /** The most significant bit tells whether the pointer is saved in full. */
  lemma IdTells(schema: seq<Class>, heap: map<nat, Node>, o: Out, p: nat)
    requires Typed(schema, heap) && Sane(heap, o) && (p == 0 || p in heap) && Room(heap, o, [p])
    ensures Register(o, p).1 >= MSB <==> p != 0 && p !in o.ids
    ensures !(p != 0 && p !in o.ids) ==>
      Save(schema, heap, o, p) == (o, [Id(Register(o, p).1)]) && Register(o, p).0 == o
  {
    hide SaveAll, Reach, Typed;
    if p in o.ids {
      assert o.ids[p] < o.next;
    } else if p != 0 {
      RoomNew(heap, o, p);
      RegisterNew(heap, o, p);
    }
  }

  // ----- the stream, token by token

  /** What is written for a pointer: null as 0, a known one as its id. For a new one
      the next number with the most significant bit set, its version if its class is
      new, its value, and then its members, in their order. */
  lemma StreamWritten(schema: seq<Class>, heap: map<nat, Node>, o: Out, p: nat)
    requires Typed(schema, heap) && Sane(heap, o) && (p == 0 || p in heap) && Room(heap, o, [p])
    ensures p == 0 ==> Save(schema, heap, o, p) == (o, [Id(0)])
    ensures p in o.ids ==> Save(schema, heap, o, p) == (o, [Id(o.ids[p])])
    ensures p != 0 && p !in o.ids ==>
      var (o', tokens) := Save(schema, heap, o, p);
      NewObject(schema, heap, o, p, o', tokens)
  {
    if p in o.ids || p == 0 {
      IdTells(schema, heap, o, p);
      hide Save, Reach, Room, Reaches;
    } else {
      NewWritten(schema, heap, o, p);
    }
  }

  lemma NewWritten(schema: seq<Class>, heap: map<nat, Node>, o: Out, p: nat)
    requires Typed(schema, heap) && Sane(heap, o) && p in heap && p != 0 && p !in o.ids && Room(heap, o, [p])
    ensures var (o', tokens) := Save(schema, heap, o, p); NewObject(schema, heap, o, p, o', tokens)
  {
    hide Save, SaveAll, Typed, Sane, Room, Reach, Register, RegisterVersion, NewObject;
    var o1, id, o2, vs, o3, ms := SaveNew(schema, heap, o, p);
    NewId(heap, o, p);
    NewIs(schema, heap, o, p, o2);
    NewTokens(schema, heap, o, p, id, vs, o2, o3, ms);
  }

  /** A new object: its id, its version if the class is new, its value, its members. */
  ghost predicate NewObject(schema: seq<Class>, heap: map<nat, Node>, o: Out, p: nat, o': Out, tokens: seq<Token>)
    requires Typed(schema, heap) && p in heap
  {
    var t, first := heap[p].cls, if heap[p].cls in o.seen then 1 else 2;
    && t < |schema| && |tokens| > first && tokens[0] == Id(0x8000_0000 + o.next)
    && (t !in o.seen ==> tokens[1] == Version(schema[t].version))
    && tokens[first] == Data(heap[p].payload)
    && MembersFollow(schema, heap, Out(o.next + 1, o.ids[p := o.next], o.seen + {t}), p, o', tokens[first + 1..])
  }

  lemma NewIs(schema: seq<Class>, heap: map<nat, Node>, o: Out, p: nat, o2: Out)
    requires Sane(heap, o) && p in heap && p != 0 && p !in o.ids && |o.ids| + 1 < MSB && heap[p].cls < |schema|
    requires o2 == RegisterVersion(schema, Register(o, p).0, heap[p].cls).0
    ensures o2 == Out(o.next + 1, o.ids[p := o.next], o.seen + {heap[p].cls})
  {
    RegisterNew(heap, o, p);
    hide Register, Sane;
  }

  lemma NewTokens(schema: seq<Class>, heap: map<nat, Node>, o: Out, p: nat, id: nat, vs: seq<Token>, o2: Out, o': Out,
                  ms: seq<Token>)
    requires Typed(schema, heap) && p in heap && heap[p].cls < |schema| && id == 0x8000_0000 + o.next
    requires (o2, vs) == RegisterVersion(schema, Register(o, p).0, heap[p].cls)
    requires o2 == Out(o.next + 1, o.ids[p := o.next], o.seen + {heap[p].cls})
    requires p !in o.ids && MembersFollow(schema, heap, o2, p, o', ms)
    ensures NewObject(schema, heap, o, p, o', [Id(id)] + vs + [Data(heap[p].payload)] + ms)
  {
    hide Typed, MembersFollow;
    var tokens := [Id(id)] + vs + [Data(heap[p].payload)] + ms;
    assert tokens[|vs| + 2..] == ms && tokens[|vs| + 1] == Data(heap[p].payload);
  }

  /** The members of p come next. */
  ghost predicate MembersFollow(schema: seq<Class>, heap: map<nat, Node>, o: Out, p: nat, o': Out, tokens: seq<Token>)
    requires Typed(schema, heap) && p in heap
  {
    && Sane(heap, o) && Room(heap, o, heap[p].members)
    && (forall i :: 0 <= i < |heap[p].members| ==> heap[p].members[i] == 0 || heap[p].members[i] in heap)
    && (o', tokens) == SaveAll(schema, heap, o, heap[p].members)
  }

  /** What is made of a stream: 0 is null, a smaller id is looked up, and one with the
      most significant bit is a new object, with its version, if its class is new, its
      value and its members behind it. */
  lemma StreamRead(schema: seq<Class>, n: In, t: nat, tokens: seq<Token>)
    requires t < |schema| && Load(schema, n, t, tokens).Ok?
    ensures var (n', q, rest) := Load(schema, n, t, tokens).value;
      var first := if t in n.versions then 1 else 2;
      && |tokens| > 0 && tokens[0].Id?
      && (tokens[0].bits == 0 ==> q == 0 && n' == n && rest == tokens[1..])
      && (0 < tokens[0].bits < 0x8000_0000 ==>
            tokens[0].bits in n.ptrs && q == n.ptrs[tokens[0].bits] && n' == n && rest == tokens[1..])
      && (tokens[0].bits >= 0x8000_0000 ==>
            && q == n.unused && q in n'.objects && |tokens| > first
            && (t !in n.versions ==> tokens[1].Version?) && tokens[first].Data?
            && n'.objects[q].cls == t && n'.objects[q].payload == tokens[first].x
            && n'.objects[q].version == (if t in n.versions then n.versions[t] else tokens[1].v)
            && |n'.objects[q].members| == |schema[t].members|)
  {
    hide LoadAll;
    if tokens[0].bits >= MSB {
      var m := Begun(n, tokens[0].bits - MSB, t);
      var version := LoadVersion(m, t, tokens[1..]);
      assert |tokens[1..]| > 0;
      MembersCount(schema, version.value.0, schema[t].members, version.value.2[1..]);
    }
  }

  lemma {:induction false} MembersCount(schema: seq<Class>, n: In, ts: seq<nat>, tokens: seq<Token>)
    ensures LoadAll(schema, n, ts, tokens).Ok? ==> |LoadAll(schema, n, ts, tokens).value.1| == |ts|
    decreases |ts|
  {
    hide Load;
    if ts == [] {
    } else if ts[0] < |schema| && Load(schema, n, ts[0], tokens).Ok? {
      var (n1, q, rest) := Load(schema, n, ts[0], tokens).value;
      MembersCount(schema, n1, ts[1..], rest);
    }
  }

  // ----- how many pointers there are ids for

  ghost predicate Distinct(ps: seq<nat>) {
    forall i, j :: 0 <= i < j < |ps| ==> ps[i] != ps[j]
  }

  /** The bookkeeping after registering the pointers one after the other. */
  function RegisterEach(ps: seq<nat>): Out {
    if ps == [] then NEW_OUT else Register(RegisterEach(ps[..|ps| - 1]), ps[|ps| - 1]).0
  }

  /** Distinct pointers get the numbers from one on, in a 32-bit counter. */
  lemma {:induction false} RegisteredEach(ps: seq<nat>)
    requires Distinct(ps) && 0 !in ps
    ensures var o := RegisterEach(ps);
      && o.next == Number(|ps|) && (forall p :: p in o.ids <==> p in ps)
      && forall i :: 0 <= i < |ps| ==> o.ids[ps[i]] == Number(i)
  {
    if ps == [] {
    } else {
      hide Number;
      var n: nat := |ps| - 1;
      var front, last := ps[..n], ps[n];
      assert ps == front + [last];
      RegisteredEach(front);
      assert last !in front;
      var o := RegisterEach(front);
      assert RegisterEach(ps) == Register(o, last).0;
      RegisterNext(o, last, n);
      hide Register, RegisterEach, Distinct;
      forall i: nat | i < n ensures ps[i] == front[i] && ps[i] in front && ps[i] != last {}
    }
  }

  /** The number of a pointer registered behind n others. */
  function Number(n: nat): nat {
    (n + 1) % TWO32
  }

  lemma RegisterNext(o: Out, p: nat, n: nat)
    requires p != 0 && p !in o.ids && o.next == Number(n)
    ensures var o1 := Register(o, p).0; o1.next == Number(n + 1) && o1.ids == o.ids[p := Number(n)]
  {}

  /** Exactly how many distinct pointers an archive can tell apart: met again,
      each of them is recognised if and only if they are fewer than 2^31. */
  lemma IdsExact(ps: seq<nat>)
    requires Distinct(ps) && 0 !in ps
    ensures (forall i :: 0 <= i < |ps| ==> Register(RegisterEach(ps), ps[i]).1 < 0x8000_0000) <==> |ps| < 0x8000_0000
  {
    RegisteredEach(ps);
    hide RegisterEach, WithMsb, Number;
    var o := RegisterEach(ps);
    forall i: nat | i < |ps| ensures Register(o, ps[i]).1 == Number(i) && (i < MSB - 1 ==> Number(i) < MSB) {
      assert ps[i] in ps && ps[i] != 0;
      SmallNumber(i);
    }
    if |ps| >= MSB {
      SmallNumber(MSB - 1);
    }
  }

  lemma SmallNumber(n: nat)
    ensures n < MSB - 1 ==> Number(n) == n + 1
    ensures Number(MSB - 1) == MSB
  {}

  /** One pointer: met again, it is recognised if and only if its number leaves
      the most significant bit free. */
  lemma RecognisedAgain(o: Out, p: nat)
    requires p != 0 && p !in o.ids && o.next < TWO32
    ensures Register(Register(o, p).0, p).1 < 0x8000_0000 <==> o.next < 0x8000_0000
  {}

  /** A reachable archive in which this goes wrong: the 2^31st pointer. */
  lemma IdsRunOut() returns (ps: seq<nat>)
    ensures |ps| == MSB && Distinct(ps) && 0 !in ps
    ensures RegisterEach(ps[..MSB - 1]).next == MSB && ps[MSB - 1] !in RegisterEach(ps[..MSB - 1]).ids
    ensures Register(RegisterEach(ps), ps[MSB - 1]).1 >= MSB
  {
    ps := seq(MSB, i requires 0 <= i < MSB => i + 1);
    RegisteredEach(ps);
    RegisteredEach(ps[..MSB - 1]);
    SmallNumber(MSB - 1);
    hide RegisterEach, WithMsb;
    assert ps[MSB - 1] in ps;
  }

  /** Saving a pointer to an object without members, however many there were
      before: the object follows if the id has the most significant bit. */
  function SavePlain(schema: seq<Class>, o: Out, p: nat, node: Node): (Out, seq<Token>)
    requires node.cls < |schema|
  {
    var (o1, id) := Register(o, p);
    if id < MSB then (o1, [Id(id)]) else
    var (o2, vs) := RegisterVersion(schema, o1, node.cls);
    (o2, [Id(id)] + vs + [Data(node.payload)])
  }

  /** As long as the ids last, this is what Save writes. */
  lemma SavePlainIs(schema: seq<Class>, heap: map<nat, Node>, o: Out, p: nat)
    requires Typed(schema, heap) && Sane(heap, o) && p in heap && Room(heap, o, [p]) && heap[p].members == []
    ensures heap[p].cls < |schema| && Save(schema, heap, o, p) == SavePlain(schema, o, p, heap[p])
  {
    hide Reach, Room, Reaches;
    if p !in o.ids {
      var o1, id, o2, vs, o3, ms := SaveNew(schema, heap, o, p);
      RegisterNew(heap, o, p);
      hide Typed, Sane, Save;
      assert o3 == o2 && ms == [];
      assert [Id(id)] + vs + [Data(heap[p].payload)] + [] == [Id(id)] + vs + [Data(heap[p].payload)];
    }
  }

  /** From there on, an object that two pointers share is written twice, and is
      loaded as two objects. */
  lemma AliasLost(schema: seq<Class>, o: Out, n: In, p: nat, node: Node, suffix: seq<Token>)
    returns (n2: In, q1: nat, q2: nat)
    requires node.cls < |schema| && schema[node.cls].members == [] && (node.cls in o.seen <==> node.cls in n.versions)
    requires p != 0 && p !in o.ids && MSB <= o.next < TWO32
    ensures var (o1, first) := SavePlain(schema, o, p, node);
      var (o2, again) := SavePlain(schema, o1, p, node);
      LoadAll(schema, n, [node.cls, node.cls], first + (again + suffix)) == Ok((n2, [q1, q2], suffix))
    ensures q1 != q2 && q1 in n2.objects && q2 in n2.objects
    ensures n2.objects[q1].payload == node.payload == n2.objects[q2].payload
  {
    var t := node.cls;
    var (o1, first) := SavePlain(schema, o, p, node);
    var (o2, again) := SavePlain(schema, o1, p, node);
    var id, id2 := Register(o, p).1, Register(Register(o, p).0, p).1;
    assert id >= MSB && id2 >= MSB && p in o1.ids && o1.ids[p] == o.next == id2;
    hide Register;
    var vs := if t in n.versions then [] else [Version(schema[t].version)];
    var n1 := LoadPlain(schema, n, t, id, vs, node.payload, again + suffix);
    n2 := LoadPlain(schema, n1, t, id2, [], node.payload, suffix);
    q1, q2 := n.unused, n1.unused;
    hide Load;
    assert first == [Id(id)] + vs + [Data(node.payload)];
    assert again == [Id(id2)] + [] + [Data(node.payload)];
    LoadBoth(schema, n, n1, n2, t, q1, q2, first + (again + suffix), again + suffix, suffix);
  }

  lemma LoadBoth(schema: seq<Class>, n: In, n1: In, n2: In, t: nat, q1: nat, q2: nat, tokens: seq<Token>,
                 rest: seq<Token>, suffix: seq<Token>)
    requires t < |schema| && Load(schema, n, t, tokens) == Ok((n1, q1, rest))
    requires Load(schema, n1, t, rest) == Ok((n2, q2, suffix))
    ensures LoadAll(schema, n, [t, t], tokens) == Ok((n2, [q1, q2], suffix))
  {
    hide Load;
    assert [t, t][1..] == [t] && [t][1..] == [];
    assert LoadAll(schema, n2, [], suffix) == Ok((n2, [], suffix));
    assert LoadAll(schema, n1, [t], rest) == Ok((n2, [q2] + [], suffix));
    assert [q1] + ([q2] + []) == [q1, q2];
  }

  /** Loading an object without members. */
  lemma LoadPlain(schema: seq<Class>, n: In, t: nat, id: nat, vs: seq<Token>, x: int, rest: seq<Token>)
    returns (n1: In)
    requires t < |schema| && schema[t].members == [] && id >= MSB
    requires vs == if t in n.versions then [] else [Version(schema[t].version)]
    ensures Load(schema, n, t, [Id(id)] + vs + [Data(x)] + rest) == Ok((n1, n.unused, rest))
    ensures n1.unused == n.unused + 1 && t in n1.versions
    ensures n1.objects.Keys == n.objects.Keys + {n.unused} && n1.objects[n.unused].payload == x
    ensures forall q :: q in n.objects && q != n.unused ==> n1.objects[q] == n.objects[q]
  {
    var after := vs + ([Data(x)] + rest);
    assert [Id(id)] + vs + [Data(x)] + rest == [Id(id)] + after;
    LoadId(schema, n, t, id, after);
    var m := Begun(n, id - MSB, t);
    var v := if t in n.versions then n.versions[t] else schema[t].version;
    var k := In(m.ptrs, m.versions[t := v], m.objects, m.unused);
    VersionRead(m, t, v, vs, [Data(x)] + rest);
    LoadFirstIs(schema, m, t, n.unused, after, x, rest, k, v, k, [], rest);
    n1 := In(k.ptrs, k.versions, k.objects[n.unused := Loaded(t, v, x, [])], k.unused);
  }

  class InputArchive {
    var sharedPointerMap: map<nat, nat>
    var versionedTypes: map<nat, nat>
    var stream: seq<Token>
    /** The objects made so far, and the next free address. */
    var objects: map<nat, Loaded>
    var unused: nat

    ghost function Book(): In
      reads `sharedPointerMap, `versionedTypes, `objects, `unused
    {
      In(sharedPointerMap, versionedTypes, objects, unused)
    }

    constructor (tokens: seq<Token>)
      ensures Book() == NEW_IN && stream == tokens
    {
      sharedPointerMap, versionedTypes, objects, unused, stream := map[], map[], map[], 1, tokens;
    }

    method GetSharedPointer(id: nat) returns (r: Result<nat>)
      ensures r == if id == 0 then Ok(0) else if id in sharedPointerMap then Ok(sharedPointerMap[id]) else Failure
    {
      if id == 0 {
        return Ok(0);
      }
      if id !in sharedPointerMap {
        return Failure;
      }
      return Ok(sharedPointerMap[id]);
    }

    method RegisterSharedPointer(id: nat, ptr: nat)
      requires id >= MSB
      modifies `sharedPointerMap
      ensures sharedPointerMap == old(sharedPointerMap)[id - MSB := ptr]
      ensures forall i :: i in old(sharedPointerMap) && i != id - MSB ==>
        i in sharedPointerMap && sharedPointerMap[i] == old(sharedPointerMap)[i]
    {
      var strippedId := id - MSB;
      sharedPointerMap := sharedPointerMap[strippedId := ptr];
    }

    method LoadClassVersion(t: nat) returns (r: Result<nat>)
      modifies `versionedTypes, `stream
      ensures r.Failure? <==> LoadVersion(old(Book()), t, old(stream)).Failure?
      ensures r.Ok? ==> (Book(), r.value, stream) == LoadVersion(old(Book()), t, old(stream)).value
      ensures r.Ok? ==> t in versionedTypes && versionedTypes[t] == r.value
      ensures r.Ok? ==> (stream == old(stream) <==> t in old(versionedTypes))
    {
      if t in versionedTypes {
        return Ok(versionedTypes[t]);
      }
      if stream == [] || !stream[0].Version? {
        return Failure;
      }
      var version := stream[0].v;
      stream := stream[1..];
      versionedTypes := versionedTypes[t := version];
      return Ok(version);
    }

    method LoadPointer(schema: seq<Class>, t: nat) returns (r: Result<nat>)
      requires t < |schema|
      modifies this
      ensures r.Failure? <==> Load(schema, old(Book()), t, old(stream)).Failure?
      ensures r.Ok? ==> (Book(), r.value, stream) == Load(schema, old(Book()), t, old(stream)).value
      decreases |stream|, 0
    {
      if stream == [] || !stream[0].Id? {
        return Failure;
      }
      var id := stream[0].bits;
      stream := stream[1..];
      if id >= MSB {
        var ptr := unused;
        objects, unused := objects[ptr := Loaded(t, 0, 0, [])], unused + 1;
        RegisterSharedPointer(id, ptr);
        ghost var n1, rest := Book(), stream;
        hide Load, LoadAll, LoadVersion;
        var version := LoadClassVersion(t);
        if version.Failure? || stream == [] || !stream[0].Data? {
          return Failure;
        }
        VersionShortens(n1, t, rest);
        var payload := stream[0].x;
        stream := stream[1..];
        var members := LoadMembers(schema, schema[t].members);
        if members.Failure? {
          return Failure;
        }
        objects := objects[ptr := Loaded(t, version.value, payload, members.value)];
        return Ok(ptr);
      }
      r := GetSharedPointer(id);
    }

    method LoadMembers(schema: seq<Class>, ts: seq<nat>) returns (r: Result<seq<nat>>)
      modifies this
      ensures r.Failure? <==> LoadAll(schema, old(Book()), ts, old(stream)).Failure?
      ensures r.Ok? ==> (Book(), r.value, stream) == LoadAll(schema, old(Book()), ts, old(stream)).value
      decreases |stream|, 1, |ts|
    {
      if ts == [] {
        return Ok([]);
      }
      if ts[0] >= |schema| {
        return Failure;
      }
      hide Load;
      var head := LoadPointer(schema, ts[0]);
      if head.Failure? {
        return Failure;
      }
      var tail := LoadMembers(schema, ts[1..]);
      if tail.Failure? {
        return Failure;
      }
      return Ok([head.value] + tail.value);
    }
  }

  lemma VersionShortens(n: In, t: nat, tokens: seq<Token>)
    ensures var r := LoadVersion(n, t, tokens); r.Ok? ==> |r.value.2| <= |tokens|
  {}
}

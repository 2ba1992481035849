/**
 The user-level memory allocator of section 8.7 of The C Programming Language, 2nd ed.

 Memory is addressed in units of one header (8 bytes). Address 0 is the null pointer,
 address 1 the static header `base`; everything `sbrk` returns lies above. A block starts
 with its header; `size` counts units, the header included.
 */
module Umalloc {
  import opened Options

  const NULL := 0
  const BASE := 1

  datatype Header = Header(ptr: nat, size: nat)
  type Memory = map<nat, Header>

  // ----- the free list -----

  /** Blocks at `ring[i]` of `sz[i]` units, from the base up, disjoint and in order of address. */
  ghost predicate Layout(ring: seq<nat>, sz: seq<nat>) {
    && |ring| == |sz| > 0 && ring[0] == BASE && sz[0] == 0
    && (forall i :: 0 < i < |sz| ==> sz[i] >= 1)
    && (forall i: nat :: 0 < i < |ring| ==> Before(ring, sz, i))
  }

  ghost predicate Before(ring: seq<nat>, sz: seq<nat>, i: nat)
    requires 0 < i < |ring| == |sz|
  {
    ring[i - 1] < ring[i] && ring[i - 1] + sz[i - 1] <= ring[i]
  }

  lemma {:induction false} Apart(ring: seq<nat>, sz: seq<nat>, i: nat, j: nat)
    requires Layout(ring, sz) && i < j < |ring|
    ensures ring[i] < ring[j] && ring[i] + sz[i] <= ring[j]
    decreases j
  {
    assert Before(ring, sz, j);
    if i < j - 1 {
      Apart(ring, sz, i, j - 1);
    }
  }

  function Next(ring: seq<nat>, i: nat): nat
    requires |ring| > 0
  {
    if i + 1 < |ring| then ring[i + 1] else ring[0]
  }

  ghost predicate StoredAt(mem: Memory, ring: seq<nat>, sz: seq<nat>, i: nat)
    requires i < |ring| == |sz|
  {
    ring[i] in mem && mem[ring[i]] == Header(Next(ring, i), sz[i])
  }

  /** The headers in memory describe this list, linked into a circle. */
  ghost predicate Stored(mem: Memory, ring: seq<nat>, sz: seq<nat>) {
    |ring| == |sz| && forall i: nat :: i < |ring| ==> StoredAt(mem, ring, sz, i)
  }

  ghost predicate Chain(mem: Memory, ring: seq<nat>, sz: seq<nat>) {
    Layout(ring, sz) && Stored(mem, ring, sz)
  }

  ghost predicate Gap(ring: seq<nat>, sz: seq<nat>, i: nat)
    requires 0 < i < |ring| == |sz|
  {
    ring[i - 1] + sz[i - 1] != ring[i]
  }

  /** No free block ends where the next one starts. */
  ghost predicate Coalesced(ring: seq<nat>, sz: seq<nat>) {
    |ring| == |sz| && forall i: nat :: 0 < i < |ring| ==> Gap(ring, sz, i)
  }

  // ----- who owns each unit -----

  ghost predicate Owns(owner: map<nat, nat>, h: nat, n: nat) {
    forall x: nat {:trigger owner[x]} {:trigger x in owner} :: h <= x < h + n ==> x in owner && owner[x] == h
  }

  ghost predicate FreeBlockAt(ring: seq<nat>, sz: seq<nat>, i: nat, h: nat, x: nat) {
    0 < i < |ring| && |ring| == |sz| && ring[i] == h && h <= x < h + sz[i]
  }

  /** Unit `x` lies in the block that starts at `h`, free or live. */
  ghost predicate InBlock(ring: seq<nat>, sz: seq<nat>, live: map<nat, nat>, h: nat, x: nat) {
    || (exists i: nat :: FreeBlockAt(ring, sz, i, h, x))
    || (h in live && h <= x < h + live[h])
  }

  ghost predicate FreeOwns(ring: seq<nat>, sz: seq<nat>, live: map<nat, nat>, owner: map<nat, nat>, i: nat)
    requires i < |ring| == |sz|
  {
    ring[i] !in live && Owns(owner, ring[i], sz[i])
  }

  ghost predicate LiveOwns(live: map<nat, nat>, owner: map<nat, nat>, h: nat)
    requires h in live
  {
    h > BASE && live[h] >= 1 && Owns(owner, h, live[h])
  }

  /** Every unit obtained from sbrk belongs to exactly one block, free or live; blocks hold no other units. */
  ghost predicate Tiled(ring: seq<nat>, sz: seq<nat>, live: map<nat, nat>, owner: map<nat, nat>) {
    && |ring| == |sz|
    && (forall i: nat :: 0 < i < |ring| ==> FreeOwns(ring, sz, live, owner, i))
    && (forall h :: h in live ==> LiveOwns(live, owner, h))
    && (forall x :: x in owner ==> InBlock(ring, sz, live, owner[x], x))
  }

  // ----- free -----

  function Inserted(s: seq<nat>, i: nat, x: nat): seq<nat>
    requires i < |s|
  {
    s[..i + 1] + [x] + s[i + 1..]
  }

  /** A block of `n` units at `b` goes between `ring[i]` and its successor. */
  ghost predicate Fits(ring: seq<nat>, sz: seq<nat>, i: nat, b: nat, n: nat) {
    && i < |ring| == |sz| && n >= 1
    && ring[i] < b && ring[i] + sz[i] <= b
    && (i + 1 < |ring| ==> b + n <= ring[i + 1])
  }

  lemma InsertLayout(ring: seq<nat>, sz: seq<nat>, i: nat, b: nat, n: nat)
    requires Layout(ring, sz) && Fits(ring, sz, i, b, n)
    ensures Layout(Inserted(ring, i, b), Inserted(sz, i, n))
  {
    var r, z := Inserted(ring, i, b), Inserted(sz, i, n);
    assert forall k :: 0 <= k < |r| ==> r[k] == if k <= i then ring[k] else if k == i + 1 then b else ring[k - 1];
    assert forall k :: 0 <= k < |z| ==> z[k] == if k <= i then sz[k] else if k == i + 1 then n else sz[k - 1];
    forall k: nat | 0 < k < |r| ensures Before(r, z, k) {
      if k <= i {
        assert Before(ring, sz, k);
      } else if k > i + 2 {
        assert Before(ring, sz, k - 1);
      }
    }
  }

  lemma InsertStored(mem: Memory, ring: seq<nat>, sz: seq<nat>, i: nat, b: nat, n: nat)
    requires Chain(mem, ring, sz) && Fits(ring, sz, i, b, n)
    ensures Stored(mem[b := Header(Next(ring, i), n)][ring[i] := Header(b, sz[i])], Inserted(ring, i, b),
                   Inserted(sz, i, n))
  {
    var r, z := Inserted(ring, i, b), Inserted(sz, i, n);
    var m := mem[b := Header(Next(ring, i), n)][ring[i] := Header(b, sz[i])];
    assert forall k :: 0 <= k < |r| ==> r[k] == if k <= i then ring[k] else if k == i + 1 then b else ring[k - 1];
    assert forall k :: 0 <= k < |z| ==> z[k] == if k <= i then sz[k] else if k == i + 1 then n else sz[k - 1];
    forall k: nat | k < |r| ensures StoredAt(m, r, z, k) {
      if k < i {
        assert StoredAt(mem, ring, sz, k);
        Apart(ring, sz, k, i);
      } else if k > i + 1 {
        assert StoredAt(mem, ring, sz, k - 1);
        Apart(ring, sz, i, k - 1);
        if i + 1 < k - 1 { Apart(ring, sz, i + 1, k - 1); }
      }
    }
  }

  function Removed(s: seq<nat>, k: nat): seq<nat>
    requires k < |s|
  {
    s[..k] + s[k + 1..]
  }

  /** Two adjacent neighbours become one block. */
  lemma MergeLayout(ring: seq<nat>, sz: seq<nat>, k: nat)
    requires Layout(ring, sz) && 0 < k && k + 1 < |ring| && ring[k] + sz[k] == ring[k + 1]
    ensures Layout(Removed(ring, k + 1), Removed(sz, k + 1)[k := sz[k] + sz[k + 1]])
  {
    var r, z := Removed(ring, k + 1), Removed(sz, k + 1)[k := sz[k] + sz[k + 1]];
    assert forall j :: 0 <= j < |r| ==> r[j] == ring[if j <= k then j else j + 1];
    assert forall j :: 0 <= j < |z| && j != k ==> z[j] == sz[if j <= k then j else j + 1];
    forall j: nat | 0 < j < |r| ensures Before(r, z, j) {
      assert Before(ring, sz, if j <= k then j else j + 1);
    }
  }

  lemma MergeStored(mem: Memory, ring: seq<nat>, sz: seq<nat>, k: nat)
    requires Chain(mem, ring, sz) && 0 < k && k + 1 < |ring|
    ensures Stored(mem[ring[k] := Header(Next(ring, k + 1), sz[k] + sz[k + 1])],
                   Removed(ring, k + 1), Removed(sz, k + 1)[k := sz[k] + sz[k + 1]])
  {
    var r, z := Removed(ring, k + 1), Removed(sz, k + 1)[k := sz[k] + sz[k + 1]];
    var m := mem[ring[k] := Header(Next(ring, k + 1), sz[k] + sz[k + 1])];
    assert forall j :: 0 <= j < |r| ==> r[j] == ring[if j <= k then j else j + 1];
    assert forall j :: 0 <= j < |z| && j != k ==> z[j] == sz[if j <= k then j else j + 1];
    forall j: nat | j < |r| ensures StoredAt(m, r, z, j) {
      assert StoredAt(mem, ring, sz, if j <= k then j else j + 1);
      if j < k { Apart(ring, sz, j, k); } else if j > k { Apart(ring, sz, k, j + 1); }
    }
  }

  /** Where a live block goes in the free list. */
  lemma Slot(ring: seq<nat>, sz: seq<nat>, live: map<nat, nat>, owner: map<nat, nat>, b: nat) returns (t: nat)
    requires Layout(ring, sz) && Tiled(ring, sz, live, owner) && b in live
    ensures Fits(ring, sz, t, b, live[b])
  {
    assert LiveOwns(live, owner, b);
    t := 0;
    while t + 1 < |ring| && ring[t + 1] < b
      invariant t < |ring| && ring[t] < b
    {
      t := t + 1;
    }
    if t > 0 {
      assert FreeOwns(ring, sz, live, owner, t) && owner[b] == b;
    }
    if t + 1 < |ring| {
      assert FreeOwns(ring, sz, live, owner, t + 1) && sz[t + 1] >= 1;
      assert owner[ring[t + 1]] == ring[t + 1];
    }
  }

  /** A live block handed back becomes a free one. */
  lemma InsertTiled(ring: seq<nat>, sz: seq<nat>, live: map<nat, nat>, owner: map<nat, nat>, i: nat, b: nat)
    requires Tiled(ring, sz, live, owner) && b in live && i < |ring|
    ensures Tiled(Inserted(ring, i, b), Inserted(sz, i, live[b]), live - {b}, owner)
  {
    var r, z, l := Inserted(ring, i, b), Inserted(sz, i, live[b]), live - {b};
    assert forall k :: 0 <= k < |r| ==> r[k] == if k <= i then ring[k] else if k == i + 1 then b else ring[k - 1];
    assert forall k :: 0 <= k < |z| ==> z[k] == if k <= i then sz[k] else if k == i + 1 then live[b] else sz[k - 1];
    assert LiveOwns(live, owner, b);
    forall k: nat | 0 < k < |r| ensures FreeOwns(r, z, l, owner, k) {
      if k <= i { assert FreeOwns(ring, sz, live, owner, k); }
      if k > i + 1 { assert FreeOwns(ring, sz, live, owner, k - 1); }
    }
    forall h | h in l ensures LiveOwns(l, owner, h) {
      assert LiveOwns(live, owner, h);
    }
    forall x | x in owner ensures InBlock(r, z, l, owner[x], x) {
      assert InBlock(ring, sz, live, owner[x], x);
      if k: nat :| FreeBlockAt(ring, sz, k, owner[x], x) {
        assert FreeBlockAt(r, z, if k <= i then k else k + 1, owner[x], x);
      } else if owner[x] == b {
        assert FreeBlockAt(r, z, i + 1, b, x);
      }
    }
  }

  /** The units of `from` now belong to `to`. */
  ghost function Recolored(owner: map<nat, nat>, from: nat, to: nat): map<nat, nat> {
    map x | x in owner :: if owner[x] == from then to else owner[x]
  }

  lemma RecolorKeeps(owner: map<nat, nat>, from: nat, to: nat, h: nat, n: nat)
    requires Owns(owner, h, n) && h != from
    ensures Owns(Recolored(owner, from, to), h, n)
  {
  }

  lemma RecolorJoins(owner: map<nat, nat>, p: nat, m: nat, q: nat, n: nat)
    requires Owns(owner, p, m) && Owns(owner, q, n) && p + m == q
    ensures Owns(Recolored(owner, q, p), p, m + n)
  {
    var o := Recolored(owner, q, p);
    forall x: nat | p <= x < p + m + n ensures x in o && o[x] == p {
      assert x in owner;
    }
  }

  lemma MergeCovers(ring: seq<nat>, sz: seq<nat>, live: map<nat, nat>, owner: map<nat, nat>, k: nat, x: nat)
    requires Layout(ring, sz) && |ring| == |sz| && x in owner && InBlock(ring, sz, live, owner[x], x)
    requires 0 < k && k + 1 < |ring| && ring[k] + sz[k] == ring[k + 1] && ring[k + 1] !in live
    ensures InBlock(Removed(ring, k + 1), Removed(sz, k + 1)[k := sz[k] + sz[k + 1]], live,
                    Recolored(owner, ring[k + 1], ring[k])[x], x)
  {
    var r, z := Removed(ring, k + 1), Removed(sz, k + 1)[k := sz[k] + sz[k + 1]];
    if j: nat :| FreeBlockAt(ring, sz, j, owner[x], x) {
      if j == k || j == k + 1 {
        assert FreeBlockAt(r, z, k, ring[k], x);
      } else if j < k {
        Apart(ring, sz, j, k + 1);
        assert FreeBlockAt(r, z, j, owner[x], x);
      } else {
        Apart(ring, sz, k + 1, j);
        assert FreeBlockAt(r, z, j - 1, owner[x], x);
      }
    }
  }

  lemma MergeTiled(ring: seq<nat>, sz: seq<nat>, live: map<nat, nat>, owner: map<nat, nat>, k: nat)
    requires Layout(ring, sz) && Tiled(ring, sz, live, owner)
    requires 0 < k && k + 1 < |ring| && ring[k] + sz[k] == ring[k + 1]
    ensures Tiled(Removed(ring, k + 1), Removed(sz, k + 1)[k := sz[k] + sz[k + 1]], live,
                  Recolored(owner, ring[k + 1], ring[k]))
  {
    var p, q := ring[k], ring[k + 1];
    var r, z, o := Removed(ring, k + 1), Removed(sz, k + 1)[k := sz[k] + sz[k + 1]], Recolored(owner, q, p);
    assert FreeOwns(ring, sz, live, owner, k) && FreeOwns(ring, sz, live, owner, k + 1);
    forall j: nat | 0 < j < |r| ensures FreeOwns(r, z, live, o, j) {
      if j == k {
        RecolorJoins(owner, p, sz[k], q, sz[k + 1]);
      } else {
        var j' := if j < k then j else j + 1;
        assert FreeOwns(ring, sz, live, owner, j') && r[j] == ring[j'] && z[j] == sz[j'];
        if j < k { Apart(ring, sz, j, k + 1); } else { Apart(ring, sz, k + 1, j + 1); }
        RecolorKeeps(owner, q, p, ring[j'], sz[j']);
      }
    }
    forall h | h in live ensures LiveOwns(live, o, h) {
      assert LiveOwns(live, owner, h);
      RecolorKeeps(owner, q, p, h, live[h]);
    }
    forall x | x in o ensures InBlock(r, z, live, o[x], x) {
      MergeCovers(ring, sz, live, owner, k, x);
    }
  }

  // ----- coalescing -----

  ghost predicate GapsExcept(ring: seq<nat>, sz: seq<nat>, e: set<nat>) {
    |ring| == |sz| && forall i: nat :: 0 < i < |ring| && i !in e ==> Gap(ring, sz, i)
  }

  lemma InsertGaps(ring: seq<nat>, sz: seq<nat>, i: nat, b: nat, n: nat)
    requires Coalesced(ring, sz) && i < |ring|
    ensures GapsExcept(Inserted(ring, i, b), Inserted(sz, i, n), {i + 1, i + 2})
  {
    var r, z := Inserted(ring, i, b), Inserted(sz, i, n);
    forall k: nat | 0 < k < |r| && k !in {i + 1, i + 2} ensures Gap(r, z, k) {
      assert Gap(ring, sz, if k <= i then k else k - 1);
    }
  }

  lemma MergeGaps(ring: seq<nat>, sz: seq<nat>, k: nat, e: set<nat>)
    requires Layout(ring, sz) && GapsExcept(ring, sz, e + {k + 1}) && 0 < k && k + 1 < |ring|
    requires ring[k] + sz[k] == ring[k + 1] && forall x :: x in e ==> x <= k
    ensures GapsExcept(Removed(ring, k + 1), Removed(sz, k + 1)[k := sz[k] + sz[k + 1]], e)
  {
    var r, z := Removed(ring, k + 1), Removed(sz, k + 1)[k := sz[k] + sz[k + 1]];
    forall i: nat | 0 < i < |r| && i !in e ensures Gap(r, z, i) {
      assert Gap(ring, sz, if i <= k then i else i + 1);
    }
  }

  // ----- the whole heap -----

  ghost predicate LiveHeaders(mem: Memory, live: map<nat, nat>) {
    forall h :: h in live ==> h in mem && mem[h].size == live[h]
  }

  /**
   The free list is a sorted circle of disjoint, non-adjacent blocks; live headers are intact; every unit
   from sbrk is in exactly one block.
   */
  ghost predicate HeapOk(mem: Memory, ring: seq<nat>, sz: seq<nat>, live: map<nat, nat>, owner: map<nat, nat>) {
    && Chain(mem, ring, sz) && Coalesced(ring, sz)
    && LiveHeaders(mem, live) && Tiled(ring, sz, live, owner)
  }

  /** First half of the updates of `free`: join the block with the free block after it, or link to it. */
  function JoinUp(mem: Memory, p: nat, b: nat): (m: Memory)
    requires p in mem && b in mem && mem[p].ptr in mem
    ensures b in m && p in m
  {
    var n := mem[p].ptr;
    if b + mem[b].size == n
    then mem[b := Header(mem[n].ptr, mem[b].size + mem[n].size)]
    else mem[b := mem[b].(ptr := n)]
  }

  /** Second half: join the free block before it with the block, or link it to the block. */
  function JoinDown(mem: Memory, p: nat, b: nat): (m: Memory)
    requires p in mem && b in mem
  {
    if p + mem[p].size == b
    then mem[p := Header(mem[b].ptr, mem[p].size + mem[b].size)]
    else mem[p := mem[p].(ptr := b)]
  }

  // ----- free, on the list without its memory -----

  /** The free list and the units are in order, but blocks may touch at the places in `e`. */
  ghost predicate Almost(ring: seq<nat>, sz: seq<nat>, live: map<nat, nat>, owner: map<nat, nat>, e: set<nat>) {
    && Layout(ring, sz) && GapsExcept(ring, sz, e) && Tiled(ring, sz, live, owner)
  }

  lemma InsertHeap(ring: seq<nat>, sz: seq<nat>, live: map<nat, nat>, owner: map<nat, nat>, t: nat, b: nat)
    requires Almost(ring, sz, live, owner, {}) && b in live && Fits(ring, sz, t, b, live[b])
    ensures Almost(Inserted(ring, t, b), Inserted(sz, t, live[b]), live - {b}, owner, {t + 1, t + 2})
  {
    InsertLayout(ring, sz, t, b, live[b]);
    InsertGaps(ring, sz, t, b, live[b]);
    InsertTiled(ring, sz, live, owner, t, b);
  }

  function Merged(sz: seq<nat>, k: nat): seq<nat>
    requires k + 1 < |sz|
  {
    Removed(sz, k + 1)[k := sz[k] + sz[k + 1]]
  }

  lemma MergeHeap(ring: seq<nat>, sz: seq<nat>, live: map<nat, nat>, owner: map<nat, nat>, k: nat, e: set<nat>)
    requires Almost(ring, sz, live, owner, e + {k + 1}) && 0 < k && k + 1 < |ring|
    requires ring[k] + sz[k] == ring[k + 1] && forall x :: x in e ==> x <= k
    ensures Almost(Removed(ring, k + 1), Merged(sz, k), live, Recolored(owner, ring[k + 1], ring[k]), e)
    ensures Recolored(owner, ring[k + 1], ring[k]).Keys == owner.Keys
  {
    MergeLayout(ring, sz, k);
    MergeGaps(ring, sz, k, e);
    MergeTiled(ring, sz, live, owner, k);
    assert Recolored(owner, ring[k + 1], ring[k]).Keys == owner.Keys;
  }

  ghost predicate TouchesUp(ring: seq<nat>, t: nat, b: nat, n: nat) {
    t + 1 < |ring| && b + n == ring[t + 1]
  }

  ghost predicate TouchesDown(ring: seq<nat>, sz: seq<nat>, t: nat, b: nat)
    requires t < |ring| == |sz|
  {
    0 < t && ring[t] + sz[t] == b
  }

  /** The free list with the block in, joined with its successor if they touch. */
  ghost function UpRing(ring: seq<nat>, t: nat, b: nat, n: nat): (r: seq<nat>)
    requires t < |ring|
    ensures t + 1 < |r| && r[t] == ring[t] && r[t + 1] == b
  {
    var r := Inserted(ring, t, b);
    if TouchesUp(ring, t, b, n) then Removed(r, t + 2) else r
  }

  ghost function UpSizes(ring: seq<nat>, sz: seq<nat>, t: nat, b: nat, n: nat): (z: seq<nat>)
    requires t < |ring| == |sz|
    ensures |z| == |UpRing(ring, t, b, n)| && z[t] == sz[t] && z[t + 1] >= n
  {
    var z := Inserted(sz, t, n);
    if TouchesUp(ring, t, b, n) then Merged(z, t + 1) else z
  }

  lemma JoinGaps(ring: seq<nat>, sz: seq<nat>, live: map<nat, nat>, owner: map<nat, nat>, t: nat)
    requires Almost(ring, sz, live, owner, {t + 1, t + 2}) && (t + 2 < |ring| ==> Gap(ring, sz, t + 2))
    ensures Almost(ring, sz, live, owner, {t + 1})
  {
    forall i: nat | 0 < i < |ring| && i !in {t + 1} ensures Gap(ring, sz, i) {
      if i != t + 2 { assert i !in {t + 1, t + 2}; }
    }
  }

  lemma JoinTouching(ring: seq<nat>, sz: seq<nat>, live: map<nat, nat>, owner: map<nat, nat>, t: nat)
    requires Almost(ring, sz, live, owner, {t + 1, t + 2}) && t + 2 < |ring| && ring[t + 1] + sz[t + 1] == ring[t + 2]
    ensures Almost(Removed(ring, t + 2), Merged(sz, t + 1), live, Recolored(owner, ring[t + 2], ring[t + 1]), {t + 1})
    ensures Recolored(owner, ring[t + 2], ring[t + 1]).Keys == owner.Keys
  {
    assert {t + 1, t + 2} == {t + 1} + {t + 2};
    MergeHeap(ring, sz, live, owner, t + 1, {t + 1});
  }

  lemma FreeUp(ring: seq<nat>, sz: seq<nat>, live: map<nat, nat>, owner: map<nat, nat>, t: nat, b: nat)
    returns (o: map<nat, nat>)
    requires Almost(ring, sz, live, owner, {}) && b in live && Fits(ring, sz, t, b, live[b])
    ensures Almost(UpRing(ring, t, b, live[b]), UpSizes(ring, sz, t, b, live[b]), live - {b}, o, {t + 1})
    ensures o.Keys == owner.Keys
  {
    InsertHeap(ring, sz, live, owner, t, b);
    var r, z := Inserted(ring, t, b), Inserted(sz, t, live[b]);
    if TouchesUp(ring, t, b, live[b]) {
      JoinTouching(r, z, live - {b}, owner, t);
      o := Recolored(owner, r[t + 2], r[t + 1]);
    } else {
      o := owner;
      JoinGaps(r, z, live - {b}, owner, t);
    }
  }

  ghost function DownRing(ring: seq<nat>, sz: seq<nat>, t: nat): (r: seq<nat>)
    requires t + 1 < |ring| == |sz|
    ensures t < |r| && r[t] == ring[t]
  {
    if TouchesDown(ring, sz, t, ring[t + 1]) then Removed(ring, t + 1) else ring
  }

  ghost function DownSizes(ring: seq<nat>, sz: seq<nat>, t: nat): (z: seq<nat>)
    requires t + 1 < |ring| == |sz|
    ensures |z| == |DownRing(ring, sz, t)|
    ensures exists k :: 0 < k < |z| && z[k] >= sz[t + 1]
  {
    if TouchesDown(ring, sz, t, ring[t + 1]) then
      var z := Merged(sz, t);
      assert z[t] >= sz[t + 1];
      z
    else
      var k := t + 1;
      assert 0 < k < |sz| && sz[k] >= sz[t + 1];
      sz
  }

  lemma FreeDown(ring: seq<nat>, sz: seq<nat>, live: map<nat, nat>, owner: map<nat, nat>, t: nat)
    returns (o: map<nat, nat>)
    requires Almost(ring, sz, live, owner, {t + 1}) && t + 1 < |ring|
    ensures Almost(DownRing(ring, sz, t), DownSizes(ring, sz, t), live, o, {}) && o.Keys == owner.Keys
  {
    if TouchesDown(ring, sz, t, ring[t + 1]) {
      assert {t + 1} == {} + {t + 1};
      MergeHeap(ring, sz, live, owner, t, {});
      o := Recolored(owner, ring[t + 1], ring[t]);
    } else {
      o := owner;
      forall i: nat | 0 < i < |ring| ensures Gap(ring, sz, i) {
        if i == t + 1 { assert Before(ring, sz, t + 1); }
      }
    }
  }

  // ----- free, in memory -----

  lemma JoinUpStored(mem: Memory, ring: seq<nat>, sz: seq<nat>, t: nat, b: nat, n: nat)
    requires Chain(mem, ring, sz) && Fits(ring, sz, t, b, n) && b in mem && mem[b].size == n
    ensures ring[t] in mem && mem[ring[t]].ptr in mem
    ensures Stored(JoinUp(mem, ring[t], b)[ring[t] := Header(b, sz[t])], UpRing(ring, t, b, n),
                   UpSizes(ring, sz, t, b, n))
  {
    assert StoredAt(mem, ring, sz, t);
    var u := if t + 1 < |ring| then t + 1 else 0;
    assert StoredAt(mem, ring, sz, u);
    InsertStored(mem, ring, sz, t, b, n);
    InsertLayout(ring, sz, t, b, n);
    var m := mem[b := Header(Next(ring, t), n)][ring[t] := Header(b, sz[t])];
    var r, z := Inserted(ring, t, b), Inserted(sz, t, n);
    JoinUpIsMerge(mem, ring[t], b, ring[u], mem[ring[u]]);
    if TouchesUp(ring, t, b, n) {
      MergeStored(m, r, z, t + 1);
      assert Next(r, t + 2) == Next(ring, t + 1);
    } else {
      Apart0(ring, sz, t, b);
    }
  }

  lemma Apart0(ring: seq<nat>, sz: seq<nat>, t: nat, b: nat)
    requires Layout(ring, sz) && t < |ring| && ring[t] < b
    ensures BASE < b
  {
    if t > 0 { Apart(ring, sz, 0, t); }
  }

  lemma JoinUpIsMerge(mem: Memory, p: nat, b: nat, n: nat, next: Header)
    requires p in mem && b in mem && n in mem && p != b && n != b && mem[p].ptr == n && mem[n] == next
    ensures b + mem[b].size == n ==>
      JoinUp(mem, p, b)[p := Header(b, mem[p].size)] ==
      mem[b := Header(n, mem[b].size)][p := Header(b, mem[p].size)][b := Header(next.ptr, mem[b].size + next.size)]
    ensures b + mem[b].size != n ==>
      JoinUp(mem, p, b)[p := Header(b, mem[p].size)] == mem[b := Header(n, mem[b].size)][p := Header(b, mem[p].size)]
  {
  }

  lemma JoinDownStored(m: Memory, p: nat, ring: seq<nat>, sz: seq<nat>, t: nat, b: nat)
    requires Layout(ring, sz) && t + 1 < |ring| && ring[t] == p && ring[t + 1] == b && p in m && m[p].size == sz[t]
    requires Stored(m[p := Header(b, sz[t])], ring, sz)
    ensures b in m && Stored(JoinDown(m, p, b), DownRing(ring, sz, t), DownSizes(ring, sz, t))
  {
    var m' := m[p := Header(b, sz[t])];
    assert Before(ring, sz, t + 1);
    assert StoredAt(m', ring, sz, t + 1);
    JoinDownIsMerge(m, p, b);
    if TouchesDown(ring, sz, t, b) {
      MergeStored(m', ring, sz, t);
    }
  }

  lemma JoinDownIsMerge(m: Memory, p: nat, b: nat)
    requires p in m && b in m && p != b
    ensures p + m[p].size == b ==>
      JoinDown(m, p, b) == m[p := Header(b, m[p].size)][p := Header(m[b].ptr, m[p].size + m[b].size)]
    ensures p + m[p].size != b ==> JoinDown(m, p, b) == m[p := Header(b, m[p].size)]
  {
  }

  /** Only the header of the freed block and of free blocks change. */
  lemma JoinHeaders(mem: Memory, p: nat, b: nat, h: nat)
    requires p in mem && b in mem && mem[p].ptr in mem && h in mem && h != p && h != b
    ensures var m := JoinDown(JoinUp(mem, p, b), p, b); h in m && m[h] == mem[h]
  {
  }

  /** `free` of a live block keeps the heap in order; the freed units are in a free block. */
  lemma FreeHeap(mem: Memory, ring: seq<nat>, sz: seq<nat>, live: map<nat, nat>, owner: map<nat, nat>, t: nat, b: nat)
    returns (r: seq<nat>, z: seq<nat>, o: map<nat, nat>)
    requires HeapOk(mem, ring, sz, live, owner) && b in live && Fits(ring, sz, t, b, live[b])
    ensures ring[t] in mem && mem[ring[t]].ptr in mem && b in mem && o.Keys == owner.Keys
    ensures HeapOk(JoinDown(JoinUp(mem, ring[t], b), ring[t], b), r, z, live - {b}, o) && t < |r| && r[t] == ring[t]
    ensures exists k :: 0 < k < |z| && z[k] >= live[b]
  {
    var n := live[b];
    var r1, z1 := UpRing(ring, t, b, n), UpSizes(ring, sz, t, b, n);
    assert StoredAt(mem, ring, sz, t);
    JoinUpStored(mem, ring, sz, t, b, n);
    var o1 := FreeUp(ring, sz, live, owner, t, b);
    o := FreeDown(r1, z1, live - {b}, o1, t);
    r, z := DownRing(r1, z1, t), DownSizes(r1, z1, t);
    JoinDownStored(JoinUp(mem, ring[t], b), ring[t], r1, z1, t, b);
    var k :| 0 < k < |z| && z[k] >= z1[t + 1];
    FreeHeaders(mem, ring, sz, live, owner, t, b);
  }

  lemma FreeHeaders(mem: Memory, ring: seq<nat>, sz: seq<nat>, live: map<nat, nat>, owner: map<nat, nat>, t: nat,
                    b: nat)
    requires Layout(ring, sz) && Tiled(ring, sz, live, owner) && LiveHeaders(mem, live) && t < |ring| && b in mem
    requires ring[t] in mem && mem[ring[t]].ptr in mem
    ensures LiveHeaders(JoinDown(JoinUp(mem, ring[t], b), ring[t], b), live - {b})
  {
    forall h | h in live - {b}
      ensures var m := JoinDown(JoinUp(mem, ring[t], b), ring[t], b); h in m && m[h].size == live[h] {
      assert LiveOwns(live, owner, h);
      if t > 0 { assert FreeOwns(ring, sz, live, owner, t); }
      JoinHeaders(mem, ring[t], b, h);
    }
  }

  // ----- malloc: a block of exactly the right size -----

  lemma RemoveShape(ring: seq<nat>, sz: seq<nat>, k: nat)
    requires Layout(ring, sz) && Coalesced(ring, sz) && 0 < k < |ring|
    ensures Layout(Removed(ring, k), Removed(sz, k)) && Coalesced(Removed(ring, k), Removed(sz, k))
  {
    var r, z := Removed(ring, k), Removed(sz, k);
    forall i: nat | 0 < i < |r| ensures Before(r, z, i) && Gap(r, z, i) {
      if i == k {
        assert Before(ring, sz, k) && Before(ring, sz, k + 1);
      } else {
        assert Before(ring, sz, if i < k then i else i + 1) && Gap(ring, sz, if i < k then i else i + 1);
      }
    }
  }

  lemma RemoveStored(mem: Memory, ring: seq<nat>, sz: seq<nat>, k: nat)
    requires Chain(mem, ring, sz) && 0 < k < |ring|
    ensures Stored(mem[ring[k - 1] := Header(Next(ring, k), sz[k - 1])], Removed(ring, k), Removed(sz, k))
  {
    var r, z, m := Removed(ring, k), Removed(sz, k), mem[ring[k - 1] := Header(Next(ring, k), sz[k - 1])];
    forall i: nat | i < |r| ensures StoredAt(m, r, z, i) {
      assert StoredAt(mem, ring, sz, if i < k then i else i + 1);
      if i < k - 1 { Apart(ring, sz, i, k - 1); }
      if i >= k { Apart(ring, sz, k - 1, i + 1); }
    }
  }

  lemma RemoveTiled(ring: seq<nat>, sz: seq<nat>, live: map<nat, nat>, owner: map<nat, nat>, k: nat)
    requires Layout(ring, sz) && Tiled(ring, sz, live, owner) && 0 < k < |ring|
    ensures ring[k] !in live && ring[k] > BASE
    ensures Tiled(Removed(ring, k), Removed(sz, k), live[ring[k] := sz[k]], owner)
  {
    var r, z, l := Removed(ring, k), Removed(sz, k), live[ring[k] := sz[k]];
    assert FreeOwns(ring, sz, live, owner, k);
    Apart(ring, sz, 0, k);
    forall i: nat | 0 < i < |r| ensures FreeOwns(r, z, l, owner, i) {
      var j := if i < k then i else i + 1;
      assert FreeOwns(ring, sz, live, owner, j);
      if i < k { Apart(ring, sz, i, k); } else { Apart(ring, sz, k, i + 1); }
    }
    forall h | h in l ensures LiveOwns(l, owner, h) {
      if h != ring[k] { assert LiveOwns(live, owner, h); }
    }
    forall x | x in owner ensures InBlock(r, z, l, owner[x], x) {
      assert InBlock(ring, sz, live, owner[x], x);
      if i: nat :| FreeBlockAt(ring, sz, i, owner[x], x) {
        if i != k { assert FreeBlockAt(r, z, if i < k then i else i - 1, owner[x], x); }
      }
    }
  }

  lemma TakeWhole(mem: Memory, ring: seq<nat>, sz: seq<nat>, live: map<nat, nat>, owner: map<nat, nat>, k: nat)
    requires HeapOk(mem, ring, sz, live, owner) && 0 < k < |ring|
    ensures HeapOk(mem[ring[k - 1] := Header(Next(ring, k), sz[k - 1])], Removed(ring, k), Removed(sz, k),
                   live[ring[k] := sz[k]], owner)
    ensures ring[k] !in live
  {
    RemoveShape(ring, sz, k);
    RemoveStored(mem, ring, sz, k);
    RemoveTiled(ring, sz, live, owner, k);
    WholeHeaders(mem, ring, sz, live, owner, k);
  }

  lemma WholeHeaders(mem: Memory, ring: seq<nat>, sz: seq<nat>, live: map<nat, nat>, owner: map<nat, nat>, k: nat)
    requires Chain(mem, ring, sz) && Tiled(ring, sz, live, owner) && LiveHeaders(mem, live) && 0 < k < |ring|
    ensures LiveHeaders(mem[ring[k - 1] := Header(Next(ring, k), sz[k - 1])], live[ring[k] := sz[k]])
  {
    assert StoredAt(mem, ring, sz, k) && Before(ring, sz, k);
    forall h | h in live ensures h != ring[k - 1] {
      assert LiveOwns(live, owner, h);
      if k > 1 { assert FreeOwns(ring, sz, live, owner, k - 1); }
    }
  }

  // ----- malloc: the tail of a larger block -----

  ghost function Split(owner: map<nat, nat>, tail: nat, n: nat): map<nat, nat> {
    map x | x in owner :: if tail <= x < tail + n then tail else owner[x]
  }

  lemma SplitKeeps(owner: map<nat, nat>, tail: nat, n: nat, h: nat, m: nat)
    requires Owns(owner, h, m) && (h + m <= tail || tail + n <= h)
    ensures Owns(Split(owner, tail, n), h, m)
  {
  }

  /** Blocks of different owners do not overlap. */
  lemma Disjoint(owner: map<nat, nat>, a: nat, m: nat, b: nat, n: nat)
    requires Owns(owner, a, m) && Owns(owner, b, n) && a != b && m >= 1 && n >= 1
    ensures a + m <= b || b + n <= a
  {
    assert a in owner && owner[a] == a && b in owner && owner[b] == b;
  }

  lemma SplitTiled(ring: seq<nat>, sz: seq<nat>, live: map<nat, nat>, owner: map<nat, nat>, k: nat, n: nat)
    requires Layout(ring, sz) && Tiled(ring, sz, live, owner) && 0 < k < |ring| && 1 <= n < sz[k]
    ensures var tail := ring[k] + sz[k] - n;
      && tail !in live && tail > BASE
      && Tiled(ring, sz[k := sz[k] - n], live[tail := n], Split(owner, tail, n))
  {
    var tail := ring[k] + sz[k] - n;
    var z, l, o := sz[k := sz[k] - n], live[tail := n], Split(owner, tail, n);
    assert FreeOwns(ring, sz, live, owner, k);
    assert tail in owner && owner[tail] == ring[k];
    TailOutside(ring, sz, k, n);
    forall i: nat | 0 < i < |ring| ensures FreeOwns(ring, z, l, o, i) {
      SplitFree(ring, sz, live, owner, k, n, i);
    }
    forall h | h in l ensures LiveOwns(l, o, h) {
      SplitLive(ring, sz, live, owner, k, n, h);
    }
    forall x | x in o ensures InBlock(ring, z, l, o[x], x) {
      SplitCovers(ring, sz, live, owner, k, n, x);
    }
  }

  lemma SplitFree(ring: seq<nat>, sz: seq<nat>, live: map<nat, nat>, owner: map<nat, nat>, k: nat, n: nat, i: nat)
    requires Layout(ring, sz) && Tiled(ring, sz, live, owner) && 0 < k < |ring| && 1 <= n < sz[k] && 0 < i < |ring|
    ensures var tail := ring[k] + sz[k] - n;
      FreeOwns(ring, sz[k := sz[k] - n], live[tail := n], Split(owner, tail, n), i)
  {
    var tail := ring[k] + sz[k] - n;
    assert FreeOwns(ring, sz, live, owner, k) && FreeOwns(ring, sz, live, owner, i);
    TailOutside(ring, sz, k, n);
    if i < k { Apart(ring, sz, i, k); } else if i > k { Apart(ring, sz, k, i); }
    SplitKeeps(owner, tail, n, ring[i], sz[k := sz[k] - n][i]);
  }

  lemma SplitLive(ring: seq<nat>, sz: seq<nat>, live: map<nat, nat>, owner: map<nat, nat>, k: nat, n: nat, h: nat)
    requires Layout(ring, sz) && Tiled(ring, sz, live, owner) && 0 < k < |ring| && 1 <= n < sz[k]
    requires h in live || h == ring[k] + sz[k] - n
    ensures var tail := ring[k] + sz[k] - n;
      LiveOwns(live[tail := n], Split(owner, tail, n), h)
  {
    var tail := ring[k] + sz[k] - n;
    assert FreeOwns(ring, sz, live, owner, k);
    if h != tail {
      assert LiveOwns(live, owner, h);
      Disjoint(owner, h, live[h], ring[k], sz[k]);
      SplitKeeps(owner, tail, n, h, live[h]);
    } else {
      Apart(ring, sz, 0, k);
    }
  }

  lemma SplitCovers(ring: seq<nat>, sz: seq<nat>, live: map<nat, nat>, owner: map<nat, nat>, k: nat, n: nat, x: nat)
    requires Layout(ring, sz) && 0 < k < |ring| && 1 <= n < sz[k] && FreeOwns(ring, sz, live, owner, k)
    requires x in owner && InBlock(ring, sz, live, owner[x], x) && ring[k] + sz[k] - n !in live
    ensures var tail := ring[k] + sz[k] - n;
      InBlock(ring, sz[k := sz[k] - n], live[tail := n], Split(owner, tail, n)[x], x)
  {
    var tail := ring[k] + sz[k] - n;
    if tail <= x < tail + n {
      assert owner[x] == ring[k];
    } else if i: nat :| FreeBlockAt(ring, sz, i, owner[x], x) {
      assert FreeBlockAt(ring, sz[k := sz[k] - n], i, owner[x], x);
    }
  }

  lemma ShrinkShape(ring: seq<nat>, sz: seq<nat>, k: nat, n: nat)
    requires Layout(ring, sz) && Coalesced(ring, sz) && 0 < k < |ring| && 1 <= n < sz[k]
    ensures Layout(ring, sz[k := sz[k] - n]) && Coalesced(ring, sz[k := sz[k] - n])
  {
    var z := sz[k := sz[k] - n];
    forall i: nat | 0 < i < |ring| ensures Before(ring, z, i) && Gap(ring, z, i) {
      assert Before(ring, sz, i) && Gap(ring, sz, i);
    }
  }

  lemma ShrinkStored(mem: Memory, ring: seq<nat>, sz: seq<nat>, k: nat, n: nat, tail: nat, h: Header)
    requires Chain(mem, ring, sz) && 0 < k < |ring| && 1 <= n < sz[k] && tail !in ring
    ensures Stored(mem[ring[k] := Header(Next(ring, k), sz[k] - n)][tail := h], ring, sz[k := sz[k] - n])
  {
    var m, z := mem[ring[k] := Header(Next(ring, k), sz[k] - n)][tail := h], sz[k := sz[k] - n];
    forall i: nat | i < |ring| ensures StoredAt(m, ring, z, i) {
      assert StoredAt(mem, ring, sz, i);
      if i < k { Apart(ring, sz, i, k); } else if i > k { Apart(ring, sz, k, i); }
    }
  }

  lemma TakeTail(mem: Memory, ring: seq<nat>, sz: seq<nat>, live: map<nat, nat>, owner: map<nat, nat>, k: nat, n: nat,
                 ptr: nat)
    requires HeapOk(mem, ring, sz, live, owner) && 0 < k < |ring| && 1 <= n < sz[k]
    ensures var tail := ring[k] + sz[k] - n;
      && tail !in live
      && HeapOk(mem[ring[k] := Header(Next(ring, k), sz[k] - n)][tail := Header(ptr, n)],
                ring, sz[k := sz[k] - n], live[tail := n], Split(owner, tail, n))
      && Split(owner, tail, n).Keys == owner.Keys
  {
    var tail := ring[k] + sz[k] - n;
    SplitTiled(ring, sz, live, owner, k, n);
    ShrinkShape(ring, sz, k, n);
    TailOutside(ring, sz, k, n);
    ShrinkStored(mem, ring, sz, k, n, tail, Header(ptr, n));
    assert Split(owner, tail, n).Keys == owner.Keys;
    TailHeaders(mem, ring, sz, live, owner, k, n, Header(ptr, n));
  }

  lemma TailOutside(ring: seq<nat>, sz: seq<nat>, k: nat, n: nat)
    requires Layout(ring, sz) && 0 < k < |ring| && 1 <= n < sz[k]
    ensures ring[k] + sz[k] - n !in ring
  {
    forall i | 0 <= i < |ring| ensures ring[i] != ring[k] + sz[k] - n {
      if i < k { Apart(ring, sz, i, k); } else if i > k { Apart(ring, sz, k, i); }
    }
  }

  lemma TailHeaders(mem: Memory, ring: seq<nat>, sz: seq<nat>, live: map<nat, nat>, owner: map<nat, nat>, k: nat,
                    n: nat, h: Header)
    requires Tiled(ring, sz, live, owner) && LiveHeaders(mem, live) && 0 < k < |ring| && 1 <= n < sz[k] && h.size == n
    ensures var tail := ring[k] + sz[k] - n;
      LiveHeaders(mem[ring[k] := Header(Next(ring, k), sz[k] - n)][tail := h], live[tail := n])
  {
    assert FreeOwns(ring, sz, live, owner, k);
  }

  // ----- the allocator -----

  /** The unit count malloc computes, in 32-bit arithmetic. */
  function NUnits(nbytes: nat): (n: nat)
    ensures n >= 1
  {
    (nbytes + 7) % 0x1_0000_0000 / 8 + 1
  }

  /** The block has room for the request exactly if the sum does not wrap around. */
  lemma NUnitsExact(nbytes: nat)
    requires nbytes < 0x1_0000_0000
    ensures (NUnits(nbytes) - 1) * 8 >= nbytes <==> nbytes <= 0xffff_fff8
    ensures nbytes <= 0xffff_fff8 ==> (NUnits(nbytes) - 1) * 8 < nbytes + 8
  {
  }

  /** The allocator's memory together with what it means: free list, live blocks, owner of every unit. */
  datatype Heap = Heap(mem: Memory, ring: seq<nat>, sz: seq<nat>, live: map<nat, nat>, owner: map<nat, nat>)

  ghost predicate Sound(h: Heap) {
    HeapOk(h.mem, h.ring, h.sz, h.live, h.owner)
  }

  /** Some free block has at least `n` units. */
  ghost predicate Enough(sz: seq<nat>, n: nat) {
    exists k :: 0 < k < |sz| && sz[k] >= n
  }

  lemma Pack(mem: Memory, ring: seq<nat>, sz: seq<nat>, live: map<nat, nat>, owner: map<nat, nat>) returns (h: Heap)
    ensures h.mem == mem && h.ring == ring && h.sz == sz && h.live == live && h.owner == owner
  {
    h := Heap(mem, ring, sz, live, owner);
  }

  lemma FreeSound(h: Heap, m: Memory, t: nat, b: nat) returns (r: Heap)
    requires Sound(h) && b in h.live && Fits(h.ring, h.sz, t, b, h.live[b])
    requires h.ring[t] in h.mem && h.mem[h.ring[t]].ptr in h.mem && b in h.mem
    requires m == JoinDown(JoinUp(h.mem, h.ring[t], b), h.ring[t], b)
    ensures Sound(r) && r.mem == m && r.live == h.live - {b} && r.owner.Keys == h.owner.Keys
    ensures h.ring[t] in r.ring && h.ring[t] != NULL && forall x :: x in r.owner ==> x in h.owner
    ensures Enough(r.sz, h.live[b])
  {
    if t > 0 { Apart(h.ring, h.sz, 0, t); }
    var ring, sz, o := FreeHeap(h.mem, h.ring, h.sz, h.live, h.owner, t, b);
    r := Pack(m, ring, sz, h.live - {b}, o);
    assert r.ring[t] == h.ring[t];
  }

  lemma TakeWholeSound(h: Heap, m: Memory, k: nat) returns (r: Heap)
    requires Sound(h) && 0 < k < |h.ring|
    requires m == h.mem[h.ring[k - 1] := Header(Next(h.ring, k), h.sz[k - 1])]
    ensures Sound(r) && r.mem == m && r.live == h.live[h.ring[k] := h.sz[k]] && r.owner == h.owner
    ensures h.ring[k] !in h.live && h.ring[k - 1] in r.ring
  {
    TakeWhole(h.mem, h.ring, h.sz, h.live, h.owner, k);
    r := Pack(m, Removed(h.ring, k), Removed(h.sz, k), h.live[h.ring[k] := h.sz[k]], h.owner);
    assert r.ring[k - 1] == h.ring[k - 1];
  }

  lemma TakeTailSound(h: Heap, m: Memory, k: nat, n: nat, ptr: nat) returns (r: Heap)
    requires Sound(h) && 0 < k < |h.ring| && 1 <= n < h.sz[k]
    requires m == h.mem[h.ring[k] := Header(Next(h.ring, k), h.sz[k] - n)][h.ring[k] + h.sz[k] - n := Header(ptr, n)]
    ensures var tail := h.ring[k] + h.sz[k] - n;
      && Sound(r) && r.mem == m && r.live == h.live[tail := n] && tail !in h.live
    ensures r.owner.Keys == h.owner.Keys && h.ring[k - 1] in r.ring
  {
    TakeTail(h.mem, h.ring, h.sz, h.live, h.owner, k, n, ptr);
    var tail := h.ring[k] + h.sz[k] - n;
    r := Pack(m, h.ring, h.sz[k := h.sz[k] - n], h.live[tail := n], Split(h.owner, tail, n));
  }

  // ----- morecore: a new region -----

  ghost predicate Within(a: nat, n: nat, x: nat) {
    a <= x < a + n
  }

  ghost function Region(a: nat, n: nat): map<nat, nat> {
    map x: nat | x < a + n && Within(a, n, x) :: a
  }

  lemma RegionTiled(ring: seq<nat>, sz: seq<nat>, live: map<nat, nat>, owner: map<nat, nat>, a: nat, n: nat)
    requires Layout(ring, sz) && Tiled(ring, sz, live, owner) && a > BASE && n >= 1
    requires forall x :: x in owner ==> x < a
    ensures a !in live && a !in ring && Tiled(ring, sz, live[a := n], owner + Region(a, n))
  {
    var l, o := live[a := n], owner + Region(a, n);
    forall i: nat | i < |ring| ensures ring[i] < a && (i > 0 ==> FreeOwns(ring, sz, l, o, i)) {
      if i > 0 {
        assert FreeOwns(ring, sz, live, owner, i) && ring[i] in owner;
        forall x: nat | ring[i] <= x < ring[i] + sz[i] ensures x in o && o[x] == ring[i] {
          assert x in owner;
        }
      }
    }
    forall h | h in live ensures h < a && LiveOwns(live, o, h) {
      assert LiveOwns(live, owner, h) && h in owner;
      forall x: nat | h <= x < h + live[h] ensures x in o && o[x] == h {
        assert x in owner;
      }
    }
    forall h | h in l ensures LiveOwns(l, o, h) {
      if h != a { assert LiveOwns(live, o, h); }
    }
    forall x | x in o ensures InBlock(ring, sz, l, o[x], x) {
      if x < a { assert InBlock(ring, sz, live, owner[x], x); }
    }
  }

  lemma RegionSound(h: Heap, m: Memory, a: nat, n: nat, ptr: nat) returns (r: Heap)
    requires Sound(h) && a > BASE && n >= 1 && (forall x :: x in h.owner ==> x < a)
    requires m == h.mem[a := Header(ptr, n)]
    ensures Sound(r) && r.mem == m && r.live == h.live[a := n] && r.ring == h.ring
    ensures r.owner == h.owner + Region(a, n) && a !in h.live
    ensures forall x :: x in r.owner ==> x < a + n
  {
    RegionTiled(h.ring, h.sz, h.live, h.owner, a, n);
    RegionStored(h.mem, h.ring, h.sz, a, Header(ptr, n));
    r := Pack(m, h.ring, h.sz, h.live[a := n], h.owner + Region(a, n));
  }

  lemma RegionStored(mem: Memory, ring: seq<nat>, sz: seq<nat>, a: nat, h: Header)
    requires Stored(mem, ring, sz) && a !in ring
    ensures Stored(mem[a := h], ring, sz)
  {
    var m := mem[a := h];
    forall i: nat | i < |ring| ensures StoredAt(m, ring, sz, i) {
      assert StoredAt(mem, ring, sz, i);
    }
  }

  lemma FirstSound(mem: Memory) returns (r: Heap)
    ensures Sound(r) && r.mem == mem[BASE := Header(BASE, 0)] && r.live == map[] && r.owner == map[] && r.ring == [BASE]
  {
    r := Heap(mem[BASE := Header(BASE, 0)], [BASE], [0], map[], map[]);
    assert StoredAt(r.mem, [BASE], [0], 0);
  }

  // ----- conservation -----

  function Units(sz: seq<nat>): nat {
    if sz == [] then 0 else Units(sz[..|sz| - 1]) + sz[|sz| - 1]
  }

  ghost function LiveUnits(live: map<nat, nat>): nat
    decreases |live|
  {
    if live == map[] then 0 else var h :| h in live; live[h] + LiveUnits(live - {h})
  }

  lemma {:induction false} RegionSize(a: nat, n: nat)
    ensures |Region(a, n)| == n
  {
    if n > 0 {
      RegionSize(a, n - 1);
      assert Region(a, n) == Region(a, n - 1)[a + n - 1 := a];
    } else {
      assert Region(a, n) == map[];
    }
  }

  /** The units left when a block is taken away. */
  ghost function Without(owner: map<nat, nat>, h: nat): map<nat, nat> {
    map x | x in owner && owner[x] != h :: owner[x]
  }

  lemma WithoutSize(owner: map<nat, nat>, h: nat, n: nat)
    requires Owns(owner, h, n) && (forall x :: x in owner && owner[x] == h ==> h <= x < h + n)
    ensures |owner| == |Without(owner, h)| + n
  {
    RegionSize(h, n);
    var a, b := Without(owner, h).Keys, Region(h, n).Keys;
    assert owner.Keys == a + b by {
      forall x | x in owner ensures x in a + b {
        if owner[x] == h { assert Within(h, n, x); }
      }
      forall x | x in b ensures x in owner { assert Within(h, n, x); }
    }
    assert a !! b by {
      forall x | x in b ensures x !in a { assert Within(h, n, x); }
    }
    assert |owner.Keys| == |a| + |b|;
  }

  lemma WithoutKeeps(owner: map<nat, nat>, h: nat, g: nat, n: nat)
    requires Owns(owner, g, n) && g != h
    ensures Owns(Without(owner, h), g, n)
  {
    forall x: nat | g <= x < g + n ensures x in Without(owner, h) && Without(owner, h)[x] == g {
      assert x in owner;
    }
  }

  /** Free and live units add up to the units obtained from sbrk. */
  lemma {:induction false} Conservation(ring: seq<nat>, sz: seq<nat>, live: map<nat, nat>, owner: map<nat, nat>)
    requires Layout(ring, sz) && Tiled(ring, sz, live, owner)
    ensures Units(sz) + LiveUnits(live) == |owner|
    decreases |ring|
  {
    if |ring| > 1 {
      var k := |ring| - 1;
      DropFree(ring, sz, live, owner);
      Conservation(ring[..k], sz[..k], live, Without(owner, ring[k]));
    } else {
      assert Units(sz) == 0 by { assert sz == [0] && sz[..0] == []; }
      LiveConservation(ring, sz, live, owner);
    }
  }

  lemma {:induction false} LiveConservation(ring: seq<nat>, sz: seq<nat>, live: map<nat, nat>, owner: map<nat, nat>)
    requires |ring| == |sz| == 1 && Tiled(ring, sz, live, owner)
    ensures LiveUnits(live) == |owner|
    decreases |live|
  {
    if live != map[] {
      var h :| h in live && LiveUnits(live) == live[h] + LiveUnits(live - {h});
      DropLive(ring, sz, live, owner, h);
      LiveConservation(ring, sz, live - {h}, Without(owner, h));
    } else {
      assert owner == map[];
    }
  }

  lemma DropFree(ring: seq<nat>, sz: seq<nat>, live: map<nat, nat>, owner: map<nat, nat>)
    requires Layout(ring, sz) && Tiled(ring, sz, live, owner) && |ring| > 1
    ensures var k := |ring| - 1;
      && Layout(ring[..k], sz[..k]) && Tiled(ring[..k], sz[..k], live, Without(owner, ring[k]))
      && |owner| == |Without(owner, ring[k])| + sz[k]
  {
    var k := |ring| - 1;
    var r, z, o := ring[..k], sz[..k], Without(owner, ring[k]);
    assert FreeOwns(ring, sz, live, owner, k);
    forall i: nat | 0 < i < |r| ensures Before(r, z, i) && FreeOwns(r, z, live, o, i) {
      assert Before(ring, sz, i) && FreeOwns(ring, sz, live, owner, i);
      Apart(ring, sz, i, k);
      WithoutKeeps(owner, ring[k], ring[i], sz[i]);
    }
    forall h | h in live ensures LiveOwns(live, o, h) {
      assert LiveOwns(live, owner, h);
      WithoutKeeps(owner, ring[k], h, live[h]);
    }
    forall x | x in owner
      ensures owner[x] == ring[k] ==> ring[k] <= x < ring[k] + sz[k]
      ensures owner[x] != ring[k] ==> InBlock(r, z, live, owner[x], x)
    {
      assert InBlock(ring, sz, live, owner[x], x);
      if i: nat :| FreeBlockAt(ring, sz, i, owner[x], x) {
        if i < k {
          Apart(ring, sz, i, k);
          assert FreeBlockAt(r, z, i, owner[x], x);
        }
      }
    }
    WithoutSize(owner, ring[k], sz[k]);
  }

  lemma DropLive(ring: seq<nat>, sz: seq<nat>, live: map<nat, nat>, owner: map<nat, nat>, h: nat)
    requires |ring| == |sz| == 1 && Tiled(ring, sz, live, owner) && h in live
    ensures Tiled(ring, sz, live - {h}, Without(owner, h)) && |owner| == |Without(owner, h)| + live[h]
  {
    assert LiveOwns(live, owner, h);
    var l, o := live - {h}, Without(owner, h);
    forall g | g in l ensures LiveOwns(l, o, g) {
      assert LiveOwns(live, owner, g);
      WithoutKeeps(owner, h, g, live[g]);
    }
    forall x | x in owner
      ensures owner[x] == h ==> h <= x < h + live[h]
      ensures owner[x] != h ==> InBlock(ring, sz, l, owner[x], x)
    {
      assert InBlock(ring, sz, live, owner[x], x);
    }
    WithoutSize(owner, h, live[h]);
  }

  /** The units one call of morecore adds. */
  ghost function Grown(grown: bool, ask: Option<nat>, nu: nat): set<nat> {
    if grown && ask.Some? then Region(ask.value, if nu < 4096 then 4096 else nu).Keys else {}
  }

  lemma LiveBack(live: map<nat, nat>, a: nat, n: nat)
    requires a !in live
    ensures live[a := n] - {a} == live
  {
  }

  /** Live blocks do not overlap each other, nor any free block. */
  lemma LiveDisjoint(h: Heap, a: nat, b: nat)
    requires Sound(h) && a in h.live && b in h.live && a != b
    ensures a + h.live[a] <= b || b + h.live[b] <= a
  {
    assert LiveOwns(h.live, h.owner, a) && LiveOwns(h.live, h.owner, b);
    Disjoint(h.owner, a, h.live[a], b, h.live[b]);
  }

  lemma LiveNotFree(h: Heap, a: nat, i: nat)
    requires Sound(h) && a in h.live && 0 < i < |h.ring|
    ensures |h.sz| == |h.ring|
    ensures a + h.live[a] <= h.ring[i] || h.ring[i] + h.sz[i] <= a
  {
    assert LiveOwns(h.live, h.owner, a) && FreeOwns(h.ring, h.sz, h.live, h.owner, i);
    Disjoint(h.owner, a, h.live[a], h.ring[i], h.sz[i]);
  }

  class Allocator {
    var mem: Memory
    var freep: nat
    ghost var heap: Heap
    ghost var brk: nat       // all units obtained so far lie below

    ghost predicate Valid()
      reads this
    {
      && heap.mem == mem
      && BASE < brk && (forall x :: x in heap.owner ==> x < brk)
      && if freep == NULL
         then heap.live == map[] && heap.owner == map[]
         else freep in heap.ring && Sound(heap)
    }

    constructor ()
      ensures Valid() && freep == NULL && heap.live == map[] && heap.owner == map[]
    {
      mem, freep, brk := map[], NULL, BASE + 1;
      heap := Heap(map[], [], [], map[], map[]);
    }

    /** The loop of free: find the free block after which a live block belongs. */
    method FindPlace(bp: nat) returns (p: nat, ghost t: nat)
      requires Valid() && bp in heap.live
      ensures Fits(heap.ring, heap.sz, t, bp, heap.live[bp]) && p == heap.ring[t]
      ensures p in mem && mem[p].ptr in mem && bp in mem
    {
      ghost var ring, sz, n := heap.ring, heap.sz, heap.live[bp];
      t := Slot(ring, sz, heap.live, heap.owner, bp);
      p := freep;
      ghost var k :| 0 <= k < |ring| && ring[k] == p;
      assert StoredAt(mem, ring, sz, k);
      while !(bp > p && bp < mem[p].ptr)
        invariant 0 <= k < |ring| && ring[k] == p && p in mem && mem[p].ptr == Next(ring, k)
        decreases if k <= t then t - k else t - k + |ring|
      {
        PlaceUnique(ring, sz, k, t, bp, n);
        if p >= mem[p].ptr && (bp > p || bp < mem[p].ptr) {
          break;
        }
        p, k := mem[p].ptr, if k + 1 < |ring| then k + 1 else 0;
        assert StoredAt(mem, ring, sz, k);
      }
      PlaceUnique(ring, sz, k, t, bp, n);
      assert StoredAt(mem, ring, sz, if t + 1 < |ring| then t + 1 else 0);
    }

    /** The header updates of free. */
    method Join(p: nat, bp: nat)
      requires p in mem && bp in mem && mem[p].ptr in mem
      modifies this`mem
      ensures mem == JoinDown(JoinUp(old(mem), p, bp), p, bp)
    {
      if bp + mem[bp].size == mem[p].ptr {
        var n := mem[p].ptr;
        mem := mem[bp := Header(mem[n].ptr, mem[bp].size + mem[n].size)];
      } else {
        mem := mem[bp := mem[bp].(ptr := mem[p].ptr)];
      }
      if p + mem[p].size == bp {
        mem := mem[p := Header(mem[bp].ptr, mem[p].size + mem[bp].size)];
      } else {
        mem := mem[p := mem[p].(ptr := bp)];
      }
    }

    /** free(ap): the block goes back to the free list, joined with its neighbours. */
    method Free(ap: nat)
      requires Valid() && ap > 0 && ap - 1 in heap.live
      modifies this`mem, this`freep, this`heap
      ensures Valid() && freep != NULL && heap.live == old(heap.live) - {ap - 1}
      ensures heap.owner.Keys == old(heap.owner).Keys
      ensures Enough(heap.sz, old(heap.live)[ap - 1])
    {
      var bp := ap - 1;
      var p, t := FindPlace(bp);
      Join(p, bp);
      freep := p;
      heap := FreeSound(heap, mem, t, bp);
    }

    /** morecore(nu); `ask` is the answer of sbrk, a region above everything obtained so far. */
    method Morecore(nu: nat, ask: Option<nat>) returns (r: nat)
      requires Valid() && freep != NULL && nu >= 1 && (ask.Some? ==> ask.value >= brk)
      modifies this
      ensures Valid() && freep != NULL && heap.live == old(heap.live)
      ensures r == NULL <==> ask.None?
      ensures r == NULL ==> heap == old(heap) && freep == old(freep)
      ensures r != NULL ==> r == freep && Enough(heap.sz, nu)
      ensures heap.owner.Keys == old(heap.owner).Keys + Grown(r != NULL, ask, nu)
    {
      var n := nu;
      if n < 4096 {
        n := 4096;
      }
      if ask.None? {
        return NULL;
      }
      AddRegion(ask.value, n);
      Free(ask.value + 1);
      LiveBack(old(heap.live), ask.value, n);
      return freep;
    }

    /** The new units as one live block, its size in its header. */
    method AddRegion(a: nat, n: nat)
      requires Valid() && freep != NULL && n >= 1 && a >= brk
      modifies this`mem, this`heap, this`brk
      ensures Valid() && a !in old(heap.live) && heap.live == old(heap.live)[a := n]
      ensures heap.owner.Keys == old(heap.owner).Keys + Region(a, n).Keys
    {
      var ptr := if a in mem then mem[a].ptr else 0;
      mem := mem[a := Header(ptr, n)];
      heap := RegionSound(heap, mem, a, n, ptr);
      brk := a + n;
    }

    /** Take `n` units from the free block `p`, the one at position `k`, whose predecessor is `prevp`. */
    method Take(prevp: nat, p: nat, n: nat, ghost k: nat) returns (b: nat)
      requires Valid() && freep != NULL && n >= 1
      requires 0 < k < |heap.ring| == |heap.sz| && p == heap.ring[k] && prevp == heap.ring[k - 1] && heap.sz[k] >= n
      modifies this`mem, this`freep, this`heap
      ensures Valid() && freep != NULL && b > BASE
      ensures b !in old(heap.live) && heap.live == old(heap.live)[b := n]
      ensures heap.owner.Keys == old(heap.owner).Keys
    {
      assert StoredAt(mem, heap.ring, heap.sz, k) && StoredAt(mem, heap.ring, heap.sz, k - 1);
      Apart(heap.ring, heap.sz, 0, k);
      if k > 1 { Apart(heap.ring, heap.sz, 0, k - 1); }
      if mem[p].size == n {
        mem := mem[prevp := mem[prevp].(ptr := mem[p].ptr)];
        b := p;
        heap := TakeWholeSound(heap, mem, k);
      } else {
        var size := mem[p].size - n;
        mem := mem[p := mem[p].(size := size)];
        b := p + size;
        var ptr := if b in mem then mem[b].ptr else 0;
        mem := mem[b := Header(ptr, n)];
        heap := TakeTailSound(heap, mem, k, n, ptr);
      }
      freep := prevp;
    }

    /** Some block on the free list has `n` units. */
    ghost predicate HasFit(n: nat)
      reads this
    {
      freep != NULL && Enough(heap.sz, n)
    }

    /** The static base header, on the first call. */
    method Start()
      requires Valid()
      modifies this`mem, this`freep, this`heap
      ensures Valid() && freep != NULL && heap.live == old(heap.live) && heap.owner == old(heap.owner)
      ensures forall n: nat :: n >= 1 ==> (HasFit(n) <==> old(HasFit(n)))
    {
      if freep == NULL {
        mem := mem[BASE := Header(BASE, 0)];
        freep := BASE;
        heap := FirstSound(heap.mem);
        assert freep == heap.ring[0];
      }
    }

    /** One position of the search: `prevp` is `c` blocks after `freep`, all of them too small. */
    ghost predicate At(prevp: nat, p: nat, f: nat, c: nat, n: nat)
      reads this
    {
      && |heap.ring| == |heap.sz| && f < |heap.ring| && c < |heap.ring| && heap.ring[f] == freep
      && prevp == heap.ring[Wrap(f + c, |heap.ring|)] && p == heap.ring[Wrap(f + c + 1, |heap.ring|)]
      && p in mem && prevp in mem && mem[prevp].ptr == p
      && TooSmall(heap.sz, f, c, n)
    }

    /** malloc's loop: first fit from after `freep`, with at most one morecore; false if sbrk refused. */
    method Search(n: nat, ask: Option<nat>) returns (ok: bool, prevp: nat, p: nat, ghost grown: bool, ghost k: nat)
      requires Valid() && freep != NULL && n >= 1 && (ask.Some? ==> ask.value >= brk)
      modifies this
      ensures Valid() && freep != NULL && heap.live == old(heap.live)
      ensures ok <==> ask.Some? || old(HasFit(n))
      ensures grown <==> ask.Some? && !old(HasFit(n))
      ensures ok ==>
        0 < k < |heap.ring| == |heap.sz| && p == heap.ring[k] && prevp == heap.ring[k - 1] && heap.sz[k] >= n
      ensures heap.owner.Keys == old(heap.owner).Keys + Grown(grown, ask, n)
    {
      grown, k := false, 0;
      prevp := freep;
      AtStart(n);
      ghost var f, c := Begin(heap, freep), 0;
      p := mem[prevp].ptr;
      while mem[p].size < n
        invariant Valid() && freep != NULL && heap.live == old(heap.live)
        invariant At(prevp, p, f, c, n)
        invariant grown ==> ask.Some? && Enough(heap.sz, n)
        invariant if grown then !Enough(old(heap.sz), n) else brk == old(brk) && heap == old(heap)
        invariant heap.owner.Keys == old(heap.owner).Keys + Grown(grown, ask, n)
        decreases !grown, |heap.ring| - c
      {
        AtNext(prevp, p, f, c, n);
        if p == freep {
          p := Morecore(n, ask);
          if p == NULL {
            return false, prevp, p, grown, k;
          }
          AtStart(n);
          grown, f, c := true, Begin(heap, freep), 0;
        } else {
          c := c + 1;
        }
        prevp, p := p, mem[p].ptr;
      }
      k := AtFound(prevp, p, f, c, n);
      ok := true;
    }

    lemma AtStart(n: nat)
      requires Valid() && freep != NULL
      ensures freep in mem && At(freep, mem[freep].ptr, Begin(heap, freep), 0, n)
    {
      ghost var f := Begin(heap, freep);
      assert StoredAt(mem, heap.ring, heap.sz, f) && StoredAt(mem, heap.ring, heap.sz, Wrap(f + 1, |heap.ring|));
    }

    /** A block that is too small: either the lap is over and no block is large enough, or the search moves on. */
    lemma AtNext(prevp: nat, p: nat, f: nat, c: nat, n: nat)
      requires Valid() && freep != NULL && At(prevp, p, f, c, n) && mem[p].size < n
      ensures p == freep ==> !Enough(heap.sz, n)
      ensures p != freep ==> At(p, mem[p].ptr, f, c + 1, n)
    {
      var k := Wrap(f + c + 1, |heap.ring|);
      assert StoredAt(mem, heap.ring, heap.sz, k) && SmallAt(heap.sz, f, c + 1, n);
      SamePlace(heap.ring, heap.sz, k, f);
      if p == freep {
        LapDone(heap.sz, f, n);
      } else {
        assert StoredAt(mem, heap.ring, heap.sz, Wrap(f + c + 2, |heap.ring|));
      }
    }

    lemma AtFound(prevp: nat, p: nat, f: nat, c: nat, n: nat) returns (k: nat)
      requires Valid() && freep != NULL && At(prevp, p, f, c, n) && 1 <= n <= mem[p].size
      ensures 0 < k < |heap.ring| == |heap.sz| && p == heap.ring[k] && prevp == heap.ring[k - 1] && heap.sz[k] >= n
    {
      k := Wrap(f + c + 1, |heap.ring|);
      assert StoredAt(mem, heap.ring, heap.sz, k);
    }

    /** malloc(nbytes); `ask` is what sbrk answers should malloc call it. */
    method Malloc(nbytes: nat, ask: Option<nat>) returns (r: nat, ghost grown: bool)
      requires Valid() && NUnits(nbytes) * 8 < 0x8000_0000 && (ask.Some? ==> ask.value >= brk)
      modifies this
      ensures Valid()
      ensures r == 0 <==> ask.None? && !old(HasFit(NUnits(nbytes)))
      ensures r == 0 ==> heap.live == old(heap.live)
      ensures r != 0 ==> r - 1 !in old(heap.live) && heap.live == old(heap.live)[r - 1 := NUnits(nbytes)]
      ensures r != 0 && nbytes < 0x1_0000_0000 ==> ((heap.live[r - 1] - 1) * 8 >= nbytes <==> nbytes <= 0xffff_fff8)
      ensures grown <==> ask.Some? && !old(HasFit(NUnits(nbytes)))
      ensures heap.owner.Keys == old(heap.owner).Keys + Grown(grown, ask, NUnits(nbytes))
    {
      var n := NUnits(nbytes);
      if nbytes < 0x1_0000_0000 { NUnitsExact(nbytes); }
      Start();
      var ok, prevp, p, g, k := Search(n, ask);
      grown := g;
      if !ok {
        return 0, grown;
      }
      r := Take(prevp, p, n, k);
      r := r + 1;
    }
  }

  function Wrap(x: nat, n: nat): nat
    requires x < 2 * n
  {
    if x < n then x else x - n
  }

  /** The `c` blocks after position `f` of the circle are all too small. */
  ghost predicate TooSmall(sz: seq<nat>, f: nat, c: nat, n: nat) {
    f < |sz| && c <= |sz| && forall j: nat :: 1 <= j <= c ==> SmallAt(sz, f, j, n)
  }

  ghost predicate SmallAt(sz: seq<nat>, f: nat, j: nat, n: nat)
    requires f < |sz| && j <= |sz|
  {
    sz[Wrap(f + j, |sz|)] < n
  }

  ghost function Begin(h: Heap, freep: nat): (f: nat)
    requires freep in h.ring
    ensures f < |h.ring| && h.ring[f] == freep
  {
    var f :| 0 <= f < |h.ring| && h.ring[f] == freep;
    f
  }

  /** A lap over blocks that are all too small, and a block that is large enough, exclude each other. */
  lemma LapDone(sz: seq<nat>, f: nat, n: nat)
    requires TooSmall(sz, f, |sz|, n)
    ensures !Enough(sz, n)
  {
    forall k | 0 <= k < |sz| ensures sz[k] < n {
      FullLap(sz, f, n, k);
    }
  }

  lemma SamePlace(ring: seq<nat>, sz: seq<nat>, i: nat, j: nat)
    requires Layout(ring, sz) && i < |ring| && j < |ring|
    ensures ring[i] == ring[j] <==> i == j
  {
    if i < j { Apart(ring, sz, i, j); } else if j < i { Apart(ring, sz, j, i); }
  }

  /** A full lap looks at every block. */
  lemma FullLap(sz: seq<nat>, f: nat, n: nat, k: nat)
    requires TooSmall(sz, f, |sz|, n) && k < |sz|
    ensures sz[k] < n
  {
    assert SmallAt(sz, f, if k > f then k - f else k - f + |sz|, n);
  }

  /** The loop of free stops exactly at the place of the block. */
  lemma PlaceUnique(ring: seq<nat>, sz: seq<nat>, k: nat, t: nat, b: nat, n: nat)
    requires Layout(ring, sz) && Fits(ring, sz, t, b, n) && k < |ring|
    ensures k == t <==> ring[k] < b && (b < Next(ring, k) || ring[k] >= Next(ring, k))
    ensures ring[k] >= Next(ring, k) <==> k + 1 == |ring|
    ensures BASE < b && BASE <= ring[k]
  {
    Apart0(ring, sz, t, b);
    if k > 0 { Apart(ring, sz, 0, k); }
    if k + 1 < |ring| { Apart(ring, sz, k, k + 1); }
    if k < t { Apart(ring, sz, k, t); if k + 1 < t { Apart(ring, sz, k + 1, t); } }
    if t < k { Apart(ring, sz, t, k); if t + 1 < k { Apart(ring, sz, t + 1, k); } }
  }
}

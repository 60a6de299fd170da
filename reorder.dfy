/**
 * `get` reads a document's rows sorted by `key`, not in the order `put`
 * wrote them. This module proves that `combine` accepts the rows of a
 * storable document in any order and rebuilds a dict that is the same
 * document as the cleaned one, up to the order of entries.
 */
module Reorder {
  import opened Wrappers
  import opened Values
  import opened Flatten
  import opened Rebuild

  /** Following `segs` through the dicts of `e` reaches the value `v`, which is not a dict. */
  predicate LeafAt(e: seq<Entry>, segs: seq<string>, v: Value)
    decreases |segs|
  {
    && |segs| >= 1
    && Get(e, segs[0]).Some?
    && var x := Get(e, segs[0]).value;
       if |segs| == 1 then x == v && !x.Dict? else x.Dict? && LeafAt(x.items, segs[1..], v)
  }

  /**
   * `r` is part of the document `e`: its keys are distinct keys of `e`, a
   * non-dict under a key is `e`'s value there, and a dict under a key is
   * part of `e`'s dict there.
   */
  predicate Part(r: seq<Entry>, e: seq<Entry>)
  {
    && DistinctKeys(r)
    && forall i :: 0 <= i < |r| ==> Get(e, r[i].key).Some? && PartValue(r[i].val, Get(e, r[i].key).value)
  }

  predicate PartValue(x: Value, y: Value)
  {
    if y.Dict? then x.Dict? && Part(x.items, y.items) else x == y
  }

  /** A pair whose path reads back as the keys of a leaf of `e`, holding that leaf's value. */
  predicate PathLeaf(e: seq<Entry>, p: Pair)
  {
    Segments(p.path).Ok? && LeafAt(e, Segments(p.path).value, p.val)
  }

  /** The pair `p` is in place in `r`: its path reads as keys along which `r` holds its value. */
  predicate Placed(r: seq<Entry>, p: Pair)
  {
    Segments(p.path).Ok? && GetPath(r, Segments(p.path).value) == Some(p.val)
  }

  /** A lookup that hits finds an entry with that key and value. */
  lemma {:induction false} GetIndex(items: seq<Entry>, k: string) returns (i: nat)
    requires Get(items, k).Some?
    ensures i < |items| && items[i] == Entry(k, Get(items, k).value)
  {
    if items[0].key == k {
      i := 0;
    } else {
      var j := GetIndex(items[1..], k);
      i := j + 1;
    }
  }

  /** With distinct keys, looking up the key of an entry finds that entry. */
  lemma {:induction false} GetDistinct(items: seq<Entry>, j: nat)
    requires DistinctKeys(items) && j < |items|
    ensures Get(items, items[j].key) == Some(items[j].val)
  {
    if j > 0 {
      assert items[0].key != items[j].key;
      GetDistinct(items[1..], j - 1);
    }
  }

  /** Assigning a key keeps the other entries and adds or replaces only that one. */
  lemma {:induction false} PutEntries(items: seq<Entry>, k: string, x: Value)
    ensures forall i :: 0 <= i < |Put(items, k, x)| ==> Put(items, k, x)[i] == Entry(k, x) || Put(items, k, x)[i] in items
  {
    var r := Put(items, k, x);
    if items == [] {
    } else if items[0].key == k {
      assert r == [Entry(k, x)] + items[1..];
      forall i | 0 < i < |r| ensures r[i] in items {
        assert r[i] == items[i];
      }
    } else {
      var rest := Put(items[1..], k, x);
      PutEntries(items[1..], k, x);
      assert r == [items[0]] + rest;
      forall i | 0 < i < |r| ensures r[i] == Entry(k, x) || r[i] in items {
        assert r[i] == rest[i - 1];
      }
    }
  }

  /** Assigning a key keeps the keys of a dict distinct. */
  lemma {:induction false} PutDistinct(items: seq<Entry>, k: string, x: Value)
    requires DistinctKeys(items)
    ensures DistinctKeys(Put(items, k, x))
  {
    var r := Put(items, k, x);
    if items == [] {
    } else if items[0].key == k {
      assert r == [Entry(k, x)] + items[1..];
      assert forall i :: 0 <= i < |r| ==> r[i].key == items[i].key;
    } else {
      var rest := Put(items[1..], k, x);
      PutEntries(items[1..], k, x);
      PutDistinct(items[1..], k, x);
      assert r == [items[0]] + rest;
      forall i | 0 <= i < |rest| ensures rest[i].key != items[0].key {
        if rest[i] != Entry(k, x) {
          var m :| 0 <= m < |items[1..]| && items[1..][m] == rest[i];
          assert items[m + 1] == rest[i];
        }
      }
    }
  }

  /** Assigning a key a value that is part of `e`'s value there keeps the dict part of `e`. */
  lemma PutPart(acc: seq<Entry>, e: seq<Entry>, k: string, x: Value)
    requires Part(acc, e) && Get(e, k).Some? && PartValue(x, Get(e, k).value)
    ensures Part(Put(acc, k, x), e)
  {
    PutEntries(acc, k, x);
    PutDistinct(acc, k, x);
    var r := Put(acc, k, x);
    forall i | 0 <= i < |r| ensures Get(e, r[i].key).Some? && PartValue(r[i].val, Get(e, r[i].key).value) {
      if r[i] != Entry(k, x) {
        var m :| 0 <= m < |acc| && acc[m] == r[i];
      }
    }
  }

  /** The dict under a key of a part is part of the dict `e` holds there. */
  lemma PartBelow(acc: seq<Entry>, e: seq<Entry>, k: string)
    requires Part(acc, e) && Get(acc, k).Some? && Get(e, k).Some? && Get(e, k).value.Dict?
    ensures Get(acc, k).value.Dict? && Part(Get(acc, k).value.items, Get(e, k).value.items)
  {
    var i := GetIndex(acc, k);
  }

  /** Inserting a leaf of `e` into a part of `e` succeeds and gives a part of `e`. */
  lemma {:induction false} InsertPart(acc: seq<Entry>, e: seq<Entry>, segs: seq<string>, v: Value)
    requires Part(acc, e) && LeafAt(e, segs, v)
    ensures Insert(acc, segs, v).Ok? && Part(Insert(acc, segs, v).value, e)
    decreases |segs|
  {
    var k := segs[0];
    var y := Get(e, k).value;
    if |segs| == 1 {
      PutPart(acc, e, k, v);
    } else {
      var c: seq<Entry> := [];
      if Get(acc, k).Some? {
        PartBelow(acc, e, k);
        c := Get(acc, k).value.items;
      }
      assert Part(c, y.items);
      InsertPart(c, y.items, segs[1..], v);
      var c' := Insert(c, segs[1..], v).value;
      PutPart(acc, e, k, Dict(c'));
    }
  }

  /** Inserting one leaf of `e` keeps every other leaf already in place. */
  lemma {:induction false} InsertKeeps(acc: seq<Entry>, e: seq<Entry>, s1: seq<string>, v1: Value, s2: seq<string>, v2: Value)
    requires Part(acc, e) && LeafAt(e, s1, v1) && LeafAt(e, s2, v2) && GetPath(acc, s1) == Some(v1)
    ensures Insert(acc, s2, v2).Ok? && GetPath(Insert(acc, s2, v2).value, s1) == Some(v1)
    decreases |s2|
  {
    InsertPart(acc, e, s2, v2);
    var r := Insert(acc, s2, v2).value;
    var k := s1[0];
    if s2[0] != k {
      assert Get(r, k) == Get(acc, k);
    } else if |s1| > 1 {
      var y := Get(e, k).value;
      PartBelow(acc, e, k);
      var c := Get(acc, k).value.items;
      InsertKeeps(c, y.items, s1[1..], v1, s2[1..], v2);
    }
  }

  /** Combining pairs that all name leaves of `e`, in any order, succeeds, stays part of `e` and places every pair. */
  lemma {:induction false} CombineLeaves(e: seq<Entry>, ps: seq<Pair>) returns (r: seq<Entry>)
    requires forall i :: 0 <= i < |ps| ==> PathLeaf(e, ps[i])
    ensures CombineFrom([], ps) == Ok(r) && Part(r, e)
    ensures forall i :: 0 <= i < |ps| ==> Placed(r, ps[i])
    decreases |ps|
  {
    if ps == [] {
      r := [];
    } else {
      var init, x := ps[..|ps| - 1], ps[|ps| - 1];
      SnocSplit(ps);
      LeavesPrefix(e, init, x);
      var acc := CombineLeaves(e, init);
      CombineSnoc(init, x, acc);
      InsertKeepsAll(acc, e, init, x);
      r := Insert(acc, Segments(x.path).value, x.val).value;
      PlacedSnoc(r, init, x);
    }
  }

  /** A non-empty sequence is its front followed by its last element. */
  lemma SnocSplit(ps: seq<Pair>)
    requires ps != []
    ensures ps == ps[..|ps| - 1] + [ps[|ps| - 1]]
  {
  }

  /** The pairs of `init + [x]` are leaves of `e` one by one. */
  lemma LeavesPrefix(e: seq<Entry>, init: seq<Pair>, x: Pair)
    requires forall i :: 0 <= i < |init + [x]| ==> PathLeaf(e, (init + [x])[i])
    ensures PathLeaf(e, x) && forall i :: 0 <= i < |init| ==> PathLeaf(e, init[i])
  {
    assert (init + [x])[|init|] == x;
    forall i | 0 <= i < |init| ensures PathLeaf(e, init[i]) {
      assert (init + [x])[i] == init[i];
    }
  }

  /** When the pairs of `init` and the pair `x` are placed, so are those of `init + [x]`. */
  lemma PlacedSnoc(r: seq<Entry>, init: seq<Pair>, x: Pair)
    requires Placed(r, x) && forall i :: 0 <= i < |init| ==> Placed(r, init[i])
    ensures forall i :: 0 <= i < |init + [x]| ==> Placed(r, (init + [x])[i])
  {
    forall i | 0 <= i < |init + [x]| ensures Placed(r, (init + [x])[i]) {
      if i < |init| {
        assert (init + [x])[i] == init[i];
      }
    }
  }

  /** Combining one more pair after `init` is inserting that pair into what `init` gave. */
  lemma CombineSnoc(init: seq<Pair>, x: Pair, r: seq<Entry>)
    requires CombineFrom([], init) == Ok(r) && Segments(x.path).Ok?
    ensures CombineFrom([], init + [x]) == Insert(r, Segments(x.path).value, x.val)
  {
    CombineFromAppend([], init, [x]);
    assert [x][1..] == [];
  }

  /** Inserting the pair `x`, a leaf of `e`, into a part of `e` gives a part of `e`, places `x` and keeps in place every pair already placed. */
  lemma InsertKeepsAll(r: seq<Entry>, e: seq<Entry>, qs: seq<Pair>, x: Pair)
    requires Part(r, e) && PathLeaf(e, x)
    requires forall i :: 0 <= i < |qs| ==> PathLeaf(e, qs[i]) && Placed(r, qs[i])
    ensures Insert(r, Segments(x.path).value, x.val).Ok? && Part(Insert(r, Segments(x.path).value, x.val).value, e)
    ensures Placed(Insert(r, Segments(x.path).value, x.val).value, x)
    ensures forall i :: 0 <= i < |qs| ==> Placed(Insert(r, Segments(x.path).value, x.val).value, qs[i])
  {
    var segs := Segments(x.path).value;
    InsertPart(r, e, segs, x.val);
    forall i | 0 <= i < |qs| ensures Placed(Insert(r, segs, x.val).value, qs[i]) {
      InsertKeeps(r, e, Segments(qs[i].path).value, qs[i].val, segs, x.val);
    }
  }

  /** A non-empty dict of a nested document has a leaf under its first key. */
  lemma {:induction false} FirstLeaf(items: seq<Entry>) returns (segs: seq<string>, v: Value)
    requires |items| > 0 && Fields(items)
    ensures LeafAt(items, segs, v) && segs[0] == items[0].key
    decreases items
  {
    var x := items[0].val;
    assert Get(items, items[0].key) == Some(x);
    if x.Dict? {
      var s, w := FirstLeaf(x.items);
      segs, v := [items[0].key] + s, w;
      assert segs[1..] == s;
    } else {
      segs, v := [items[0].key], x;
    }
  }

  /** Every key of a nested document has a leaf under it. */
  lemma LeafUnder(e: seq<Entry>, j: nat) returns (segs: seq<string>, v: Value)
    requires Fields(e) && j < |e|
    ensures LeafAt(e, segs, v) && segs[0] == e[j].key
  {
    GetDistinct(e, j);
    var x := e[j].val;
    if x.Dict? {
      var s, w := FirstLeaf(x.items);
      segs, v := [e[j].key] + s, w;
      assert segs[1..] == s;
    } else {
      segs, v := [e[j].key], x;
    }
  }

  /**
   * A part of a nested document that holds every leaf of the document is
   * the same document.
   */
  lemma {:induction false} Complete(r: seq<Entry>, e: seq<Entry>)
    requires Part(r, e) && Fields(e)
    requires forall s, v :: LeafAt(e, s, v) ==> GetPath(r, s) == Some(v)
    ensures SameItems(r, e)
    decreases r, 1
  {
    forall i | 0 <= i < |r| ensures r[i].key in Keys(e) {
      GetMisses(e, r[i].key);
    }
    forall j | 0 <= j < |e| ensures e[j].key in Keys(r) {
      var s, v := LeafUnder(e, j);
      GetMisses(r, e[j].key);
    }
    forall i, j | 0 <= i < |r| && 0 <= j < |e| && r[i].key == e[j].key
      ensures SameDoc(r[i].val, e[j].val)
    {
      CompleteAt(r, e, i, j);
    }
  }

  /** The step of `Complete` for one key: the values `r` and `e` hold there are the same document. */
  lemma {:induction false} CompleteAt(r: seq<Entry>, e: seq<Entry>, i: nat, j: nat)
    requires Part(r, e) && Fields(e)
    requires forall s, v :: LeafAt(e, s, v) ==> GetPath(r, s) == Some(v)
    requires i < |r| && j < |e| && r[i].key == e[j].key
    ensures SameDoc(r[i].val, e[j].val)
    decreases r, 0
  {
    var k := e[j].key;
    GetDistinct(e, j);
    GetDistinct(r, i);
    if e[j].val.Dict? {
      var f := e[j].val.items;
      var c := r[i].val.items;
      forall s, v | LeafAt(f, s, v) ensures GetPath(c, s) == Some(v) {
        var t := [k] + s;
        assert t[0] == k && t[1..] == s;
        assert LeafAt(e, t, v);
      }
      Complete(c, f);
    }
  }

  /** Cleaning keeps a document nested: `clean` keeps the keys and maps dicts to dicts. */
  lemma {:induction false} CleanNested(v: Value)
    requires Nested(v)
    ensures Nested(Clean(v))
  {
    match v
    case Dict(items) => CleanFields(items);
    case _ =>
  }

  /** Cleaning keeps the fields of a nested document nested, under the same keys. */
  lemma {:induction false} CleanFields(items: seq<Entry>)
    requires Fields(items)
    ensures Fields(CleanItems(items))
  {
    var cs := CleanItems(items);
    assert |cs| == |items| by {
      assert |Keys(cs)| == |Keys(items)|;
    }
    forall i | 0 <= i < |cs| ensures cs[i].key == items[i].key {
      assert Keys(cs)[i] == Keys(items)[i];
    }
    forall i | 0 <= i < |cs| ensures cs[i].val == Clean(items[i].val) && Nested(cs[i].val) {
      CleanItemAt(items, i);
      CleanNested(items[i].val);
    }
  }

  /** Entry `i` of a cleaned dict is entry `i` of the dict, cleaned. */
  lemma {:induction false} CleanItemAt(items: seq<Entry>, i: nat)
    requires i < |items|
    ensures |CleanItems(items)| == |items|
    ensures CleanItems(items)[i] == Entry(items[i].key, Clean(items[i].val))
  {
    assert |Keys(CleanItems(items))| == |Keys(items)|;
    if i > 0 {
      CleanItemAt(items[1..], i - 1);
    }
  }

  /** Every leaf of a nested document is found along its keys in the cleaned document. */
  lemma {:induction false} LeavesAreLeafAt(items: seq<Entry>)
    requires Fields(items)
    ensures forall i :: 0 <= i < |LeavesItems(items)| ==>
              LeafAt(CleanItems(items), LeavesItems(items)[i].segs, LeavesItems(items)[i].val)
  {
    if items != [] {
      var k, x := items[0].key, items[0].val;
      var cs := CleanItems(items);
      var head := Prefix(k, Leaves(x));
      var tail := LeavesItems(items[1..]);
      assert cs == [Entry(k, Clean(x))] + CleanItems(items[1..]);
      assert Get(cs, k) == Some(Clean(x));
      forall i | 0 <= i < |head| ensures LeafAt(cs, head[i].segs, head[i].val) {
        var t := head[i].segs;
        assert t == [k] + Leaves(x)[i].segs;
        if x.Dict? {
          LeavesAreLeafAt(x.items);
          assert t[1..] == Leaves(x)[i].segs;
        }
      }
      assert Fields(items[1..]) by {
        forall a, b | 0 <= a < b < |items[1..]| ensures items[1..][a].key != items[1..][b].key {
          assert items[1..][a] == items[a + 1] && items[1..][b] == items[b + 1];
        }
      }
      LeavesAreLeafAt(items[1..]);
      forall i | 0 <= i < |tail| ensures LeafAt(cs, tail[i].segs, tail[i].val) {
        var t := tail[i].segs;
        var rest := CleanItems(items[1..]);
        assert Get(rest, t[0]).Some?;
        GetMisses(rest, t[0]);
        var m :| 0 <= m < |Keys(rest)| && Keys(rest)[m] == t[0];
        assert Keys(rest)[m] == Keys(items[1..])[m] == items[m + 1].key;
        assert Get(cs, t[0]) == Get(rest, t[0]);
      }
    }
  }

  /** A leaf found in the cleaned document is a leaf of the document. */
  lemma {:induction false} LeafAtIsLeaf(items: seq<Entry>, segs: seq<string>, v: Value)
    requires LeafAt(CleanItems(items), segs, v)
    ensures Leaf(segs, v) in LeavesItems(items)
    decreases items
  {
    var k, x := items[0].key, items[0].val;
    var cs := CleanItems(items);
    assert cs == [Entry(k, Clean(x))] + CleanItems(items[1..]);
    var head := Prefix(k, Leaves(x));
    assert LeavesItems(items) == head + LeavesItems(items[1..]);
    if segs[0] == k {
      if |segs| == 1 {
        assert head[0] == Leaf(segs, v);
      } else {
        LeafAtIsLeaf(x.items, segs[1..], v);
        var m :| 0 <= m < |Leaves(x)| && Leaves(x)[m] == Leaf(segs[1..], v);
        assert head[m] == Leaf(segs, v);
      }
    } else {
      assert Get(cs, segs[0]) == Get(CleanItems(items[1..]), segs[0]);
      LeafAtIsLeaf(items[1..], segs, v);
    }
  }

  /**
   * The round trip in any row order: combining the pairs `split` yields for
   * a storable document, rearranged in any way, succeeds and gives the same
   * document as `clean(d)`.
   */
  lemma RoundTripAnyOrder(d: Value, ps: seq<Pair>)
    requires Storable(d)
    requires multiset(ps) == multiset(Split(d, None))
    ensures CombineFrom([], ps).Ok?
    ensures SameDoc(Dict(CombineFrom([], ps).value), Clean(d))
  {
    var e := CleanItems(d.items);
    PairsAreLeaves(d, ps);
    var r := CombineLeaves(e, ps);
    PairsCoverLeaves(d, ps, r);
    CleanFields(d.items);
    Complete(r, e);
  }

  /** Every pair among those `split` yields for a storable document names a leaf of the cleaned document. */
  lemma PairsAreLeaves(d: Value, ps: seq<Pair>)
    requires Storable(d)
    requires multiset(ps) == multiset(Split(d, None))
    ensures forall j :: 0 <= j < |ps| ==> PathLeaf(CleanItems(d.items), ps[j])
  {
    var ls := LeavesItems(d.items);
    var split := Split(d, None);
    SplitItemsAreLeaves(d.items, []);
    LeafItemPathsAreGood(d.items);
    LeavesAreLeafAt(d.items);
    forall j | 0 <= j < |ps| ensures PathLeaf(CleanItems(d.items), ps[j]) {
      assert ps[j] in multiset(split);
      var i := PairOfLeaf(split, ls, ps[j]);
      LeafPairReads(ls[i]);
    }
  }

  /** When every pair `split` yields is placed in `r`, every leaf of the cleaned document is found in `r`. */
  lemma PairsCoverLeaves(d: Value, ps: seq<Pair>, r: seq<Entry>)
    requires Storable(d)
    requires multiset(ps) == multiset(Split(d, None))
    requires forall j :: 0 <= j < |ps| ==> Placed(r, ps[j])
    ensures forall s, v :: LeafAt(CleanItems(d.items), s, v) ==> GetPath(r, s) == Some(v)
  {
    var ls := LeavesItems(d.items);
    var split := Split(d, None);
    SplitItemsAreLeaves(d.items, []);
    LeafItemPathsAreGood(d.items);
    forall s, v | LeafAt(CleanItems(d.items), s, v) ensures GetPath(r, s) == Some(v) {
      LeafAtIsLeaf(d.items, s, v);
      var i :| 0 <= i < |ls| && ls[i] == Leaf(s, v);
      assert split[i] in multiset(ps);
      var j :| 0 <= j < |ps| && ps[j] == split[i];
      LeafPairReads(ls[i]);
    }
  }

  /** A pair among the rendered leaves is the rendering of one of them. */
  lemma PairOfLeaf(split: seq<Pair>, ls: seq<Leaf>, p: Pair) returns (i: nat)
    requires split == RenderAll([], ls) && p in split
    ensures i < |ls| && p == Pair(Render([] + ls[i].segs), ls[i].val)
  {
    var m :| 0 <= m < |split| && split[m] == p;
    i := m;
  }

  /** The path of a rendered leaf reads back as that leaf's keys. */
  lemma LeafPairReads(l: Leaf)
    requires |l.segs| >= 1 && GoodKeys(l.segs)
    ensures Segments(Render([] + l.segs)) == Ok(l.segs)
  {
    assert [] + l.segs == l.segs;
    SegmentsOfRender(l.segs);
  }
}

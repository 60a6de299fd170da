/**
 * `split`: a document becomes the (path, cleaned leaf) pairs that are
 * stored one per row. `Leaves` is an independent description of the same
 * pairs with the path kept as a list of keys, used to state what `split`
 * produces and to prove the round trip with `combine`.
 */
module Flatten {
  import opened Wrappers
  import opened Strings
  import opened Values

  /** One flattened leaf: its path (`None` for a document that is not a dict) and its value. */
  datatype Pair = Pair(path: Option<string>, val: Value)

  /** `'/'.join(filter(None, [parent, k]))`: the path of key `k` below `parent`. */
  function ChildPath(parent: Option<string>, k: string): string
  {
    match parent
    case None => k
    case Some(p) => if p == "" then k else if k == "" then p else p + "/" + k
  }

  /**
   * `split(obj, parent)`: a dict contributes the pairs of each of its values
   * in iteration order, at the child path, cleaning each value once more per
   * level; anything else is one pair at `parent`.
   */
  function Split(v: Value, parent: Option<string>): seq<Pair>
  {
    match v
    case Dict(items) => SplitItems(items, parent)
    case _ => [Pair(parent, Clean(v))]
  }

  function SplitItems(items: seq<Entry>, parent: Option<string>): seq<Pair>
  {
    if items == [] then []
    else
      CleanPairs(Split(items[0].val, Some(ChildPath(parent, items[0].key))))
      + SplitItems(items[1..], parent)
  }

  /** The `clean(v2)` that `split` applies to every pair coming up from a nested level. */
  function CleanPairs(ps: seq<Pair>): seq<Pair>
  {
    seq(|ps|, i requires 0 <= i < |ps| => Pair(ps[i].path, Clean(ps[i].val)))
  }

  /** A leaf of a document, addressed by the list of keys leading to it. */
  datatype Leaf = Leaf(segs: seq<string>, val: Value)

  /** The leaves of a document in iteration order, each with its cleaned value. */
  function Leaves(v: Value): seq<Leaf>
  {
    match v
    case Dict(items) => LeavesItems(items)
    case _ => [Leaf([], Clean(v))]
  }

  function LeavesItems(items: seq<Entry>): seq<Leaf>
  {
    if items == [] then []
    else Prefix(items[0].key, Leaves(items[0].val)) + LeavesItems(items[1..])
  }

  /** The leaves `ls` moved one level down, under key `k`. */
  function Prefix(k: string, ls: seq<Leaf>): seq<Leaf>
  {
    seq(|ls|, i requires 0 <= i < |ls| => Leaf([k] + ls[i].segs, ls[i].val))
  }

  /**
   * The path `split` builds for a list of keys: `None` for no keys at all,
   * otherwise the non-empty keys joined by '/'.
   */
  function Render(segs: seq<string>): Option<string>
  {
    if segs == [] then None else Some(Join(NonEmpty(segs), "/"))
  }

  function RenderAll(prefix: seq<string>, ls: seq<Leaf>): seq<Pair>
  {
    seq(|ls|, i requires 0 <= i < |ls| => Pair(Render(prefix + ls[i].segs), ls[i].val))
  }

  /** A key that survives the trip through a path: non-empty and slash-free. */
  predicate GoodKey(k: string)
  {
    k != "" && '/' !in k
  }

  predicate GoodKeys(segs: seq<string>)
  {
    forall i :: 0 <= i < |segs| ==> GoodKey(segs[i])
  }

  predicate DistinctKeys(items: seq<Entry>)
  {
    forall i, j :: 0 <= i < j < |items| ==> items[i].key != items[j].key
  }

  /**
   * A value inside a document that flattening can reproduce: every dict in
   * it is non-empty and has distinct good keys. (Values inside lists are
   * leaves and are not constrained.)
   */
  predicate Nested(v: Value)
  {
    match v
    case Dict(items) => |items| > 0 && Fields(items)
    case _ => true
  }

  predicate Fields(items: seq<Entry>)
  {
    && DistinctKeys(items)
    && forall i :: 0 <= i < |items| ==> GoodKey(items[i].key) && Nested(items[i].val)
  }

  /** No segment of a path is the empty string. */
  predicate NoBlankSegs(segs: seq<string>)
  {
    forall i :: 0 <= i < |segs| ==> segs[i] != ""
  }

  /**
   * Every dict inside `v`, at any depth, has non-empty keys. Empty dicts,
   * repeated keys and keys holding '/' are allowed.
   */
  predicate KeysNonEmpty(v: Value)
  {
    match v
    case Dict(items) => ItemKeysNonEmpty(items)
    case _ => true
  }

  predicate ItemKeysNonEmpty(items: seq<Entry>)
  {
    forall i :: 0 <= i < |items| ==> items[i].key != "" && KeysNonEmpty(items[i].val)
  }

  /** A document `put` can store and read back: a dict whose nested parts are all `Nested`. */
  predicate Storable(d: Value)
  {
    d.Dict? && Fields(d.items)
  }

  /** Every value `split` emits is clean. */
  lemma {:induction false} SplitValuesAreClean(v: Value, parent: Option<string>)
    ensures forall i :: 0 <= i < |Split(v, parent)| ==> IsClean(Split(v, parent)[i].val)
  {
    match v
    case Dict(items) => SplitItemsValuesAreClean(items, parent);
    case _ => CleanIsClean(v);
  }

  lemma {:induction false} SplitItemsValuesAreClean(items: seq<Entry>, parent: Option<string>)
    ensures forall i :: 0 <= i < |SplitItems(items, parent)| ==> IsClean(SplitItems(items, parent)[i].val)
  {
    if items != [] {
      var head := CleanPairs(Split(items[0].val, Some(ChildPath(parent, items[0].key))));
      forall i | 0 <= i < |head| ensures IsClean(head[i].val) {
        CleanIsClean(Split(items[0].val, Some(ChildPath(parent, items[0].key)))[i].val);
      }
      SplitItemsValuesAreClean(items[1..], parent);
    }
  }

  /** Every leaf value is clean. */
  lemma {:induction false} LeavesAreClean(v: Value)
    ensures forall i :: 0 <= i < |Leaves(v)| ==> IsClean(Leaves(v)[i].val)
  {
    match v
    case Dict(items) => LeavesItemsAreClean(items);
    case _ => CleanIsClean(v);
  }

  lemma {:induction false} LeavesItemsAreClean(items: seq<Entry>)
    ensures forall i :: 0 <= i < |LeavesItems(items)| ==> IsClean(LeavesItems(items)[i].val)
  {
    if items != [] {
      LeavesAreClean(items[0].val);
      LeavesItemsAreClean(items[1..]);
    }
  }

  /** Every leaf of a nested value is addressed by good keys; below a dict, by at least one. */
  lemma {:induction false} LeafPathsAreGood(v: Value)
    requires Nested(v)
    ensures forall i :: 0 <= i < |Leaves(v)| ==> GoodKeys(Leaves(v)[i].segs)
    ensures v.Dict? ==> forall i :: 0 <= i < |Leaves(v)| ==> |Leaves(v)[i].segs| >= 1
    ensures |Leaves(v)| > 0
  {
    match v
    case Dict(items) => LeafItemPathsAreGood(items);
    case _ =>
  }

  lemma {:induction false} LeafItemPathsAreGood(items: seq<Entry>)
    requires forall i :: 0 <= i < |items| ==> GoodKey(items[i].key) && Nested(items[i].val)
    ensures forall i :: 0 <= i < |LeavesItems(items)| ==>
              |LeavesItems(items)[i].segs| >= 1 && GoodKeys(LeavesItems(items)[i].segs)
    ensures |items| > 0 ==> |LeavesItems(items)| > 0
  {
    if items != [] {
      LeafPathsAreGood(items[0].val);
      LeafItemPathsAreGood(items[1..]);
    }
  }

  /** The path of key `k` below the rendering of `prefix` is the rendering of `prefix + [k]`. */
  lemma ChildPathRenders(prefix: seq<string>, k: string)
    ensures Some(ChildPath(Render(prefix), k)) == Render(prefix + [k])
  {
    NonEmptyAppend(prefix, [k]);
    var ks := NonEmpty([k]);
    assert ks == if k == "" then [] else [k] by {
      assert [k][1..] == [];
    }
    if prefix == [] {
      assert prefix + [k] == [k];
    } else {
      var ps := NonEmpty(prefix);
      if ps != [] {
        JoinNonEmpty(ps, "/");
        if k != "" {
          JoinSnoc(ps, k, "/");
        } else {
          assert ps + ks == ps;
        }
      } else {
        assert ps + ks == ks;
      }
    }
  }

  /**
   * `split` emits exactly the leaves, in order, each at the slash-joined
   * path of its keys below `prefix`.
   */
  lemma {:induction false} SplitIsLeaves(v: Value, prefix: seq<string>)
    ensures Split(v, Render(prefix)) == RenderAll(prefix, Leaves(v))
  {
    match v
    case Dict(items) => SplitItemsAreLeaves(items, prefix);
    case _ => assert prefix + [] == prefix;
  }

  lemma {:induction false} SplitItemsAreLeaves(items: seq<Entry>, prefix: seq<string>)
    ensures SplitItems(items, Render(prefix)) == RenderAll(prefix, LeavesItems(items))
  {
    if items != [] {
      var k, v := items[0].key, items[0].val;
      SplitIsLeaves(v, prefix + [k]);
      FieldIsLeaves(prefix, k, v);
      SplitItemsAreLeaves(items[1..], prefix);
      RenderAllAppend(prefix, Prefix(k, Leaves(v)), LeavesItems(items[1..]));
    }
  }

  /** The cleaned pairs of one field are its leaves under the field's key, rendered below `prefix`. */
  lemma FieldIsLeaves(prefix: seq<string>, k: string, v: Value)
    requires Split(v, Render(prefix + [k])) == RenderAll(prefix + [k], Leaves(v))
    ensures CleanPairs(Split(v, Some(ChildPath(Render(prefix), k)))) == RenderAll(prefix, Prefix(k, Leaves(v)))
  {
    var below := prefix + [k];
    ChildPathRenders(prefix, k);
    var ls := Leaves(v);
    LeavesAreClean(v);
    var head := CleanPairs(Split(v, Render(below)));
    var want := RenderAll(prefix, Prefix(k, ls));
    assert |head| == |ls| == |want|;
    forall i | 0 <= i < |ls| ensures head[i] == want[i] {
      LeafBelow(prefix, k, ls[i]);
    }
  }

  /** One leaf of a field, rendered below the field's key, is the same pair as the leaf moved under the key. */
  lemma LeafBelow(prefix: seq<string>, k: string, l: Leaf)
    requires IsClean(l.val)
    ensures Pair(Render(prefix + [k] + l.segs), Clean(l.val)) == Pair(Render(prefix + ([k] + l.segs)), l.val)
  {
    CleanFixesClean(l.val);
    assert prefix + [k] + l.segs == prefix + ([k] + l.segs);
  }

  /** Rendering leaves one after the other renders each part in turn. */
  lemma RenderAllAppend(prefix: seq<string>, a: seq<Leaf>, b: seq<Leaf>)
    ensures RenderAll(prefix, a + b) == RenderAll(prefix, a) + RenderAll(prefix, b)
  {
  }

  /** Every leaf below a dict with non-empty keys is addressed by one or more non-empty keys. */
  lemma {:induction false} LeafPathsNonBlank(v: Value)
    requires KeysNonEmpty(v)
    ensures forall i :: 0 <= i < |Leaves(v)| ==> NoBlankSegs(Leaves(v)[i].segs)
    ensures v.Dict? ==> forall i :: 0 <= i < |Leaves(v)| ==> |Leaves(v)[i].segs| >= 1
  {
    match v
    case Dict(items) => LeafItemPathsNonBlank(items);
    case _ =>
  }

  lemma {:induction false} LeafItemPathsNonBlank(items: seq<Entry>)
    requires ItemKeysNonEmpty(items)
    ensures forall i :: 0 <= i < |LeavesItems(items)| ==>
              |LeavesItems(items)[i].segs| >= 1 && NoBlankSegs(LeavesItems(items)[i].segs)
  {
    if items != [] {
      LeafPathsNonBlank(items[0].val);
      LeafItemPathsNonBlank(items[1..]);
    }
  }

  /** `split` emits one pair per leaf, so a nested empty dict contributes no pair at all. */
  lemma SplitCountsLeaves(v: Value)
    ensures |Split(v, None)| == |Leaves(v)|
  {
    SplitIsLeaves(v, []);
  }

  /** Below a dict whose keys are all non-empty, every pair `split` emits has a non-empty path. */
  lemma SplitPathsNonEmpty(d: Value)
    requires d.Dict? && KeysNonEmpty(d)
    ensures forall i :: 0 <= i < |Split(d, None)| ==>
              Split(d, None)[i].path.Some? && Split(d, None)[i].path.value != ""
  {
    SplitItemsAreLeaves(d.items, []);
    LeafItemPathsNonBlank(d.items);
    forall i | 0 <= i < |Leaves(d)| ensures Render([] + Leaves(d)[i].segs).value != "" {
      var segs := Leaves(d)[i].segs;
      assert [] + segs == segs;
      JoinNonEmpty(NonEmpty(segs), "/");
    }
  }

  /** `filter(None, …)` drops an empty key from the path: `{"a": {"": 1}}` splits to the single pair `("a", 1)`. */
  lemma BlankKeyIsDropped()
    ensures Split(Dict([Entry("a", Dict([Entry("", Int(1))]))]), None) == [Pair(Some("a"), Int(1))]
  {
    var inner := Dict([Entry("", Int(1))]);
    assert ChildPath(Some("a"), "") == "a";
    assert SplitItems([Entry("", Int(1))][1..], Some("a")) == [];
    assert Split(inner, Some("a")) == [Pair(Some("a"), Int(1))];
    assert SplitItems([Entry("a", inner)][1..], None) == [];
  }
}

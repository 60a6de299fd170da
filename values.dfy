/**
 * Documents as a closed tagged value, and `clean`, the normaliser that maps
 * any document to the serialisable subset (dicts, lists, strings, numbers).
 */
module Values {

  /** One key of a dict with its value. */
  datatype Entry = Entry(key: string, val: Value)

  /**
   * A Python value as the store sees it. A dict is its entries in iteration
   * order; a set is its elements in iteration order; `Other` is any object
   * the normaliser only knows through its `str()`, held in `repr`.
   * `Int` stands for both `int` and `long`.
   */
  datatype Value =
    | Dict(items: seq<Entry>)
    | List(elems: seq<Value>)
    | Tuple(elems: seq<Value>)
    | Set(elems: seq<Value>)
    | Str(s: string)
    | Int(i: int)
    | Float(f: real)
    | Bool(b: bool)
    | Null
    | Other(repr: string)

  /** The keys of a dict, in order. */
  function Keys(items: seq<Entry>): (ks: seq<string>)
    ensures |ks| == |items|
    ensures forall i :: 0 <= i < |items| ==> ks[i] == items[i].key
  {
    if items == [] then [] else [items[0].key] + Keys(items[1..])
  }

  /**
   * Equality of documents as Python's `==` sees dicts: the same keys, and
   * under each key values that are again the same, whatever the order of
   * the entries. Values that are not dicts are compared exactly.
   */
  predicate SameDoc(a: Value, b: Value)
  {
    match a
    case Dict(xs) => b.Dict? && SameItems(xs, b.items)
    case _ => a == b
  }

  predicate SameItems(xs: seq<Entry>, ys: seq<Entry>)
  {
    && (forall i :: 0 <= i < |xs| ==> xs[i].key in Keys(ys))
    && (forall j :: 0 <= j < |ys| ==> ys[j].key in Keys(xs))
    && (forall i, j :: 0 <= i < |xs| && 0 <= j < |ys| && xs[i].key == ys[j].key ==>
          SameDoc(xs[i].val, ys[j].val))
  }

  /** What `clean` can return: dicts and lists of clean values, strings, and numbers. */
  predicate IsClean(v: Value)
  {
    match v
    case Dict(items) => forall i :: 0 <= i < |items| ==> IsClean(items[i].val)
    case List(elems) => forall i :: 0 <= i < |elems| ==> IsClean(elems[i])
    case Str(_) => true
    case Int(_) => true
    case Float(_) => true
    case _ => false
  }

  /**
   * `clean`: dicts are cleaned value-wise, lists, tuples and sets become
   * lists of cleaned elements, strings and numbers pass unchanged, and every
   * other value becomes its string form (`True`, `False`, `None`, ...).
   */
  function Clean(v: Value): (r: Value)
    ensures r.Dict? <==> v.Dict?
    ensures v.Dict? ==> Keys(r.items) == Keys(v.items)
    ensures r.List? <==> (v.List? || v.Tuple? || v.Set?)
    ensures r.List? ==> |r.elems| == |v.elems|
  {
    match v
    case Dict(items) => Dict(CleanItems(items))
    case List(elems) => List(CleanElems(elems))
    case Tuple(elems) => List(CleanElems(elems))
    case Set(elems) => List(CleanElems(elems))
    case Str(_) => v
    case Int(_) => v
    case Float(_) => v
    case Bool(b) => Str(if b then "True" else "False")
    case Null => Str("None")
    case Other(repr) => Str(repr)
  }

  function CleanItems(items: seq<Entry>): (r: seq<Entry>)
    ensures Keys(r) == Keys(items)
  {
    if items == [] then []
    else [Entry(items[0].key, Clean(items[0].val))] + CleanItems(items[1..])
  }

  function CleanElems(elems: seq<Value>): (r: seq<Value>)
    ensures |r| == |elems|
  {
    if elems == [] then [] else [Clean(elems[0])] + CleanElems(elems[1..])
  }

  /** Everything `clean` returns is clean. */
  lemma {:induction false} CleanIsClean(v: Value)
    ensures IsClean(Clean(v))
  {
    match v
    case Dict(items) => CleanItemsAreClean(items);
    case List(elems) => CleanElemsAreClean(elems);
    case Tuple(elems) => CleanElemsAreClean(elems);
    case Set(elems) => CleanElemsAreClean(elems);
    case _ =>
  }

  lemma {:induction false} CleanItemsAreClean(items: seq<Entry>)
    ensures forall i :: 0 <= i < |items| ==> IsClean(CleanItems(items)[i].val)
  {
    if items != [] {
      CleanIsClean(items[0].val);
      CleanItemsAreClean(items[1..]);
      assert forall i :: 1 <= i < |items| ==> CleanItems(items)[i] == CleanItems(items[1..])[i - 1];
    }
  }

  lemma {:induction false} CleanElemsAreClean(elems: seq<Value>)
    ensures forall i :: 0 <= i < |elems| ==> IsClean(CleanElems(elems)[i])
  {
    if elems != [] {
      CleanIsClean(elems[0]);
      CleanElemsAreClean(elems[1..]);
      assert forall i :: 1 <= i < |elems| ==> CleanElems(elems)[i] == CleanElems(elems[1..])[i - 1];
    }
  }

  /** `clean` leaves a clean value as it is. */
  lemma {:induction false} CleanFixesClean(v: Value)
    requires IsClean(v)
    ensures Clean(v) == v
  {
    match v
    case Dict(items) => CleanItemsFix(items);
    case List(elems) => CleanElemsFix(elems);
    case _ =>
  }

  lemma {:induction false} CleanItemsFix(items: seq<Entry>)
    requires forall i :: 0 <= i < |items| ==> IsClean(items[i].val)
    ensures CleanItems(items) == items
  {
    if items != [] {
      CleanFixesClean(items[0].val);
      forall i | 0 <= i < |items[1..]| ensures IsClean(items[1..][i].val) {
        assert items[1..][i] == items[i + 1];
      }
      CleanItemsFix(items[1..]);
      assert CleanItems(items) == [Entry(items[0].key, Clean(items[0].val))] + items[1..];
      assert items == [items[0]] + items[1..];
    }
  }

  lemma {:induction false} CleanElemsFix(elems: seq<Value>)
    requires forall i :: 0 <= i < |elems| ==> IsClean(elems[i])
    ensures CleanElems(elems) == elems
  {
    if elems != [] {
      assert IsClean(elems[0]);
      CleanFixesClean(elems[0]);
      assert forall i :: 0 <= i < |elems[1..]| ==> elems[1..][i] == elems[i + 1];
      CleanElemsFix(elems[1..]);
      assert elems == [elems[0]] + elems[1..];
    }
  }

  /** `clean` is idempotent, which `split` relies on when it cleans a leaf once per level. */
  lemma CleanIdempotent(v: Value)
    ensures Clean(Clean(v)) == Clean(v)
  {
    CleanIsClean(v);
    CleanFixesClean(Clean(v));
  }
}

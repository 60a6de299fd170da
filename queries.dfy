/**
 * The two selects the client issues against the datastore table. A select
 * is kept as its where-clause conditions and their arguments, in order, plus
 * the optional row cap; `Selects` says which rows such a select returns.
 */
module Queries {
  import opened Wrappers
  import opened Strings
  import opened Keys

  /** One condition of a where clause, compared against the argument in the same position. */
  datatype Op = CollectionEq | ItemEq | ItemLt | ItemLe | ItemGt | ItemGe

  /** A select: the conditions joined by `and`, their arguments, and the `limit` row cap if any. */
  datatype Select = Select(clauses: seq<Op>, args: seq<string>, rowLimit: Option<int>)

  /** Python truthiness of an optional string argument: present and non-empty. */
  predicate Truthy(s: Option<string>)
  {
    s.Some? && s.value != ""
  }

  /** Python truthiness of an optional integer argument: present and non-zero. */
  predicate TruthyInt(n: Option<int>)
  {
    n.Some? && n.value != 0
  }

  predicate LessEq(a: string, b: string)
  {
    Less(a, b) || a == b
  }

  /** Whether one condition holds of a row with the given collection and item ids. */
  predicate Holds(op: Op, arg: string, collection: string, item: string)
  {
    match op
    case CollectionEq => collection == arg
    case ItemEq => item == arg
    case ItemLt => Less(item, arg)
    case ItemLe => LessEq(item, arg)
    case ItemGt => Less(arg, item)
    case ItemGe => LessEq(arg, item)
  }

  /** Whether the select returns the rows stored under this collection and item id. */
  predicate Selects(q: Select, collection: string, item: string)
  {
    && |q.clauses| == |q.args|
    && forall k :: 0 <= k < |q.clauses| ==> Holds(q.clauses[k], q.args[k], collection, item)
  }

  /** `build_scan_stmt`: the rows of exactly the one document the key addresses. */
  function ScanQuery(parentKey: string): (r: Result<Select>)
    ensures r.Fail? <==> CreateKeys(parentKey).Fail?
    ensures r.Fail? ==> r.error == InvalidKey
    ensures r.Ok? ==> r.value.rowLimit.None?
    ensures r.Ok? ==> forall c, i :: Selects(r.value, c, i) <==> CreateKeys(parentKey) == Ok((c, i))
  {
    match CreateKeys(parentKey)
    case Fail(e) => Fail(e)
    case Ok((c, i)) =>
      var q := Select([CollectionEq, ItemEq], [c, i], None);
      SelectsByClause(q);
      Ok(q)
  }

  /** A select of two or three conditions returns a row exactly when each of them holds of it. */
  lemma SelectsByClause(q: Select)
    requires |q.clauses| == |q.args| && 2 <= |q.clauses| <= 3
    ensures forall c, i :: Selects(q, c, i) <==>
              && Holds(q.clauses[0], q.args[0], c, i)
              && Holds(q.clauses[1], q.args[1], c, i)
              && (|q.clauses| == 3 ==> Holds(q.clauses[2], q.args[2], c, i))
  {
    forall c, i | Holds(q.clauses[0], q.args[0], c, i) && Holds(q.clauses[1], q.args[1], c, i)
                  && (|q.clauses| == 3 ==> Holds(q.clauses[2], q.args[2], c, i))
      ensures Selects(q, c, i)
    {
      forall k | 0 <= k < |q.clauses| ensures Holds(q.clauses[k], q.args[k], c, i) {
        assert k == 0 || k == 1 || k == 2;
      }
    }
  }

  /** `build_scan_stmt`, appending one condition and one argument at a time. */
  method BuildScanStmt(parentKey: string) returns (r: Result<Select>)
    ensures r == ScanQuery(parentKey)
  {
    var keys := CreateKeys(parentKey);
    if keys.Fail? {
      return Fail(keys.error);
    }
    var (collectionId, itemId) := keys.value;
    var clauses: seq<Op> := [];
    var args: seq<string> := [];
    clauses := clauses + [CollectionEq];
    args := args + [collectionId];
    clauses := clauses + [ItemEq];
    args := args + [itemId];
    assert clauses == [CollectionEq, ItemEq] && args == [collectionId, itemId];
    return Ok(Select(clauses, args, None));
  }

  /** The upper bound of a deep scan: `<= lte` when given, else `< lt`, with `lt` defaulting to ROOT. */
  predicate BelowUpper(item: string, lt: Option<string>, lte: Option<string>)
  {
    if Truthy(lte) then LessEq(item, lte.value)
    else Less(item, if Truthy(lt) then lt.value else ROOT)
  }

  /** The lower bound of a deep scan: `>= gte` when given, else `> gt` when given, else none. */
  predicate AboveLower(item: string, gt: Option<string>, gte: Option<string>)
  {
    if Truthy(gte) then LessEq(gte.value, item)
    else if Truthy(gt) then Less(gt.value, item)
    else true
  }

  /** The upper-bound condition and its argument: `<= lte` when `lte` is truthy, else `< lt`, with `lt` defaulting to ROOT. */
  function Upper(lt: Option<string>, lte: Option<string>): (Op, string)
  {
    if Truthy(lte) then (ItemLe, lte.value) else (ItemLt, if Truthy(lt) then lt.value else ROOT)
  }

  /** The lower-bound conditions and their arguments: `>= gte`, else `> gt`, else none. */
  function Lower(gt: Option<string>, gte: Option<string>): (seq<Op>, seq<string>)
  {
    if Truthy(gte) then ([ItemGe], [gte.value])
    else if Truthy(gt) then ([ItemGt], [gt.value])
    else ([], [])
  }

  /** The upper-bound condition holds of a row exactly when its id is below the upper bound. */
  lemma UpperHolds(lt: Option<string>, lte: Option<string>, c: string, i: string)
    ensures Holds(Upper(lt, lte).0, Upper(lt, lte).1, c, i) <==> BelowUpper(i, lt, lte)
  {
  }

  /** The lower-bound condition, when there is one, holds of a row exactly when its id is above the lower bound. */
  lemma LowerHolds(gt: Option<string>, gte: Option<string>, c: string, i: string)
    ensures |Lower(gt, gte).0| == |Lower(gt, gte).1| <= 1
    ensures |Lower(gt, gte).0| == 1 <==> Truthy(gte) || Truthy(gt)
    ensures |Lower(gt, gte).0| == 1 ==> (Holds(Lower(gt, gte).0[0], Lower(gt, gte).1[0], c, i) <==> AboveLower(i, gt, gte))
    ensures |Lower(gt, gte).0| == 0 ==> AboveLower(i, gt, gte)
  {
  }

  /**
   * `build_deep_scan_stmt`: the collection condition first, then exactly
   * one upper bound, then at most one lower bound, one argument per
   * condition; the row cap is `limit * keys_per_item` when `limit` is truthy.
   */
  function DeepScanQuery(parentKey: string, gt: Option<string>, gte: Option<string>,
                         lt: Option<string>, lte: Option<string>,
                         limit: Option<int>, keysPerItem: int): (r: Result<Select>)
    ensures r.Fail? <==> '/' !in TrimSlashes(parentKey)
    ensures r.Ok? ==> |r.value.clauses| == |r.value.args|
    ensures r.Ok? ==> (|r.value.clauses| == 3 <==> Truthy(gte) || Truthy(gt)) && 2 <= |r.value.clauses| <= 3
    ensures r.Ok? ==> r.value.clauses[0] == CollectionEq && r.value.args[0] == DeepScanCollection(parentKey).value
    ensures r.Ok? ==> r.value.clauses[1] in {ItemLt, ItemLe}
    ensures r.Ok? ==> forall k :: 2 <= k < |r.value.clauses| ==> r.value.clauses[k] in {ItemGt, ItemGe}
    ensures r.Ok? ==> r.value.rowLimit == if TruthyInt(limit) then Some(limit.value * keysPerItem) else None
    ensures r.Ok? ==> forall c, i :: Selects(r.value, c, i) <==>
              c == DeepScanCollection(parentKey).value && BelowUpper(i, lt, lte) && AboveLower(i, gt, gte)
  {
    match DeepScanCollection(parentKey)
    case Fail(e) => Fail(e)
    case Ok(collectionId) =>
      var q := DeepSelect(collectionId, gt, gte, lt, lte, if TruthyInt(limit) then Some(limit.value * keysPerItem) else None);
      DeepSelectMeaning(collectionId, gt, gte, lt, lte, q.rowLimit);
      Ok(q)
  }

  /** The deep-scan select of one collection: the collection condition, the upper bound, then the lower bound if any. */
  function DeepSelect(collectionId: string, gt: Option<string>, gte: Option<string>,
                      lt: Option<string>, lte: Option<string>, rowLimit: Option<int>): (q: Select)
    ensures |q.clauses| == |q.args| && 2 <= |q.clauses| <= 3
    ensures |q.clauses| == 3 <==> Truthy(gte) || Truthy(gt)
    ensures q.clauses[0] == CollectionEq && q.args[0] == collectionId && q.rowLimit == rowLimit
    ensures q.clauses[1] in {ItemLt, ItemLe}
    ensures forall k :: 2 <= k < |q.clauses| ==> q.clauses[k] in {ItemGt, ItemGe}
  {
    var upper, lower := Upper(lt, lte), Lower(gt, gte);
    LowerHolds(gt, gte, collectionId, "");
    Select([CollectionEq, upper.0] + lower.0, [collectionId, upper.1] + lower.1, rowLimit)
  }

  /** The deep-scan select returns exactly the rows of its collection whose ids lie within the bounds. */
  lemma DeepSelectMeaning(collectionId: string, gt: Option<string>, gte: Option<string>,
                          lt: Option<string>, lte: Option<string>, rowLimit: Option<int>)
    ensures forall c, i :: Selects(DeepSelect(collectionId, gt, gte, lt, lte, rowLimit), c, i) <==>
              c == collectionId && BelowUpper(i, lt, lte) && AboveLower(i, gt, gte)
  {
    var q := DeepSelect(collectionId, gt, gte, lt, lte, rowLimit);
    SelectsByClause(q);
    forall c, i ensures Selects(q, c, i) <==> c == collectionId && BelowUpper(i, lt, lte) && AboveLower(i, gt, gte) {
      UpperHolds(lt, lte, c, i);
      LowerHolds(gt, gte, c, i);
    }
  }

  /** `build_deep_scan_stmt`, appending conditions and arguments as the bounds are examined. */
  method BuildDeepScanStmt(parentKey: string, gt: Option<string>, gte: Option<string>,
                           lt: Option<string>, lte: Option<string>,
                           limit: Option<int>, keysPerItem: int) returns (r: Result<Select>)
    ensures r == DeepScanQuery(parentKey, gt, gte, lt, lte, limit, keysPerItem)
  {
    var collection := DeepScanCollection(parentKey);
    if collection.Fail? {
      return Fail(collection.error);
    }
    var rowLimit: Option<int> := None;
    if TruthyInt(limit) {
      rowLimit := Some(limit.value * keysPerItem);
    }
    var q := BuildDeepSelect(collection.value, gt, gte, lt, lte, rowLimit);
    return Ok(q);
  }

  /** The conditions and arguments of a deep scan, appended as the bounds are examined. */
  method BuildDeepSelect(collectionId: string, gt: Option<string>, gte: Option<string>,
                         lt: Option<string>, lte: Option<string>, rowLimit: Option<int>) returns (q: Select)
    ensures q == DeepSelect(collectionId, gt, gte, lt, lte, rowLimit)
  {
    var clauses: seq<Op> := [CollectionEq];
    var args: seq<string> := [collectionId];
    var upperDefault := if Truthy(lt) then lt.value else ROOT;
    if Truthy(lte) {
      clauses := clauses + [ItemLe];
      args := args + [lte.value];
    } else {
      clauses := clauses + [ItemLt];
      args := args + [upperDefault];
    }
    assert clauses == [CollectionEq, Upper(lt, lte).0] && args == [collectionId, Upper(lt, lte).1];
    ghost var head, headArgs := clauses, args;
    if Truthy(gte) {
      clauses := clauses + [ItemGe];
      args := args + [gte.value];
    } else if Truthy(gt) {
      clauses := clauses + [ItemGt];
      args := args + [gt.value];
    }
    assert clauses == head + Lower(gt, gte).0 && args == headArgs + Lower(gt, gte).1;
    return Select(clauses, args, rowLimit);
  }

  /**
   * A deep scan with no bounds returns every ordinary item of its
   * collection (an id below '|') and never the collection's own ROOT item.
   */
  lemma DeepScanDefaultBounds(parentKey: string, limit: Option<int>, keysPerItem: int, c: string, i: string)
    requires '/' in TrimSlashes(parentKey)
    requires i == [] || i[0] < '|'
    ensures Selects(DeepScanQuery(parentKey, None, None, None, None, limit, keysPerItem).value,
                    DeepScanCollection(parentKey).value, i)
    ensures !Selects(DeepScanQuery(parentKey, None, None, None, None, limit, keysPerItem).value, c, ROOT)
  {
    RootBoundsOrdinaryIds(i);
  }

  /** A deep scan with no bounds never returns an item whose id starts above '|' (`}`, `~`, a non-ASCII letter). */
  lemma DeepScanSkipsHighIds(parentKey: string, limit: Option<int>, keysPerItem: int, c: string, i: string)
    requires '/' in TrimSlashes(parentKey)
    requires |i| > 0 && i[0] > '|'
    ensures !Selects(DeepScanQuery(parentKey, None, None, None, None, limit, keysPerItem).value, c, i)
  {
    RootBoundsHighIds(i);
  }

  /**
   * Paging: a deep scan continued with `gt` set to the last id of a page
   * returns no id at or below it, so it never repeats that page.
   */
  lemma DeepScanNextPage(parentKey: string, last: string, lt: Option<string>, lte: Option<string>,
                         limit: Option<int>, keysPerItem: int, c: string, i: string)
    requires '/' in TrimSlashes(parentKey) && last != ""
    requires LessEq(i, last)
    ensures !Selects(DeepScanQuery(parentKey, Some(last), None, lt, lte, limit, keysPerItem).value, c, i)
  {
    if Less(last, i) {
      LessAsymmetric(last, i);
      LessIrreflexive(i);
    }
  }

  /** `lte` takes precedence over `lt`, and `gte` over `gt`: the one not used does not affect the select. */
  lemma DeepScanBoundPrecedence(parentKey: string, gt1: Option<string>, gt2: Option<string>, gte: Option<string>,
                                lt1: Option<string>, lt2: Option<string>, lte: Option<string>,
                                limit: Option<int>, keysPerItem: int)
    requires Truthy(gte) && Truthy(lte)
    ensures DeepScanQuery(parentKey, gt1, gte, lt1, lte, limit, keysPerItem)
         == DeepScanQuery(parentKey, gt2, gte, lt2, lte, limit, keysPerItem)
  {
  }

  /**
   * Where a deep scan of `p` looks, against where `put` stores the children
   * of `p`: with three or more segments the default deep scan of `p`
   * returns every ordinary child `p/x`; with exactly two it returns none of
   * them, because it reads the collection `p/||ROOT||`.
   */
  lemma DeepScanFindsChildren(p: string, x: string, limit: Option<int>, keysPerItem: int)
    requires |p| > 0 && p[0] != '/' && p[|p| - 1] != '/' && '/' in p
    requires x != "" && '/' !in x && x[0] < '|'
    ensures CreateKeys(p + "/" + x) == Ok((p, x))
    ensures Selects(DeepScanQuery(p, None, None, None, None, limit, keysPerItem).value, p, x)
            <==> Count(p, '/') >= 2
  {
    ChildKeys(p, x);
    DeepScanReadsItself(p);
    assert TrimSlashes(p) == p;
    RootBoundsOrdinaryIds(x);
    var q := DeepScanQuery(p, None, None, None, None, limit, keysPerItem);
    var coll := DeepScanCollection(p);
    assert coll.Ok? && q.Ok?;
    assert BelowUpper(x, None, None) && AboveLower(x, None, None);
    assert Selects(q.value, p, x) <==> coll.value == p;
    if Count(p, '/') == 1 {
      assert |coll.value| > |p|;
    }
  }
}

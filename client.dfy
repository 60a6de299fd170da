/**
 * The statements `Client.put` and `Client.delete` hand to the session: the
 * statement list of the batch and the flat list of arguments bound to it.
 * The session itself, and the text of the statements, are not modelled.
 */
module Client {
  import opened Wrappers
  import opened Strings
  import opened Keys
  import opened Values
  import opened Flatten
  import opened Rebuild
  import opened Queries
  import opened Reorder

  /** A statement of a batch: delete one document's rows, or insert one row. */
  datatype Stmt = Delete | Insert

  /** A batch: its statements in order and the arguments bound to them in order; `None` binds null. */
  datatype Batch = Batch(stmts: seq<Stmt>, args: seq<Option<string>>)

  /** `Client.delete`: the `(collection_id, item_id)` its statement binds, which selects exactly what a scan of the key reads. */
  function DeleteArgs(key: string): (r: Result<seq<string>>)
    ensures r.Fail? <==> '/' !in TrimSlashes(key)
    ensures r.Fail? ==> r.error == InvalidKey
    ensures r.Ok? ==> |r.value| == 2 && ScanQuery(key).Ok?
    ensures r.Ok? ==> forall c, i :: Selects(ScanQuery(key).value, c, i) <==> c == r.value[0] && i == r.value[1]
  {
    match CreateKeys(key)
    case Fail(e) => Fail(e)
    case Ok((c, i)) => Ok([c, i])
  }

  /** `n` insert statements. */
  function Inserts(n: nat): (r: seq<Stmt>)
    ensures |r| == n && forall k :: 0 <= k < n ==> r[k] == Insert
  {
    if n == 0 then [] else Inserts(n - 1) + [Insert]
  }

  /** The four arguments of one insert: `(collection_id, item_id, path, dumps(value))`. */
  function InsertGroup(c: string, i: string, p: Pair, dumps: Value -> string): seq<Option<string>>
  {
    [Some(c), Some(i), p.path, Some(dumps(p.val))]
  }

  /** The arguments of the inserts for the pairs, one group of four per pair, in order. */
  function InsertArgs(c: string, i: string, ps: seq<Pair>, dumps: Value -> string): (r: seq<Option<string>>)
    ensures |r| == 4 * |ps|
  {
    if ps == [] then []
    else InsertArgs(c, i, ps[..|ps| - 1], dumps) + InsertGroup(c, i, ps[|ps| - 1], dumps)
  }

  /** Insert `k` binds the collection id, the item id, the path of pair `k` and its encoded value. */
  lemma {:induction false} InsertArgsLayout(c: string, i: string, ps: seq<Pair>, dumps: Value -> string)
    ensures forall k :: 0 <= k < |ps| ==>
              InsertArgs(c, i, ps, dumps)[4 * k..4 * k + 4] == InsertGroup(c, i, ps[k], dumps)
  {
    if ps != [] {
      var init := ps[..|ps| - 1];
      var prev := InsertArgs(c, i, init, dumps);
      var a := InsertArgs(c, i, ps, dumps);
      InsertArgsLayout(c, i, init, dumps);
      forall k | 0 <= k < |ps| ensures a[4 * k..4 * k + 4] == InsertGroup(c, i, ps[k], dumps) {
        if k < |init| {
          assert a[4 * k..4 * k + 4] == prev[4 * k..4 * k + 4];
          assert init[k] == ps[k];
        } else {
          assert a[4 * k..4 * k + 4] == a[|prev|..];
        }
      }
    }
  }

  /** The statement `put` starts its batch with: the delete of the document when overwriting. */
  function Head(overwrite: bool): seq<Stmt>
  {
    if overwrite then [Delete] else []
  }

  /** The arguments bound to `Head`: the document's collection id and item id when overwriting. */
  function HeadArgs(overwrite: bool, c: string, i: string): seq<Option<string>>
  {
    if overwrite then [Some(c), Some(i)] else []
  }

  /** The `put` batch: an optional leading delete, then one insert per pair `split` yields. */
  function PutBatchOf(key: string, data: Value, dumps: Value -> string, overwrite: bool): (r: Result<Batch>)
    ensures r.Fail? <==> '/' !in TrimSlashes(key)
    ensures r.Ok? ==> |r.value.args| == (if overwrite then 2 else 0) + 4 * |Split(data, None)|
    ensures r.Ok? ==> |r.value.stmts| == (if overwrite then 1 else 0) + |Split(data, None)|
    ensures r.Ok? && overwrite ==>
              r.value.stmts[0] == Delete && r.value.args[..2] == [Some(CreateKeys(key).value.0), Some(CreateKeys(key).value.1)]
    ensures r.Ok? ==> forall k :: (if overwrite then 1 else 0) <= k < |r.value.stmts| ==> r.value.stmts[k] == Insert
  {
    match CreateKeys(key)
    case Fail(e) => Fail(e)
    case Ok((c, i)) =>
      var ps := Split(data, None);
      Ok(Batch(Head(overwrite) + Inserts(|ps|), HeadArgs(overwrite, c, i) + InsertArgs(c, i, ps, dumps)))
  }

  /** `Client.put`'s batch construction: the delete first when overwriting, then an insert per pair. */
  method PutBatch(key: string, data: Value, dumps: Value -> string, overwrite: bool) returns (r: Result<Batch>)
    ensures r == PutBatchOf(key, data, dumps, overwrite)
  {
    var keys := CreateKeys(key);
    if keys.Fail? {
      return Fail(keys.error);
    }
    var (collectionId, itemId) := keys.value;
    var batch: seq<Stmt> := [];
    var args: seq<Option<string>> := [];
    if overwrite {
      batch := batch + [Delete];
      args := args + [Some(collectionId), Some(itemId)];
    }
    assert batch == Head(overwrite) && args == HeadArgs(overwrite, collectionId, itemId);
    var pairs := Split(data, None);
    batch, args := AppendInserts(batch, args, collectionId, itemId, pairs, dumps);
    return Ok(Batch(batch, args));
  }

  /** The loop of `put` over the pairs: one insert and its four arguments per pair, appended in order. */
  method AppendInserts(batch: seq<Stmt>, args: seq<Option<string>>, c: string, i: string,
                       pairs: seq<Pair>, dumps: Value -> string)
    returns (batch': seq<Stmt>, args': seq<Option<string>>)
    ensures batch' == batch + Inserts(|pairs|)
    ensures args' == args + InsertArgs(c, i, pairs, dumps)
  {
    batch', args' := batch, args;
    var k := 0;
    assert pairs[..0] == [];
    while k < |pairs|
      invariant 0 <= k <= |pairs|
      invariant batch' == batch + Inserts(k)
      invariant args' == args + InsertArgs(c, i, pairs[..k], dumps)
    {
      SeqAssoc(batch, Inserts(k), [Insert]);
      batch' := batch' + [Insert];
      var group := InsertGroup(c, i, pairs[k], dumps);
      InsertArgsStep(c, i, pairs, k, dumps);
      SeqAssoc(args, InsertArgs(c, i, pairs[..k], dumps), group);
      args' := args' + group;
      k := k + 1;
    }
    assert pairs[..k] == pairs;
  }

  /** The arguments of the first `k + 1` pairs are those of the first `k`, then the four of pair `k`. */
  lemma InsertArgsStep(c: string, i: string, ps: seq<Pair>, k: nat, dumps: Value -> string)
    requires k < |ps|
    ensures InsertArgs(c, i, ps[..k + 1], dumps) == InsertArgs(c, i, ps[..k], dumps) + InsertGroup(c, i, ps[k], dumps)
  {
    assert ps[..k + 1][..k] == ps[..k];
  }

  /** The pairs a scan reads back from insert arguments, decoding each value with `loads`. */
  function ReadBack(args: seq<Option<string>>, loads: string -> Value): (ps: seq<Pair>)
    ensures |ps| == |args| / 4
  {
    if |args| < 4 then []
    else
      var v := args[|args| - 1];
      ReadBack(args[..|args| - 4], loads)
        + [Pair(args[|args| - 2], loads(if v.Some? then v.value else ""))]
  }

  lemma {:induction false} ReadBackInserts(c: string, i: string, ps: seq<Pair>, dumps: Value -> string, loads: string -> Value)
    requires forall k :: 0 <= k < |ps| ==> loads(dumps(ps[k].val)) == ps[k].val
    ensures ReadBack(InsertArgs(c, i, ps, dumps), loads) == ps
  {
    if ps != [] {
      var init, last := ps[..|ps| - 1], ps[|ps| - 1];
      InsertArgsStep(c, i, ps, |ps| - 1, dumps);
      assert ps[..|ps|] == ps;
      var a := InsertArgs(c, i, ps, dumps);
      var prev := InsertArgs(c, i, init, dumps);
      assert a[..|a| - 4] == prev;
      assert a[|a| - 2] == last.path && a[|a| - 1] == Some(dumps(last.val));
      assert loads(dumps(last.val)) == last.val;
      ReadBackInserts(c, i, init, dumps, loads);
      calc {
        ReadBack(a, loads);
        ReadBack(prev, loads) + [Pair(last.path, loads(dumps(last.val)))];
        init + [last];
      }
    }
  }

  /** Every insert binds the document's collection id and item id first. */
  lemma {:induction false} InsertArgsAddress(c: string, i: string, ps: seq<Pair>, dumps: Value -> string)
    ensures forall k :: 0 <= k < |ps| ==>
              InsertArgs(c, i, ps, dumps)[4 * k] == Some(c) && InsertArgs(c, i, ps, dumps)[4 * k + 1] == Some(i)
  {
    if ps != [] {
      var init := ps[..|ps| - 1];
      var prev := InsertArgs(c, i, init, dumps);
      var a := InsertArgs(c, i, ps, dumps);
      InsertArgsAddress(c, i, init, dumps);
      assert a == prev + InsertGroup(c, i, ps[|ps| - 1], dumps);
      forall k | 0 <= k < |ps| ensures a[4 * k] == Some(c) && a[4 * k + 1] == Some(i) {
        if k < |init| {
          assert a[4 * k] == prev[4 * k] && a[4 * k + 1] == prev[4 * k + 1];
        }
      }
    }
  }

  /** Every insert of a `put` batch writes a row of the document a scan of the same key reads. */
  lemma PutInsertsTarget(key: string, data: Value, dumps: Value -> string, overwrite: bool)
    requires '/' in TrimSlashes(key)
    ensures var args := PutBatchOf(key, data, dumps, overwrite).value.args;
            var inserts := if overwrite then args[2..] else args;
            forall k :: 0 <= k < |inserts| / 4 ==>
              inserts[4 * k].Some? && inserts[4 * k + 1].Some? &&
              Selects(ScanQuery(key).value, inserts[4 * k].value, inserts[4 * k + 1].value)
  {
    var keys := CreateKeys(key).value;
    BatchInserts(key, data, dumps, overwrite);
    assert Selects(ScanQuery(key).value, keys.0, keys.1);
    InsertsSelected(ScanQuery(key).value, keys.0, keys.1, Split(data, None), dumps);
  }

  /** When a query selects `(c, i)`, it selects the document every insert for `(c, i)` writes. */
  lemma InsertsSelected(q: Select, c: string, i: string, ps: seq<Pair>, dumps: Value -> string)
    requires Selects(q, c, i)
    ensures var a := InsertArgs(c, i, ps, dumps);
            forall k :: 0 <= k < |a| / 4 ==>
              a[4 * k].Some? && a[4 * k + 1].Some? && Selects(q, a[4 * k].value, a[4 * k + 1].value)
  {
    var a := InsertArgs(c, i, ps, dumps);
    InsertArgsAddress(c, i, ps, dumps);
    forall k | 0 <= k < |a| / 4
      ensures a[4 * k].Some? && a[4 * k + 1].Some? && Selects(q, a[4 * k].value, a[4 * k + 1].value)
    {
      assert a[4 * k] == Some(c) && a[4 * k + 1] == Some(i);
    }
  }

  /** The insert arguments of a `put` batch, after the delete's two when overwriting. */
  lemma BatchInserts(key: string, data: Value, dumps: Value -> string, overwrite: bool)
    requires '/' in TrimSlashes(key)
    ensures var args := PutBatchOf(key, data, dumps, overwrite).value.args;
            (if overwrite then args[2..] else args)
              == InsertArgs(CreateKeys(key).value.0, CreateKeys(key).value.1, Split(data, None), dumps)
  {
    var (c, i) := CreateKeys(key).value;
    var rest := InsertArgs(c, i, Split(data, None), dumps);
    assert (HeadArgs(overwrite, c, i) + rest)[|HeadArgs(overwrite, c, i)|..] == rest;
  }

  /**
   * What `put` writes, `get` reads back: when `loads` undoes `dumps` on
   * clean values, combining the inserted rows in batch order yields the
   * cleaned document.
   */
  lemma PutThenGet(key: string, data: Value, dumps: Value -> string, loads: string -> Value, overwrite: bool)
    requires '/' in TrimSlashes(key) && Storable(data)
    requires forall v :: IsClean(v) ==> loads(dumps(v)) == v
    ensures var args := PutBatchOf(key, data, dumps, overwrite).value.args;
            CombineFrom([], ReadBack(if overwrite then args[2..] else args, loads)) == Ok(Clean(data).items)
  {
    var (c, i) := CreateKeys(key).value;
    var ps := Split(data, None);
    var args := PutBatchOf(key, data, dumps, overwrite).value.args;
    BatchInserts(key, data, dumps, overwrite);
    SplitValuesAreClean(data, None);
    ReadBackInserts(c, i, ps, dumps, loads);
    RoundTrip(data);
  }

  /**
   * `get` returns the rows sorted by key, not in the order `put` wrote them.
   * Whatever order the rows written by `put` come back in, combining them
   * succeeds and gives the same document as `clean(data)`.
   */
  lemma PutThenGetAnyOrder(key: string, data: Value, dumps: Value -> string, loads: string -> Value,
                           overwrite: bool, rows: seq<Pair>)
    requires '/' in TrimSlashes(key) && Storable(data)
    requires forall v :: IsClean(v) ==> loads(dumps(v)) == v
    requires var args := PutBatchOf(key, data, dumps, overwrite).value.args;
             multiset(rows) == multiset(ReadBack(if overwrite then args[2..] else args, loads))
    ensures CombineFrom([], rows).Ok?
    ensures SameDoc(Dict(CombineFrom([], rows).value), Clean(data))
  {
    var (c, i) := CreateKeys(key).value;
    var ps := Split(data, None);
    BatchInserts(key, data, dumps, overwrite);
    SplitValuesAreClean(data, None);
    ReadBackInserts(c, i, ps, dumps, loads);
    RoundTripAnyOrder(data, rows);
  }
}

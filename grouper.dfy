/**
 * `construct`: the rows of a deep scan arrive ordered by item id; every
 * maximal run of consecutive rows with one item id is one document, rebuilt
 * with `combine`. A truthy `limit` stops the stream after that many
 * documents.
 */
module Grouper {
  import opened Wrappers
  import opened Values
  import opened Flatten
  import opened Rebuild
  import opened Queries

  /** A row as a deep scan returns it: its item id, the stored path, and the encoded value. */
  datatype Row = Row(itemId: string, key: Option<string>, value: string)

  /** Consecutive rows sharing one item id. */
  datatype Run = Run(id: string, rows: seq<Row>)

  /** One document the stream yields: `(item_id, combine(parts))`. */
  datatype Doc = Doc(id: string, body: Value)

  /** What the stream yields before it ends, and the error it ends with, if any. */
  datatype Output = Output(docs: seq<Doc>, err: Option<Error>)

  /** The maximal runs of equal item ids, in stream order (defined row by row from the front). */
  function Runs(rows: seq<Row>): seq<Run>
  {
    if rows == [] then []
    else
      var rs := Runs(rows[..|rows| - 1]);
      var r := rows[|rows| - 1];
      if rs != [] && rs[|rs| - 1].id == r.itemId then
        rs[..|rs| - 1] + [Run(r.itemId, rs[|rs| - 1].rows + [r])]
      else
        rs + [Run(r.itemId, [r])]
  }

  /** The rows of the runs, run after run. */
  function Flat(rs: seq<Run>): seq<Row>
  {
    if rs == [] then [] else Flat(rs[..|rs| - 1]) + rs[|rs| - 1].rows
  }

  /** `(r.key, loads(r.value))` for every row, in order: the pairs handed to `combine`. */
  function Parts(rows: seq<Row>, loads: string -> Value): seq<Pair>
  {
    seq(|rows|, i requires 0 <= i < |rows| => Pair(rows[i].key, loads(rows[i].value)))
  }

  /**
   * The documents of the runs in order, each combined from its rows;
   * the first run whose `combine` fails ends the stream with that error.
   */
  function Emit(rs: seq<Run>, loads: string -> Value): Output
  {
    if rs == [] then Output([], None)
    else
      var prev := Emit(rs[..|rs| - 1], loads);
      if prev.err.Some? then prev
      else
        var last := rs[|rs| - 1];
        match CombineFrom([], Parts(last.rows, loads))
        case Ok(items) => Output(prev.docs + [Doc(last.id, Dict(items))], None)
        case Fail(e) => Output(prev.docs, Some(e))
  }

  /** How many runs the stream flushes: all of them, or `max(limit, 1)` when a truthy limit is smaller. */
  function Quota(limit: Option<int>, runs: nat): (q: nat)
    ensures q <= runs
    ensures TruthyInt(limit) && limit.value <= 1 && runs > 0 ==> q == 1
    ensures !TruthyInt(limit) ==> q == runs
  {
    if TruthyInt(limit) then
      (var cap := if limit.value < 1 then 1 else limit.value; if cap < runs then cap else runs)
    else runs
  }

  /** How many runs reached `combine`: the documents yielded, and the one that failed, if any. */
  function Flushed(out: Output): nat
  {
    |out.docs| + if out.err.Some? then 1 else 0
  }

  /** Runs are the rows, cut into pieces: concatenating them gives the stream back. */
  lemma {:induction false} RunsFlat(rows: seq<Row>)
    ensures Flat(Runs(rows)) == rows
  {
    if rows != [] {
      var init := rows[..|rows| - 1];
      var rs := Runs(init);
      var r := rows[|rows| - 1];
      assert init + [r] == rows;
      RunsFlat(init);
      if rs != [] && rs[|rs| - 1].id == r.itemId {
        var pre, last := rs[..|rs| - 1], rs[|rs| - 1];
        assert Runs(rows) == pre + [Run(r.itemId, last.rows + [r])];
        assert pre + [last] == rs;
        FlatSnoc(pre, last);
        FlatSnoc(pre, Run(r.itemId, last.rows + [r]));
        calc {
          Flat(Runs(rows));
          Flat(pre) + (last.rows + [r]);
          (Flat(pre) + last.rows) + [r];
          Flat(rs) + [r];
        }
      } else {
        assert Runs(rows) == rs + [Run(r.itemId, [r])];
        FlatSnoc(rs, Run(r.itemId, [r]));
      }
    }
  }

  lemma FlatSnoc(rs: seq<Run>, r: Run)
    ensures Flat(rs + [r]) == Flat(rs) + r.rows
  {
    assert (rs + [r])[..|rs|] == rs;
  }

  /** Each run is non-empty and all its rows carry its id; the last run has the last row's id. */
  lemma {:induction false} RunsUniform(rows: seq<Row>)
    ensures forall k :: 0 <= k < |Runs(rows)| ==>
              Runs(rows)[k].rows != [] && forall row :: row in Runs(rows)[k].rows ==> row.itemId == Runs(rows)[k].id
    ensures rows != [] <==> Runs(rows) != []
    ensures rows != [] ==> Runs(rows)[|Runs(rows)| - 1].id == rows[|rows| - 1].itemId
  {
    if rows != [] {
      var init := rows[..|rows| - 1];
      var rs := Runs(init);
      var r := rows[|rows| - 1];
      RunsUniform(init);
      var out := Runs(rows);
      if rs != [] && rs[|rs| - 1].id == r.itemId {
        assert out == rs[..|rs| - 1] + [Run(r.itemId, rs[|rs| - 1].rows + [r])];
        forall k | 0 <= k < |out|
          ensures out[k].rows != [] && forall row :: row in out[k].rows ==> row.itemId == out[k].id
        {
          if k < |rs| - 1 {
            assert out[k] == rs[k];
          }
        }
      } else {
        assert out == rs + [Run(r.itemId, [r])];
        forall k | 0 <= k < |out|
          ensures out[k].rows != [] && forall row :: row in out[k].rows ==> row.itemId == out[k].id
        {
          if k < |rs| {
            assert out[k] == rs[k];
          }
        }
      }
    }
  }

  /** Neighbouring runs have different ids, so the runs are maximal. */
  lemma {:induction false} RunsMaximal(rows: seq<Row>)
    ensures forall k :: 0 < k < |Runs(rows)| ==> Runs(rows)[k - 1].id != Runs(rows)[k].id
  {
    if rows != [] {
      var init := rows[..|rows| - 1];
      var rs := Runs(init);
      var r := rows[|rows| - 1];
      RunsMaximal(init);
      var out := Runs(rows);
      if rs != [] && rs[|rs| - 1].id == r.itemId {
        assert out == rs[..|rs| - 1] + [Run(r.itemId, rs[|rs| - 1].rows + [r])];
        forall k | 0 < k < |out| ensures out[k - 1].id != out[k].id {
          assert out[k - 1].id == rs[k - 1].id && out[k].id == rs[k].id;
        }
      } else {
        assert out == rs + [Run(r.itemId, [r])];
        forall k | 0 < k < |out| ensures out[k - 1].id != out[k].id {
          if k < |rs| {
            assert out[k - 1] == rs[k - 1] && out[k] == rs[k];
          }
        }
      }
    }
  }

  /** Reading one more row either extends the last run or starts a new one. */
  lemma RunsStep(rows: seq<Row>, j: nat)
    requires j < |rows|
    ensures var rs := Runs(rows[..j]);
            if rs != [] && rs[|rs| - 1].id == rows[j].itemId then
              Runs(rows[..j + 1]) == rs[..|rs| - 1] + [Run(rows[j].itemId, rs[|rs| - 1].rows + [rows[j]])]
            else
              Runs(rows[..j + 1]) == rs + [Run(rows[j].itemId, [rows[j]])]
  {
    assert rows[..j + 1][..j] == rows[..j];
  }

  /**
   * When row `j` starts a new run, the runs of the rows before it are
   * exactly the first runs of the whole stream, and more runs follow.
   */
  lemma {:induction false} RunsPrefix(rows: seq<Row>, j: nat)
    requires 0 < j < |rows| && rows[j].itemId != rows[j - 1].itemId
    ensures |Runs(rows[..j])| < |Runs(rows)|
    ensures Runs(rows)[..|Runs(rows[..j])|] == Runs(rows[..j])
  {
    var n := |rows|;
    if n == j + 1 {
      RunsBreak(rows, j);
      assert rows[..j + 1] == rows;
    } else {
      var init := rows[..n - 1];
      assert init[..j] == rows[..j] && init[j] == rows[j] && init[j - 1] == rows[j - 1];
      RunsPrefix(init, j);
      RunsGrow(rows, n, |Runs(rows[..j])|);
      assert rows[..n] == rows;
    }
  }

  /** A row with a new item id starts a run after all the earlier ones. */
  lemma RunsBreak(rows: seq<Row>, j: nat)
    requires 0 < j < |rows| && rows[j].itemId != rows[j - 1].itemId
    ensures |Runs(rows[..j])| < |Runs(rows[..j + 1])|
    ensures Runs(rows[..j + 1])[..|Runs(rows[..j])|] == Runs(rows[..j])
  {
    var rs := Runs(rows[..j]);
    RunsStep(rows, j);
    assert rows[..j][j - 1] == rows[j - 1];
    assert rs != [] && rs[|rs| - 1].id == rows[j - 1].itemId;
    PrefixOfAppend(rs, [Run(rows[j].itemId, [rows[j]])], |rs|);
    assert rs[..|rs|] == rs;
  }

  /** One more row keeps every run but the last one, and never lowers their number. */
  lemma RunsGrow(rows: seq<Row>, k: nat, m: nat)
    requires 0 < k <= |rows| && m < |Runs(rows[..k - 1])|
    ensures |Runs(rows[..k - 1])| <= |Runs(rows[..k])|
    ensures Runs(rows[..k])[..m] == Runs(rows[..k - 1])[..m]
  {
    var rs := Runs(rows[..k - 1]);
    var r := rows[k - 1];
    RunsStep(rows, k - 1);
    if rs != [] && rs[|rs| - 1].id == r.itemId {
      var pre := rs[..|rs| - 1];
      PrefixOfAppend(pre, [Run(r.itemId, rs[|rs| - 1].rows + [r])], m);
      assert pre[..m] == rs[..m];
    } else {
      PrefixOfAppend(rs, [Run(r.itemId, [r])], m);
    }
  }

  lemma PrefixOfAppend<T>(a: seq<T>, b: seq<T>, m: nat)
    requires m <= |a|
    ensures (a + b)[..m] == a[..m]
  {
  }

  /** The stream yields one document per run until a run fails; the failing run is the next one. */
  lemma {:induction false} EmitCount(rs: seq<Run>, loads: string -> Value)
    ensures Flushed(Emit(rs, loads)) <= |rs|
    ensures Emit(rs, loads).err.None? <==> |Emit(rs, loads).docs| == |rs|
    ensures Emit(rs, loads).err.Some? ==>
              CombineFrom([], Parts(rs[|Emit(rs, loads).docs|].rows, loads)) == Fail(Emit(rs, loads).err.value)
  {
    if rs != [] {
      var init := rs[..|rs| - 1];
      EmitCount(init, loads);
      if Emit(init, loads).err.Some? {
        assert rs[|Emit(init, loads).docs|] == init[|Emit(init, loads).docs|];
      }
    }
  }

  /** The k-th document carries the k-th run's id and is that run's rows combined. */
  lemma {:induction false} EmitDocs(rs: seq<Run>, loads: string -> Value)
    ensures |Emit(rs, loads).docs| <= |rs|
    ensures forall k :: 0 <= k < |Emit(rs, loads).docs| ==>
              && Emit(rs, loads).docs[k].id == rs[k].id
              && Emit(rs, loads).docs[k].body.Dict?
              && CombineFrom([], Parts(rs[k].rows, loads)) == Ok(Emit(rs, loads).docs[k].body.items)
  {
    if rs != [] {
      var init := rs[..|rs| - 1];
      var prev := Emit(init, loads);
      var out := Emit(rs, loads);
      EmitDocs(init, loads);
      EmitGrowth(rs, loads);
      forall k | 0 <= k < |out.docs|
        ensures && out.docs[k].id == rs[k].id
                && out.docs[k].body.Dict?
                && CombineFrom([], Parts(rs[k].rows, loads)) == Ok(out.docs[k].body.items)
      {
        if k < |prev.docs| {
          assert out.docs[k] == prev.docs[k] && rs[k] == init[k];
        } else {
          LastDoc(rs, loads);
        }
      }
    }
  }

  /** One more run adds at most one document and keeps the earlier ones; after an error nothing changes. */
  lemma EmitGrowth(rs: seq<Run>, loads: string -> Value)
    requires rs != []
    ensures var prev := Emit(rs[..|rs| - 1], loads);
            var out := Emit(rs, loads);
            && |prev.docs| <= |out.docs| <= |prev.docs| + 1
            && out.docs[..|prev.docs|] == prev.docs
            && (prev.err.Some? ==> out == prev)
            && (|out.docs| == |prev.docs| + 1 ==> prev.err.None? && |prev.docs| == |rs| - 1)
  {
    EmitCount(rs[..|rs| - 1], loads);
  }

  /** When the last run yields a document, it is that run's rows combined. */
  lemma LastDoc(rs: seq<Run>, loads: string -> Value)
    requires rs != []
    requires |Emit(rs, loads).docs| == |Emit(rs[..|rs| - 1], loads).docs| + 1
    ensures var out := Emit(rs, loads);
            var last := rs[|rs| - 1];
            && |out.docs| == |rs|
            && out.docs[|rs| - 1].id == last.id
            && out.docs[|rs| - 1].body.Dict?
            && CombineFrom([], Parts(last.rows, loads)) == Ok(out.docs[|rs| - 1].body.items)
  {
    EmitGrowth(rs, loads);
    FlushRun(rs, loads);
  }

  /** Runs after a failing one change nothing: the stream has already ended. */
  lemma {:induction false} EmitErrorPrefix(rs: seq<Run>, ts: seq<Run>, loads: string -> Value)
    requires Emit(rs, loads).err.Some?
    ensures Emit(rs + ts, loads) == Emit(rs, loads)
  {
    if ts == [] {
      assert rs + ts == rs;
    } else {
      EmitErrorPrefix(rs, ts[..|ts| - 1], loads);
      assert (rs + ts)[..|rs + ts| - 1] == rs + ts[..|ts| - 1];
    }
  }

  /**
   * The shape of what a deep scan yields: consecutive documents have
   * different item ids, and a stream that does not fail yields exactly
   * `Quota` documents, the k-th carrying the k-th run's id.
   */
  lemma StreamShape(rows: seq<Row>, limit: Option<int>, loads: string -> Value)
    ensures var rs := Runs(rows)[..Quota(limit, |Runs(rows)|)];
            var out := Emit(rs, loads);
            && |out.docs| <= |rs|
            && (forall k :: 0 < k < |out.docs| ==> out.docs[k - 1].id != out.docs[k].id)
            && (forall k :: 0 <= k < |out.docs| ==> out.docs[k].id == Runs(rows)[k].id)
            && (out.err.None? <==> |out.docs| == Quota(limit, |Runs(rows)|))
  {
    var all := Runs(rows);
    var rs := all[..Quota(limit, |all|)];
    var out := Emit(rs, loads);
    EmitDocs(rs, loads);
    EmitCount(rs, loads);
    RunsMaximal(rows);
    forall k | 0 <= k < |out.docs| ensures out.docs[k].id == all[k].id {
      assert rs[k] == all[k];
    }
  }

  /**
   * The loop invariant of `construct`, after reading the first `j` rows: the runs
   * before the last one are combined into `docs` without error, `cur_item`
   * and `parts` hold the last run, and `count` counts the documents yielded
   * while the limit is truthy, still below the limit.
   */
  predicate Holding(rows: seq<Row>, loads: string -> Value, limit: Option<int>, j: nat,
                    curItem: Option<string>, parts: seq<Pair>, docs: seq<Doc>, count: int)
  {
    j <= |rows| &&
    var rs := Runs(rows[..j]);
    && (j == 0 <==> rs == [])
    && (rs == [] ==> curItem.None? && parts == [] && docs == [])
    && (rs != [] ==> curItem == Some(rs[|rs| - 1].id) && rows[j - 1].itemId == rs[|rs| - 1].id)
    && (rs != [] ==> parts != [] && parts == Parts(rs[|rs| - 1].rows, loads))
    && (rs != [] ==> Emit(rs[..|rs| - 1], loads) == Output(docs, None) && |docs| == |rs| - 1)
    && count == (if TruthyInt(limit) then |docs| else 0)
    && (TruthyInt(limit) ==> count == 0 || count < limit.value)
  }




  /**
   * What `construct` promises when it ends with `out` after reading
   * `consumed` rows: `out` is the stream of the first `Quota` runs; when it
   * flushed every run it read every row, and otherwise it stopped early, having
   * read the flushed runs plus the first row of the next run, on a failing
   * `combine` or on the limit-th document.
   */
  predicate Answers(rows: seq<Row>, loads: string -> Value, limit: Option<int>, out: Output, consumed: nat)
  {
    && out == Emit(Runs(rows)[..Quota(limit, |Runs(rows)|)], loads)
    && consumed <= |rows|
    && Flushed(out) <= |Runs(rows)|
    && (Flushed(out) == |Runs(rows)| ==> consumed == |rows|)
    && (Flushed(out) < |Runs(rows)| ==>
          && 2 <= consumed
          && Runs(rows[..consumed - 1]) == Runs(rows)[..Flushed(out)]
          && rows[consumed - 1].itemId != rows[consumed - 2].itemId
          && (out.err.Some? || (TruthyInt(limit) && |out.docs| == if limit.value < 1 then 1 else limit.value)))
  }

  /**
   * `construct(cur, limit, loads)`: reads the rows in order, flushing the
   * current run when the item id changes and once more at the end; with a
   * truthy limit it returns right after flushing the limit-th document.
   * `consumed` is how many rows it read from the cursor.
   */
  method Construct(rows: seq<Row>, limit: Option<int>, loads: string -> Value) returns (out: Output, consumed: nat)
    ensures Answers(rows, loads, limit, out, consumed)
  {
    var docs: seq<Doc> := [];
    var curItem: Option<string> := None;
    var parts: seq<Pair> := [];
    var count := 0;
    var j := 0;
    assert rows[..0] == [];
    while j < |rows|
      invariant Holding(rows, loads, limit, j, curItem, parts, docs, count)
    {
      var r := rows[j];
      if curItem != Some(r.itemId) {
        if parts != [] {
          var stop;
          docs, count, stop := Flush(rows, loads, limit, j, curItem, parts, docs, count);
          if stop.Some? {
            out := stop.value;
            consumed := j + 1;
            return;
          }
        } else {
          BeginRun(rows, loads, limit, j, docs, count);
        }
        curItem := Some(r.itemId);
        parts := [];
      } else {
        ContinueRun(rows, loads, limit, j, curItem, parts, docs, count);
      }
      parts := parts + [Pair(r.key, loads(r.value))];
      j := j + 1;
      assert Holding(rows, loads, limit, j, curItem, parts, docs, count);
    }
    consumed := |rows|;
    if parts != [] {
      var c := Combine(parts);
      LastFlush(rows, loads, limit, curItem, parts, docs, count, c);
      if c.Fail? {
        out := Output(docs, Some(c.error));
      } else {
        out := Output(docs + [Doc(curItem.value, c.value)], None);
      }
    } else {
      out := Output(docs, None);
      NothingLeft(rows, loads, limit, curItem, docs, count);
    }
  }

  /**
   * The flush on a change of item id: `combine` the current run and yield
   * it; a failing `combine` or the limit-th document ends the stream,
   * otherwise row `j` starts the next run.
   */
  method Flush(rows: seq<Row>, loads: string -> Value, limit: Option<int>, j: nat,
               curItem: Option<string>, parts: seq<Pair>, docs: seq<Doc>, count: int)
    returns (docs': seq<Doc>, count': int, stop: Option<Output>)
    requires j < |rows| && Holding(rows, loads, limit, j, curItem, parts, docs, count)
    requires parts != [] && curItem != Some(rows[j].itemId)
    ensures stop.Some? ==> Answers(rows, loads, limit, stop.value, j + 1)
    ensures stop.None? ==>
              Holding(rows, loads, limit, j + 1, Some(rows[j].itemId), [] + [Pair(rows[j].key, loads(rows[j].value))], docs', count')
  {
    var c := Combine(parts);
    FlushStep(rows, loads, limit, j, curItem, parts, docs, count, c);
    if c.Fail? {
      return docs, count, Some(Output(docs, Some(c.error)));
    }
    docs' := docs + [Doc(curItem.value, c.value)];
    count' := count;
    stop := None;
    if TruthyInt(limit) {
      count' := count + 1;
      if count' >= limit.value {
        stop := Some(Output(docs', None));
      }
    }
  }

  /**
   * Flushing the current run when row `j` has a new item id: a failing
   * `combine` returns the error, the limit-th document returns the documents,
   * and otherwise row `j` starts the next run after one more document.
   */
  lemma FlushStep(rows: seq<Row>, loads: string -> Value, limit: Option<int>, j: nat,
                  curItem: Option<string>, parts: seq<Pair>, docs: seq<Doc>, count: int, c: Result<Value>)
    requires j < |rows| && Holding(rows, loads, limit, j, curItem, parts, docs, count)
    requires parts != [] && curItem != Some(rows[j].itemId)
    requires c == match CombineFrom([], parts)
                  case Ok(items) => Ok(Dict(items))
                  case Fail(e) => Fail(e)
    ensures curItem.Some?
    ensures c.Fail? ==> Answers(rows, loads, limit, Output(docs, Some(c.error)), j + 1)
    ensures c.Ok? && TruthyInt(limit) && count + 1 >= limit.value ==>
              Answers(rows, loads, limit, Output(docs + [Doc(curItem.value, c.value)], None), j + 1)
    ensures c.Ok? && !(TruthyInt(limit) && count + 1 >= limit.value) ==>
              Holding(rows, loads, limit, j + 1, Some(rows[j].itemId), [] + [Pair(rows[j].key, loads(rows[j].value))],
                       docs + [Doc(curItem.value, c.value)], if TruthyInt(limit) then count + 1 else count)
  {
    Flushing(rows, loads, limit, j, curItem, parts, docs, count);
    if c.Fail? {
      ErrorReturn(rows, loads, limit, j, docs, c.error);
    } else {
      var docs' := docs + [Doc(curItem.value, c.value)];
      if TruthyInt(limit) && count + 1 >= limit.value {
        LimitReturn(rows, loads, limit, j, docs');
      } else {
        BeginRun(rows, loads, limit, j, docs', if TruthyInt(limit) then count + 1 else count);
      }
    }
  }

  /** A change of item id after a non-empty run flushes that run: the runs so far are a prefix of the stream's, and their stream is the flushed one. */
  lemma Flushing(rows: seq<Row>, loads: string -> Value, limit: Option<int>, j: nat,
                 curItem: Option<string>, parts: seq<Pair>, docs: seq<Doc>, count: int)
    requires j < |rows| && Holding(rows, loads, limit, j, curItem, parts, docs, count)
    requires parts != [] && curItem != Some(rows[j].itemId)
    ensures 0 < j && rows[j].itemId != rows[j - 1].itemId
    ensures |Runs(rows[..j])| == |docs| + 1 && curItem.Some?
    ensures |Runs(rows[..j])| < |Runs(rows)| && Runs(rows)[..|Runs(rows[..j])|] == Runs(rows[..j])
    ensures Emit(Runs(rows[..j]), loads) ==
              match CombineFrom([], parts)
              case Ok(items) => Output(docs + [Doc(curItem.value, Dict(items))], None)
              case Fail(e) => Output(docs, Some(e))
  {
    var rs := Runs(rows[..j]);
    FlushRun(rs, loads);
    RunsPrefix(rows, j);
  }

  /** Returning on a failing `combine` meets the contract of `Construct`. */
  lemma ErrorReturn(rows: seq<Row>, loads: string -> Value, limit: Option<int>, j: nat, docs: seq<Doc>, e: Error)
    requires 0 < j < |rows| && rows[j].itemId != rows[j - 1].itemId
    requires |Runs(rows[..j])| == |docs| + 1
    requires |Runs(rows[..j])| < |Runs(rows)| && Runs(rows)[..|Runs(rows[..j])|] == Runs(rows[..j])
    requires Emit(Runs(rows[..j]), loads) == Output(docs, Some(e))
    requires TruthyInt(limit) ==> |docs| == 0 || |docs| < limit.value
    ensures Output(docs, Some(e)) == Emit(Runs(rows)[..Quota(limit, |Runs(rows)|)], loads)
    ensures Flushed(Output(docs, Some(e))) < |Runs(rows)|
    ensures Runs(rows[..j]) == Runs(rows)[..Flushed(Output(docs, Some(e)))]
  {
    ErrorExit(rows, Runs(rows[..j]), limit, loads);
  }

  /** Returning right after the limit-th document meets the contract of `Construct`. */
  lemma LimitReturn(rows: seq<Row>, loads: string -> Value, limit: Option<int>, j: nat, docs: seq<Doc>)
    requires 0 < j < |rows| && TruthyInt(limit)
    requires |Runs(rows[..j])| == |docs|
    requires |Runs(rows[..j])| < |Runs(rows)| && Runs(rows)[..|Runs(rows[..j])|] == Runs(rows[..j])
    requires Emit(Runs(rows[..j]), loads) == Output(docs, None)
    requires |docs| >= limit.value && (|docs| - 1 == 0 || |docs| - 1 < limit.value)
    ensures Output(docs, None) == Emit(Runs(rows)[..Quota(limit, |Runs(rows)|)], loads)
    ensures Flushed(Output(docs, None)) < |Runs(rows)|
    ensures Runs(rows[..j]) == Runs(rows)[..Flushed(Output(docs, None))]
    ensures |docs| == if limit.value < 1 then 1 else limit.value
  {
    LimitExit(rows, Runs(rows[..j]), limit, loads);
  }

  /** A row with a new item id, read after the earlier runs were all yielded, starts the current run. */
  lemma BeginRun(rows: seq<Row>, loads: string -> Value, limit: Option<int>, j: nat, docs: seq<Doc>, count: int)
    requires j < |rows|
    requires j == 0 || rows[j].itemId != rows[j - 1].itemId
    requires j == 0 ==> docs == []
    requires Emit(Runs(rows[..j]), loads) == Output(docs, None) && |docs| == |Runs(rows[..j])|
    requires count == (if TruthyInt(limit) then |docs| else 0)
    requires TruthyInt(limit) ==> count == 0 || count < limit.value
    ensures Holding(rows, loads, limit, j + 1, Some(rows[j].itemId), [] + [Pair(rows[j].key, loads(rows[j].value))], docs, count)
  {
    var rs := Runs(rows[..j]);
    if j > 0 {
      RunsUniform(rows[..j]);
      assert rows[..j][j - 1] == rows[j - 1];
    } else {
      assert rows[..j] == [];
    }
    var next := StartRun(rows, j, rs);
    assert Parts([rows[j]], loads) == [Pair(rows[j].key, loads(rows[j].value))];
  }

  /** A row with the current item id joins the current run. */
  lemma ContinueRun(rows: seq<Row>, loads: string -> Value, limit: Option<int>, j: nat,
                    curItem: Option<string>, parts: seq<Pair>, docs: seq<Doc>, count: int)
    requires j < |rows| && Holding(rows, loads, limit, j, curItem, parts, docs, count)
    requires curItem == Some(rows[j].itemId)
    ensures Holding(rows, loads, limit, j + 1, curItem, parts + [Pair(rows[j].key, loads(rows[j].value))], docs, count)
  {
    var rs := Runs(rows[..j]);
    var next := ExtendRun(rows, j, rs);
    PartsAppend(rs[|rs| - 1].rows, [rows[j]], loads);
    assert Parts([rows[j]], loads) == [Pair(rows[j].key, loads(rows[j].value))];
  }

  /** After the last row, flushing the current run completes the stream. */
  lemma LastFlush(rows: seq<Row>, loads: string -> Value, limit: Option<int>,
                  curItem: Option<string>, parts: seq<Pair>, docs: seq<Doc>, count: int, c: Result<Value>)
    requires Holding(rows, loads, limit, |rows|, curItem, parts, docs, count) && parts != []
    requires c == match CombineFrom([], parts)
                  case Ok(items) => Ok(Dict(items))
                  case Fail(e) => Fail(e)
    ensures curItem.Some?
    ensures c.Fail? ==> Answers(rows, loads, limit, Output(docs, Some(c.error)), |rows|)
    ensures c.Ok? ==> Answers(rows, loads, limit, Output(docs + [Doc(curItem.value, c.value)], None), |rows|)
  {
    Finish(rows, loads, limit, curItem, parts, docs, count);
  }

  /** With no current run after the last row, the documents yielded are the whole stream. */
  lemma NothingLeft(rows: seq<Row>, loads: string -> Value, limit: Option<int>,
                    curItem: Option<string>, docs: seq<Doc>, count: int)
    requires Holding(rows, loads, limit, |rows|, curItem, [], docs, count)
    ensures Answers(rows, loads, limit, Output(docs, None), |rows|)
  {
    Finish(rows, loads, limit, curItem, [], docs, count);
  }

  /** At the end of the rows, the final flush completes the stream of all runs, which is within the quota. */
  lemma Finish(rows: seq<Row>, loads: string -> Value, limit: Option<int>,
               curItem: Option<string>, parts: seq<Pair>, docs: seq<Doc>, count: int)
    requires Holding(rows, loads, limit, |rows|, curItem, parts, docs, count)
    ensures Quota(limit, |Runs(rows)|) == |Runs(rows)|
    ensures Runs(rows)[..Quota(limit, |Runs(rows)|)] == Runs(rows)
    ensures parts == [] ==> Output(docs, None) == Emit(Runs(rows), loads) && Runs(rows) == [] && docs == []
    ensures parts != [] ==> curItem.Some? && |docs| + 1 == |Runs(rows)|
    ensures parts != [] ==>
              Emit(Runs(rows), loads) ==
                match CombineFrom([], parts)
                case Ok(items) => Output(docs + [Doc(curItem.value, Dict(items))], None)
                case Fail(e) => Output(docs, Some(e))
  {
    assert rows[..|rows|] == rows;
    var rs := Runs(rows);
    if rs != [] {
      FlushRun(rs, loads);
    }
  }

  /** Flushing the last run: the stream so far plus that run's `combine`. */
  lemma FlushRun(rs: seq<Run>, loads: string -> Value)
    requires rs != [] && Emit(rs[..|rs| - 1], loads).err.None?
    ensures Emit(rs, loads) ==
              match CombineFrom([], Parts(rs[|rs| - 1].rows, loads))
              case Ok(items) => Output(Emit(rs[..|rs| - 1], loads).docs + [Doc(rs[|rs| - 1].id, Dict(items))], None)
              case Fail(e) => Output(Emit(rs[..|rs| - 1], loads).docs, Some(e))
  {
  }

  /** A row with a new item id starts a run of its own. */
  lemma StartRun(rows: seq<Row>, j: nat, rs: seq<Run>) returns (next: seq<Run>)
    requires j < |rows| && rs == Runs(rows[..j])
    requires rs == [] || rs[|rs| - 1].id != rows[j].itemId
    ensures next == Runs(rows[..j + 1]) == rs + [Run(rows[j].itemId, [rows[j]])]
    ensures next[..|next| - 1] == rs
  {
    RunsStep(rows, j);
    next := rs + [Run(rows[j].itemId, [rows[j]])];
    assert next[..|next| - 1] == rs;
  }

  /** A row with the current item id joins the last run. */
  lemma ExtendRun(rows: seq<Row>, j: nat, rs: seq<Run>) returns (next: seq<Run>)
    requires j < |rows| && rs == Runs(rows[..j])
    requires rs != [] && rs[|rs| - 1].id == rows[j].itemId
    ensures next == Runs(rows[..j + 1]) == rs[..|rs| - 1] + [Run(rows[j].itemId, rs[|rs| - 1].rows + [rows[j]])]
    ensures next[..|next| - 1] == rs[..|rs| - 1]
  {
    RunsStep(rows, j);
    next := rs[..|rs| - 1] + [Run(rows[j].itemId, rs[|rs| - 1].rows + [rows[j]])];
    assert next[..|next| - 1] == rs[..|rs| - 1];
  }

  /** The pairs of rows read one after the other are the pairs of each part in turn. */
  lemma PartsAppend(a: seq<Row>, b: seq<Row>, loads: string -> Value)
    ensures Parts(a + b, loads) == Parts(a, loads) + Parts(b, loads)
  {
  }

  /** Stopping at the limit: the runs flushed so far are the stream's first `Quota` runs. */
  lemma LimitExit(rows: seq<Row>, rs: seq<Run>, limit: Option<int>, loads: string -> Value)
    requires TruthyInt(limit) && rs != []
    requires |rs| < |Runs(rows)| && Runs(rows)[..|rs|] == rs
    requires |rs| >= limit.value && (|rs| - 1 == 0 || |rs| - 1 < limit.value)
    ensures Quota(limit, |Runs(rows)|) == |rs| == (if limit.value < 1 then 1 else limit.value)
    ensures Runs(rows)[..Quota(limit, |Runs(rows)|)] == rs
  {
  }

  /** The stream that stops at a failing run, from the runs read so far, agrees with the whole stream's quota. */
  lemma ErrorExit(rows: seq<Row>, rs: seq<Run>, limit: Option<int>, loads: string -> Value)
    requires rs != [] && |rs| < |Runs(rows)| && Runs(rows)[..|rs|] == rs
    requires Emit(rs, loads).err.Some?
    requires TruthyInt(limit) ==> |rs| - 1 == 0 || |rs| - 1 < limit.value
    ensures Emit(Runs(rows)[..Quota(limit, |Runs(rows)|)], loads) == Emit(rs, loads)
  {
    var all := Runs(rows);
    var q := Quota(limit, |all|);
    assert |rs| <= q;
    var rest := all[|rs|..q];
    assert all[..q] == all[..|rs|] + rest;
    EmitErrorPrefix(rs, rest, loads);
  }
}

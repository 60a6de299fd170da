/**
 * `combine`: rebuilds a nested dict from (path, value) pairs by descending
 * with get-or-create (`setdefault`) and assigning the last key.
 */
module Rebuild {
  import opened Wrappers
  import opened Strings
  import opened Values
  import opened Flatten

  /** `d.get(k)`: the value under `k`, if any. */
  function Get(items: seq<Entry>, k: string): Option<Value>
  {
    if items == [] then None
    else if items[0].key == k then Some(items[0].val)
    else Get(items[1..], k)
  }

  /** A lookup misses exactly when the key is absent. */
  lemma {:induction false} GetMisses(items: seq<Entry>, k: string)
    ensures Get(items, k).None? <==> k !in Keys(items)
  {
    if items != [] {
      GetMisses(items[1..], k);
    }
  }

  /** `d[k] = v`: replaces the value in place when `k` is present, appends a new entry otherwise. */
  function Put(items: seq<Entry>, k: string, v: Value): (r: seq<Entry>)
    ensures Get(r, k) == Some(v)
    ensures forall k' :: k' != k ==> Get(r, k') == Get(items, k')
    ensures Get(items, k).None? ==> r == items + [Entry(k, v)]
  {
    if items == [] then [Entry(k, v)]
    else if items[0].key == k then
      PutHere(items, k, v);
      [Entry(k, v)] + items[1..]
    else
      var rest := Put(items[1..], k, v);
      PutLater(items, k, v, rest);
      [items[0]] + rest
  }

  /** Assigning the first key replaces its entry and keeps every other lookup. */
  lemma PutHere(items: seq<Entry>, k: string, v: Value)
    requires items != [] && items[0].key == k
    ensures var r := [Entry(k, v)] + items[1..];
            && Get(r, k) == Some(v)
            && (forall k' :: k' != k ==> Get(r, k') == Get(items, k'))
            && Get(items, k).Some?
  {
    GetCons(Entry(k, v), items[1..]);
    GetCons(items[0], items[1..]);
    assert [items[0]] + items[1..] == items;
  }

  /** Assigning a later key behind the first entry keeps that entry in front. */
  lemma PutLater(items: seq<Entry>, k: string, v: Value, rest: seq<Entry>)
    requires items != [] && items[0].key != k
    requires Get(rest, k) == Some(v)
    requires forall k' :: k' != k ==> Get(rest, k') == Get(items[1..], k')
    requires Get(items[1..], k).None? ==> rest == items[1..] + [Entry(k, v)]
    ensures var r := [items[0]] + rest;
            && Get(r, k) == Some(v)
            && (forall k' :: k' != k ==> Get(r, k') == Get(items, k'))
            && (Get(items, k).None? ==> r == items + [Entry(k, v)])
  {
    var r := [items[0]] + rest;
    assert r[1..] == rest;
    assert Get(r, k) == Get(rest, k);
    forall k' | k' != k
      ensures Get(r, k') == Get(items, k')
    {
      if items[0].key != k' {
        assert Get(r, k') == Get(rest, k');
      }
    }
    if Get(items, k).None? {
      assert [items[0]] + items[1..] == items;
      assert r == [items[0]] + (items[1..] + [Entry(k, v)]);
    }
  }

  /** A lookup in a dict with a first entry checks that entry, then the rest. */
  lemma GetCons(e: Entry, rest: seq<Entry>)
    ensures forall k :: Get([e] + rest, k) == if e.key == k then Some(e.val) else Get(rest, k)
  {
    assert ([e] + rest)[1..] == rest;
  }

  /** Assigning twice to the same key keeps only the second value. */
  lemma {:induction false} PutPut(items: seq<Entry>, k: string, a: Value, b: Value)
    ensures Put(Put(items, k, a), k, b) == Put(items, k, b)
  {
    if items != [] && items[0].key != k {
      PutPut(items[1..], k, a, b);
    }
  }

  /** The value found by following `segs` through nested dicts. */
  function GetPath(items: seq<Entry>, segs: seq<string>): Option<Value>
    requires |segs| >= 1
    decreases |segs|
  {
    if |segs| == 1 then Get(items, segs[0])
    else
      match Get(items, segs[0])
      case Some(Dict(c)) => GetPath(c, segs[1..])
      case _ => None
  }

  /**
   * The descent of `combine` for one pair: `setdefault(p, {})` for every key
   * but the last, then `[last] = v`. Fails when `setdefault` returns a value
   * that is not a dict.
   */
  function Insert(items: seq<Entry>, segs: seq<string>, v: Value): (r: Result<seq<Entry>>)
    requires |segs| >= 1
    ensures r.Ok? ==> GetPath(r.value, segs) == Some(v)
    ensures r.Ok? ==> forall k :: k != segs[0] ==> Get(r.value, k) == Get(items, k)
    ensures r.Fail? ==> r.error == NotAMapping
    decreases |segs|
  {
    if |segs| == 1 then Ok(Put(items, segs[0], v))
    else
      var sub: Result<seq<Entry>> :=
        match Get(items, segs[0])
        case None => Ok([])
        case Some(Dict(c)) => Ok(c)
        case Some(_) => Fail(NotAMapping);
      match sub
      case Fail(e) => Fail(e)
      case Ok(c) =>
        match Insert(c, segs[1..], v)
        case Fail(e) => Fail(e)
        case Ok(c') => Ok(Put(items, segs[0], Dict(c')))
  }

  /** The descent fails exactly when a key before the last leads to a value that is not a dict. */
  lemma {:induction false} InsertFailsOnNonDict(items: seq<Entry>, segs: seq<string>, v: Value)
    requires |segs| >= 1
    ensures Insert(items, segs, v).Fail? <==> BlockedAt(items, segs)
    decreases |segs|
  {
    if |segs| > 1 {
      match Get(items, segs[0]) {
        case None =>
          InsertFailsOnNonDict([], segs[1..], v);
          PathMissing(items, segs);
          PathMissing([], segs[1..]);
        case Some(Dict(c)) =>
          InsertFailsOnNonDict(c, segs[1..], v);
          PathDescends(items, c, segs);
        case Some(_) =>
          assert GetPath(items, segs[..1]) == Get(items, segs[0]);
      }
    }
  }

  /** Some key before the last of `segs` leads to a value that is not a dict. */
  predicate BlockedAt(items: seq<Entry>, segs: seq<string>)
  {
    exists j :: 1 <= j < |segs| && GetPath(items, segs[..j]).Some? && !GetPath(items, segs[..j]).value.Dict?
  }

  /** A path whose first key is missing, or that starts in an empty dict, leads nowhere. */
  lemma PathMissing(items: seq<Entry>, segs: seq<string>)
    requires |segs| >= 1 && (items == [] || Get(items, segs[0]).None?)
    ensures !BlockedAt(items, segs)
  {
    forall j | 1 <= j < |segs|
      ensures GetPath(items, segs[..j]).None?
    {
      assert segs[..j][0] == segs[0];
    }
  }

  /** Below a dict under the first key, a path continues in that dict. */
  lemma PathDescends(items: seq<Entry>, c: seq<Entry>, segs: seq<string>)
    requires |segs| >= 2 && Get(items, segs[0]) == Some(Dict(c))
    ensures BlockedAt(items, segs) <==> BlockedAt(c, segs[1..])
  {
    forall j | 2 <= j < |segs|
      ensures GetPath(items, segs[..j]) == GetPath(c, segs[1..][..j - 1])
    {
      assert segs[..j][0] == segs[0] && segs[..j][1..] == segs[1..][..j - 1];
    }
    assert segs[..1][0] == segs[0];
    if BlockedAt(c, segs[1..]) {
      var j :| 1 <= j < |segs| - 1 && GetPath(c, segs[1..][..j]).Some? && !GetPath(c, segs[1..][..j]).value.Dict?;
      assert GetPath(items, segs[..j + 1]) == GetPath(c, segs[1..][..j]);
    }
  }

  /**
   * The keys `combine` descends through for one path: `[k]` for a path
   * without '/', else the non-empty segments. A `None` path and a path made
   * only of slashes are the two ways this step raises.
   */
  function Segments(path: Option<string>): (r: Result<seq<string>>)
    ensures r.Ok? ==> |r.value| >= 1
    ensures r.Fail? <==> path.None? || ('/' in path.value && NonEmpty(SplitOn(path.value, '/')) == [])
  {
    match path
    case None => Fail(PathIsNone)
    case Some(k) =>
      if '/' in k then
        var parts := NonEmpty(SplitOn(k, '/'));
        if parts == [] then Fail(EmptyPath) else Ok(parts)
      else Ok([k])
  }

  /** The result of `combine` when it starts from the dict `acc`. */
  function CombineFrom(acc: seq<Entry>, pairs: seq<Pair>): Result<seq<Entry>>
    decreases pairs
  {
    if pairs == [] then Ok(acc)
    else
      match Segments(pairs[0].path)
      case Fail(e) => Fail(e)
      case Ok(segs) =>
        match Insert(acc, segs, pairs[0].val)
        case Fail(e) => Fail(e)
        case Ok(next) => CombineFrom(next, pairs[1..])
  }

  /** `combine(items)`: the dict built by inserting every pair in order into an empty dict. */
  method Combine(pairs: seq<Pair>) returns (r: Result<Value>)
    ensures r == match CombineFrom([], pairs)
                 case Ok(items) => Ok(Dict(items))
                 case Fail(e) => Fail(e)
  {
    var item: seq<Entry> := [];
    var i := 0;
    while i < |pairs|
      invariant 0 <= i <= |pairs|
      invariant CombineFrom(item, pairs[i..]) == CombineFrom([], pairs)
    {
      assert pairs[i..][1..] == pairs[i + 1..];
      var segs := Segments(pairs[i].path);
      if segs.Fail? {
        return Fail(segs.error);
      }
      var next := Insert(item, segs.value, pairs[i].val);
      if next.Fail? {
        return Fail(next.error);
      }
      item := next.value;
      i := i + 1;
    }
    return Ok(Dict(item));
  }

  /** A second insert at the same path replaces the first one's value and nothing else. */
  lemma {:induction false} InsertOverwrite(items: seq<Entry>, segs: seq<string>, a: Value, b: Value)
    requires |segs| >= 1
    requires Insert(items, segs, a).Ok?
    ensures Insert(Insert(items, segs, a).value, segs, b) == Insert(items, segs, b)
    decreases |segs|
  {
    if |segs| == 1 {
      PutPut(items, segs[0], a, b);
    } else {
      var c := match Get(items, segs[0]) case Some(Dict(c)) => c case _ => [];
      var c1 := Insert(c, segs[1..], a).value;
      InsertOverwrite(c, segs[1..], a, b);
      match Insert(c, segs[1..], b)
      case Fail(_) =>
      case Ok(c2) => PutPut(items, segs[0], Dict(c1), Dict(c2));
    }
  }

  /** Whether an insert fails depends on the path only, not on the value inserted. */
  lemma {:induction false} InsertFailureIgnoresValue(items: seq<Entry>, segs: seq<string>, a: Value, b: Value)
    requires |segs| >= 1
    ensures Insert(items, segs, a).Fail? <==> Insert(items, segs, b).Fail?
    decreases |segs|
  {
    if |segs| > 1 {
      match Get(items, segs[0])
      case Some(Dict(c)) => InsertFailureIgnoresValue(c, segs[1..], a, b);
      case None => InsertFailureIgnoresValue([], segs[1..], a, b);
      case Some(_) =>
    }
  }

  /** In `combine`, a pair followed by another with the same path leaves only the later value. */
  lemma CombineOverwrite(acc: seq<Entry>, path: Option<string>, a: Value, b: Value, rest: seq<Pair>)
    ensures CombineFrom(acc, [Pair(path, a), Pair(path, b)] + rest) == CombineFrom(acc, [Pair(path, b)] + rest)
  {
    var ps := [Pair(path, a), Pair(path, b)] + rest;
    var qs := [Pair(path, b)] + rest;
    assert ps[0] == Pair(path, a) && ps[1..] == qs;
    assert qs[0] == Pair(path, b) && qs[1..] == rest;
    match Segments(path)
    case Fail(_) =>
    case Ok(segs) =>
      InsertFailureIgnoresValue(acc, segs, a, b);
      match Insert(acc, segs, a)
      case Fail(_) =>
      case Ok(m) =>
        InsertOverwrite(acc, segs, a, b);
        assert CombineFrom(acc, ps) == CombineFrom(m, qs);
  }

  /** A document that is not a dict is split to a `None` path, on which `combine` raises. */
  lemma NonDictIsNotRecoverable(v: Value)
    requires !v.Dict?
    ensures CombineFrom([], Split(v, None)) == Fail(PathIsNone)
  {
  }

  /**
   * An empty dict nested in a document leaves no pair behind, so `combine`
   * returns a dict without its key: such a document is not `Storable`.
   */
  lemma EmptyDictIsLost(k: string)
    ensures var d := Dict([Entry(k, Dict([]))]);
      && Split(d, None) == []
      && CombineFrom([], Split(d, None)) == Ok([])
      && Clean(d).items != []
  {
    var d := Dict([Entry(k, Dict([]))]);
    assert Split(Dict([]), Some(ChildPath(None, k))) == [];
    assert CleanPairs([]) == [];
    assert SplitItems([Entry(k, Dict([]))][1..], None) == [];
    assert |Keys(Clean(d).items)| == 1;
  }

  /**
   * A blank top-level key holding a value that is not a dict survives the
   * round trip, although the document is not `Storable`: `{"": 1}` splits to
   * the pair `("", 1)` and `combine` assigns `item[""] = 1`.
   */
  lemma BlankTopKeyIsKept()
    ensures var d := Dict([Entry("", Int(1))]);
      && !Storable(d)
      && Split(d, None) == [Pair(Some(""), Int(1))]
      && CombineFrom([], Split(d, None)) == Ok(Clean(d).items)
  {
    var d := Dict([Entry("", Int(1))]);
    assert !GoodKey(d.items[0].key);
    assert SplitItems([Entry("", Int(1))][1..], None) == [];
    assert Split(d, None) == [Pair(Some(""), Int(1))];
    assert Segments(Some("")) == Ok([""]);
    assert Put([], "", Int(1)) == [Entry("", Int(1))];
    assert Insert([], [""], Int(1)) == Ok([Entry("", Int(1))]);
    var p := Pair(Some(""), Int(1));
    assert [p][1..] == [];
    assert CombineFrom([], [p]) == Ok([Entry("", Int(1))]);
    assert CleanItems([Entry("", Int(1))][1..]) == [];
    assert Clean(d).items == [Entry("", Int(1))];
  }

  /**
   * A key holding '/' comes back from `combine` as a nested dict, one level
   * per segment: such a document is not `Storable` either.
   */
  lemma SlashKeyIsSplit(v: Value)
    requires !v.Dict?
    ensures var d := Dict([Entry("a/b", v)]);
      && Split(d, None) == [Pair(Some("a/b"), Clean(Clean(v)))]
      && CombineFrom([], Split(d, None)) == Ok([Entry("a", Dict([Entry("b", Clean(Clean(v)))]))])
      && Keys(Clean(d).items) == ["a/b"]
  {
    var d := Dict([Entry("a/b", v)]);
    var below := [Pair(Some("a/b"), Clean(v))];
    assert Split(v, Some(ChildPath(None, "a/b"))) == below;
    assert CleanPairs(below)[0] == Pair(Some("a/b"), Clean(Clean(v)));
    assert SplitItems([Entry("a/b", v)][1..], None) == [];
    SegmentsOfAB();
  }

  lemma SegmentsOfAB()
    ensures Segments(Some("a/b")) == Ok(["a", "b"])
  {
    assert SplitOn("b", '/') == ["b"] by {
      assert "b"[1..] == "" && "b"[0] == 'b' && SplitOn("", '/') == [""];
      assert ['b'] + "" == "b";
    }
    assert SplitOn("/b", '/') == ["", "b"] by { assert "/b"[1..] == "b"; }
    assert "a/b"[1..] == "/b" && "a/b"[0] == 'a';
    assert ['a'] + "" == "a";
    assert NonEmpty(["a", "b"]) == ["a", "b"];
  }

  /** `combine` folds the pairs left to right. */
  lemma {:induction false} CombineFromAppend(acc: seq<Entry>, ps: seq<Pair>, qs: seq<Pair>)
    ensures CombineFrom(acc, ps + qs) ==
              match CombineFrom(acc, ps)
              case Ok(mid) => CombineFrom(mid, qs)
              case Fail(e) => Fail(e)
    decreases ps
  {
    if ps != [] {
      assert (ps + qs)[0] == ps[0] && (ps + qs)[1..] == ps[1..] + qs;
      match Segments(ps[0].path)
      case Fail(_) =>
      case Ok(segs) =>
        match Insert(acc, segs, ps[0].val)
        case Fail(_) =>
        case Ok(next) => CombineFromAppend(next, ps[1..], qs);
    } else {
      assert ps + qs == qs;
    }
  }

  /** The leaves inserted one by one by their key lists. */
  function InsertAll(acc: seq<Entry>, ls: seq<Leaf>): Result<seq<Entry>>
    decreases ls
  {
    if ls == [] then Ok(acc)
    else if ls[0].segs == [] then Fail(EmptyPath)
    else
      match Insert(acc, ls[0].segs, ls[0].val)
      case Fail(e) => Fail(e)
      case Ok(next) => InsertAll(next, ls[1..])
  }

  /** `combine` reads each path `split` renders back into its list of keys. */
  lemma SegmentsOfRender(segs: seq<string>)
    requires |segs| >= 1 && GoodKeys(segs)
    ensures Segments(Render(segs)) == Ok(segs)
  {
    assert "/" == ['/'];
    assert forall i :: 0 <= i < |segs| ==> segs[i] != "" && '/' !in segs[i] by {
      forall i | 0 <= i < |segs| ensures segs[i] != "" && '/' !in segs[i] {
        assert GoodKey(segs[i]);
      }
    }
    JoinShape(segs, '/');
    if |segs| >= 2 {
      SplitJoin(segs, '/');
      assert NonEmpty(segs) == segs;
    } else {
      assert Join(segs, "/") == segs[0];
      assert segs == [segs[0]];
    }
  }

  /** On rendered leaves, `combine` is `InsertAll`. */
  lemma {:induction false} CombineRendered(acc: seq<Entry>, ls: seq<Leaf>)
    requires forall i :: 0 <= i < |ls| ==> |ls[i].segs| >= 1 && GoodKeys(ls[i].segs)
    ensures CombineFrom(acc, RenderAll([], ls)) == InsertAll(acc, ls)
    decreases ls
  {
    if ls != [] {
      CombineRenderedHead(acc, ls);
      match Insert(acc, ls[0].segs, ls[0].val)
      case Fail(_) =>
      case Ok(next) => CombineRendered(next, ls[1..]);
    }
  }

  /** `combine` reads the first rendered leaf back into its keys and inserts it. */
  lemma CombineRenderedHead(acc: seq<Entry>, ls: seq<Leaf>)
    requires ls != [] && |ls[0].segs| >= 1 && GoodKeys(ls[0].segs)
    ensures CombineFrom(acc, RenderAll([], ls)) ==
              match Insert(acc, ls[0].segs, ls[0].val)
              case Fail(e) => Fail(e)
              case Ok(next) => CombineFrom(next, RenderAll([], ls[1..]))
  {
    var ps := RenderAll([], ls);
    assert [] + ls[0].segs == ls[0].segs;
    assert ps[0] == Pair(Render(ls[0].segs), ls[0].val);
    SegmentsOfRender(ls[0].segs);
    assert ls == [ls[0]] + ls[1..];
    RenderAllAppend([], [ls[0]], ls[1..]);
    assert ps[1..] == RenderAll([], ls[1..]);
  }

  lemma {:induction false} InsertAllAppend(acc: seq<Entry>, ls: seq<Leaf>, ms: seq<Leaf>)
    ensures InsertAll(acc, ls + ms) ==
              match InsertAll(acc, ls)
              case Ok(mid) => InsertAll(mid, ms)
              case Fail(e) => Fail(e)
    decreases ls
  {
    if ls != [] {
      assert (ls + ms)[0] == ls[0] && (ls + ms)[1..] == ls[1..] + ms;
      if ls[0].segs != [] {
      match Insert(acc, ls[0].segs, ls[0].val)
      case Fail(_) =>
      case Ok(next) => InsertAllAppend(next, ls[1..], ms);
      }
    } else {
      assert ls + ms == ms;
    }
  }

  /**
   * Inserting leaves that all live under key `k` rebuilds the dict under
   * `k` and changes nothing else.
   */
  lemma {:induction false} InsertAllUnder(acc: seq<Entry>, k: string, c: seq<Entry>, ls: seq<Leaf>)
    requires forall i :: 0 <= i < |ls| ==> |ls[i].segs| >= 1
    requires Get(acc, k) == Some(Dict(c)) || (Get(acc, k).None? && c == [] && ls != [])
    ensures InsertAll(acc, Prefix(k, ls)) ==
              match InsertAll(c, ls)
              case Ok(c') => Ok(Put(acc, k, Dict(c')))
              case Fail(e) => Fail(e)
    decreases ls
  {
    if ls == [] {
      assert Put(acc, k, Dict(c)) == acc by {
        PutSame(acc, k, Dict(c));
      }
    } else {
      var first := Prefix(k, ls)[0];
      assert first.segs == [k] + ls[0].segs && first.segs[1..] == ls[0].segs;
      assert Prefix(k, ls)[1..] == Prefix(k, ls[1..]);
      match Insert(c, ls[0].segs, ls[0].val)
      case Fail(_) =>
      case Ok(c1) =>
        var acc1 := Put(acc, k, Dict(c1));
        InsertAllUnder(acc1, k, c1, ls[1..]);
        match InsertAll(c1, ls[1..])
        case Fail(_) =>
        case Ok(c2) => PutPut(acc, k, Dict(c1), Dict(c2));
    }
  }

  /** Assigning a key the value it already has changes nothing. */
  lemma {:induction false} PutSame(items: seq<Entry>, k: string, v: Value)
    requires Get(items, k) == Some(v)
    ensures Put(items, k, v) == items
  {
    if items[0].key != k {
      PutSame(items[1..], k, v);
    }
  }

  /**
   * Inserting the leaves of fresh fields appends those fields, cleaned and
   * in order, to the dict built so far.
   */
  lemma {:induction false} InsertAllFields(acc: seq<Entry>, items: seq<Entry>)
    requires Fields(items)
    requires forall i :: 0 <= i < |items| ==> Get(acc, items[i].key).None?
    ensures InsertAll(acc, LeavesItems(items)) == Ok(acc + CleanItems(items))
    decreases items, 1
  {
    if items != [] {
      var k, first := items[0].key, Clean(items[0].val);
      var ls := Leaves(items[0].val);
      var acc1 := acc + [Entry(k, first)];
      var rest := CleanItems(items[1..]);
      calc {
        InsertAll(acc, LeavesItems(items));
        InsertAll(acc, Prefix(k, ls) + LeavesItems(items[1..]));
        { InsertAllAppend(acc, Prefix(k, ls), LeavesItems(items[1..]));
          InsertField(acc, items); }
        InsertAll(acc1, LeavesItems(items[1..]));
        { FreshAfterField(acc, items, first);
          InsertAllFields(acc1, items[1..]); }
        Ok(acc1 + rest);
        { SeqAssoc(acc, [Entry(k, first)], rest); }
        Ok(acc + ([Entry(k, first)] + rest));
        Ok(acc + CleanItems(items));
      }
    } else {
      assert acc + [] == acc;
    }
  }

  /** The remaining fields stay fresh once the first is appended. */
  lemma FreshAfterField(acc: seq<Entry>, items: seq<Entry>, first: Value)
    requires items != [] && Fields(items)
    requires forall i :: 0 <= i < |items| ==> Get(acc, items[i].key).None?
    ensures Fields(items[1..])
    ensures forall i :: 0 <= i < |items[1..]| ==> Get(acc + [Entry(items[0].key, first)], items[1..][i].key).None?
  {
    forall i | 0 <= i < |items[1..]|
      ensures Get(acc + [Entry(items[0].key, first)], items[1..][i].key).None?
    {
      assert items[1..][i] == items[i + 1];
      GetAppend(acc, Entry(items[0].key, first), items[i + 1].key);
    }
  }

  /** Inserting the leaves of one fresh field appends that field, cleaned. */
  lemma {:induction false} InsertField(acc: seq<Entry>, items: seq<Entry>)
    requires items != [] && Fields(items)
    requires Get(acc, items[0].key).None?
    ensures InsertAll(acc, Prefix(items[0].key, Leaves(items[0].val))) ==
              Ok(acc + [Entry(items[0].key, Clean(items[0].val))])
    decreases items, 0
  {
    var k, v := items[0].key, items[0].val;
    var ls := Leaves(v);
    assert Nested(v);
    LeafPathsAreGood(v);
    match v {
      case Dict(sub) =>
        InsertAllFields([], sub);
        InsertAllUnder(acc, k, [], ls);
        assert [] + CleanItems(sub) == CleanItems(sub);
      case _ =>
        assert [k] + [] == [k];
        assert Prefix(k, ls) == [Leaf([k], Clean(v))];
        assert InsertAll(acc, Prefix(k, ls)) == InsertAll(Put(acc, k, Clean(v)), []);
    }
  }

  lemma {:induction false} GetAppend(items: seq<Entry>, e: Entry, k: string)
    requires e.key != k
    ensures Get(items + [e], k) == Get(items, k)
  {
    if items != [] {
      assert (items + [e])[1..] == items[1..] + [e];
      GetAppend(items[1..], e, k);
    } else {
      assert Get([e], k) == Get([e][1..], k);
    }
  }

  /**
   * The central round trip: for a storable document, combining the pairs
   * `split` produces yields the cleaned document, entry for entry.
   */
  lemma RoundTrip(d: Value)
    requires Storable(d)
    ensures CombineFrom([], Split(d, None)) == Ok(Clean(d).items)
  {
    SplitItemsAreLeaves(d.items, []);
    LeafItemPathsAreGood(d.items);
    CombineRendered([], LeavesItems(d.items));
    InsertAllFields([], d.items);
    assert [] + CleanItems(d.items) == CleanItems(d.items);
  }
}

/**
 * The key codec: a slash-separated hierarchical key becomes the pair
 * (collection_id, item_id) that addresses one document in storage.
 */
module Keys {
  import opened Wrappers
  import opened Strings

  /**
   * The item id of a collection's own document. It starts with '|' (0x7C),
   * which sorts after every digit and letter, so a strict upper bound of
   * ROOT admits ordinary ids and excludes the root document itself.
   */
  const ROOT: string := "||ROOT||"

  /** Drops one trailing '/', then one leading '/'. */
  function TrimSlashes(key: string): string
  {
    var k := if |key| > 0 && key[|key| - 1] == '/' then key[..|key| - 1] else key;
    if |k| > 0 && k[0] == '/' then k[1..] else k
  }

  /**
   * `create_keys`: a key with no '/' left after trimming is rejected; a key
   * of exactly two segments is the whole trimmed key with the ROOT item; a
   * longer key splits at its last '/'.
   */
  function CreateKeys(key: string): (r: Result<(string, string)>)
    ensures r.Fail? <==> '/' !in TrimSlashes(key)
    ensures r.Fail? ==> r.error == InvalidKey
    ensures Count(TrimSlashes(key), '/') == 1 ==> r == Ok((TrimSlashes(key), ROOT))
    ensures Count(TrimSlashes(key), '/') >= 2 ==>
              r.Ok? && '/' !in r.value.1 && r.value.0 + "/" + r.value.1 == TrimSlashes(key)
  {
    var k := TrimSlashes(key);
    if Count(k, '/') == 0 then Fail(InvalidKey)
    else
      var parts := SplitOn(k, '/');
      SplitAtLast(k);
      if |parts| == 2 then Ok((Join(parts, "/"), ROOT))
      else Ok((Join(parts[..|parts| - 1], "/"), parts[|parts| - 1]))
  }

  /** The parts of a key re-join to it, and so do all but the last part with the last. */
  lemma SplitAtLast(k: string)
    requires '/' in k
    ensures var parts := SplitOn(k, '/');
            && |parts| >= 2
            && Join(parts, "/") == k
            && '/' !in parts[|parts| - 1]
            && Join(parts[..|parts| - 1], "/") + "/" + parts[|parts| - 1] == k
  {
    var parts := SplitOn(k, '/');
    assert |parts| >= 2;
    JoinSplit(k, '/');
    JoinLast(parts, "/");
  }

  /** The collection a deep scan of `key` reads: both parts of `create_keys` joined by '/'. */
  function DeepScanCollection(key: string): (r: Result<string>)
    ensures r.Fail? <==> '/' !in TrimSlashes(key)
    ensures Count(TrimSlashes(key), '/') == 1 ==> r == Ok(TrimSlashes(key) + "/" + ROOT)
    ensures Count(TrimSlashes(key), '/') >= 2 ==> r == Ok(TrimSlashes(key))
  {
    match CreateKeys(key)
    case Fail(e) => Fail(e)
    case Ok((collection, item)) =>
      assert Join([collection, item], "/") == collection + "/" + item;
      Ok(Join([collection, item], "/"))
  }

  /** A string splits at most one way into a head, a '/', and a slash-free tail. */
  lemma {:induction false} LastSlashUnique(c1: string, i1: string, c2: string, i2: string)
    requires '/' !in i1 && '/' !in i2
    requires c1 + "/" + i1 == c2 + "/" + i2
    ensures c1 == c2 && i1 == i2
  {
    var s := c1 + "/" + i1;
    SlashesBeforeTail(c1, i1, |c2|);
    SlashesBeforeTail(c2, i2, |c1|);
    assert c1 == s[..|c1|] && c2 == s[..|c2|];
    assert i1 == s[|c1| + 1..] && i2 == s[|c2| + 1..];
  }

  lemma SlashesBeforeTail(c: string, i: string, k: nat)
    requires '/' !in i
    requires k < |c + "/" + i| && (c + "/" + i)[k] == '/'
    ensures k <= |c|
  {
  }

  /**
   * A deep scan of `p` reads collection `p` itself exactly when `p` has
   * three or more segments; a two-segment `p` is read in `p/||ROOT||`.
   */
  lemma DeepScanReadsItself(p: string)
    requires |p| > 0 && p[0] != '/' && p[|p| - 1] != '/' && '/' in p
    ensures DeepScanCollection(p) == Ok(p) <==> Count(p, '/') >= 2
  {
    assert TrimSlashes(p) == p;
    if Count(p, '/') == 1 {
      assert |p + "/" + ROOT| != |p|;
    }
  }

  /** The document `p/x` is stored in collection `p` under item `x`. */
  lemma ChildKeys(p: string, x: string)
    requires |p| > 0 && p[0] != '/' && '/' in p
    requires x != "" && '/' !in x
    ensures CreateKeys(p + "/" + x) == Ok((p, x))
  {
    var child := p + "/" + x;
    assert child[|child| - 1] == x[|x| - 1];
    assert x[|x| - 1] in x;
    assert TrimSlashes(child) == child;
    CountAppend(p, "/" + x, '/');
    CountAppend("/", x, '/');
    assert child == p + ("/" + x);
    assert Count("/", '/') == 1;
    assert Count(child, '/') >= 2;
    var r := CreateKeys(child);
    LastSlashUnique(r.value.0, r.value.1, p, x);
  }

  /** The default upper bound `item_id < ROOT` admits every id that starts below '|'. */
  lemma {:induction false} RootBoundsOrdinaryIds(id: string)
    requires id == [] || id[0] < '|'
    ensures Less(id, ROOT)
  {
  }

  /** The same bound keeps out every id that starts above '|', such as `}`, `~` or any non-ASCII letter. */
  lemma {:induction false} RootBoundsHighIds(id: string)
    requires |id| > 0 && id[0] > '|'
    ensures !Less(id, ROOT)
  {
  }
}

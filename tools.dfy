/**
 * The cache key of a memoized call and the cache itself. Arguments are
 * taken as their `str()` renderings; how a value renders is not modelled.
 */
module Tools {
  import opened Strings

  /** One keyword argument: its name and the `str()` of its value. */
  datatype KwArg = KwArg(name: string, val: string)

  /** Keyword arguments ordered by name (`sorted(kwargs.items(), key=lambda x: x[0])`). */
  predicate SortedByName(kws: seq<KwArg>)
  {
    forall i, j :: 0 <= i < j < |kws| ==> !Less(kws[j].name, kws[i].name)
  }

  /** No two keyword arguments share a name, as in a Python `**kwargs` dict. */
  predicate DistinctNames(kws: seq<KwArg>)
  {
    forall i, j :: 0 <= i < j < |kws| ==> kws[i].name != kws[j].name
  }

  /** Places `x` before the first argument whose name is not below its own. */
  function InsertByName(x: KwArg, s: seq<KwArg>): (r: seq<KwArg>)
    requires SortedByName(s)
    ensures SortedByName(r)
    ensures |r| == |s| + 1
    ensures multiset(r) == multiset(s) + multiset{x}
    ensures forall e :: e in r <==> e == x || e in s
  {
    if s == [] then [x]
    else if !Less(s[0].name, x.name) then
      InsertFront(x, s);
      [x] + s
    else
      var rest := InsertByName(x, s[1..]);
      assert s == [s[0]] + s[1..];
      InsertBehind(x, s, rest);
      [s[0]] + rest
  }

  /** An argument not above the first of a sorted list can go in front. */
  lemma InsertFront(x: KwArg, s: seq<KwArg>)
    requires SortedByName(s) && s != [] && !Less(s[0].name, x.name)
    ensures SortedByName([x] + s)
  {
    forall j | 0 <= j < |s| ensures !Less(s[j].name, x.name) {
      LessTotal(s[0].name, x.name);
      if Less(s[j].name, x.name) && j > 0 {
        LessTotalCases(s[0].name, s[j].name, x.name);
      }
    }
    var r := [x] + s;
    forall i, j | 0 <= i < j < |r| ensures !Less(r[j].name, r[i].name) {
      assert r[j] == s[j - 1];
      if i > 0 {
        assert r[i] == s[i - 1];
      }
    }
  }

  /** The first of a sorted list stays in front of the rest with an argument above it inserted. */
  lemma InsertBehind(x: KwArg, s: seq<KwArg>, rest: seq<KwArg>)
    requires SortedByName(s) && s != [] && Less(s[0].name, x.name)
    requires SortedByName(rest) && forall e :: e in rest <==> e == x || e in s[1..]
    ensures SortedByName([s[0]] + rest)
  {
    forall e | e in rest ensures !Less(e.name, s[0].name) {
      if e == x {
        LessAsymmetric(s[0].name, x.name);
      } else {
        var j :| 0 <= j < |s[1..]| && s[1..][j] == e;
        assert s[j + 1] == e;
      }
    }
    var r := [s[0]] + rest;
    forall i, j | 0 <= i < j < |r| ensures !Less(r[j].name, r[i].name) {
      assert r[j] == rest[j - 1] && r[j] in rest;
      if i > 0 {
        assert r[i] == rest[i - 1];
      }
    }
  }

  /** Helper for the order: if `b` does not sort below `a` but sorts below `c`, then `c` does not sort below `a`. */
  lemma LessTotalCases(a: string, b: string, c: string)
    requires !Less(b, a) && Less(b, c)
    ensures !Less(c, a)
  {
    LessTotal(a, b);
    if Less(c, a) {
      if a == b {
        LessAsymmetric(b, c);
      } else {
        LessTransitive(a, b, c);
        LessTransitive(c, a, b);
        LessIrreflexive(b);
      }
    }
  }

  /** `sorted(kwargs.items(), key=...)`: an ordering of the keyword arguments by name. */
  function SortByName(kws: seq<KwArg>): (r: seq<KwArg>)
    ensures SortedByName(r)
    ensures |r| == |kws|
    ensures multiset(r) == multiset(kws)
    ensures forall e :: e in r <==> e in kws
  {
    if kws == [] then []
    else
      assert kws == [kws[0]] + kws[1..];
      InsertByName(kws[0], SortByName(kws[1..]))
  }

  /** `'%s=%s' % (k, v)` for every keyword argument, in order. */
  function Tags(kws: seq<KwArg>): (r: seq<string>)
    ensures |r| == |kws|
  {
    if kws == [] then [] else [kws[0].name + "=" + kws[0].val] + Tags(kws[1..])
  }

  /** Every part preceded by the separator `::`. */
  function PrefixEach(parts: seq<string>): string
  {
    if parts == [] then "" else "::" + parts[0] + PrefixEach(parts[1..])
  }

  /**
   * `_make_key_str(name, *args, **kwargs)`: the name, then each positional
   * argument, then each `k=v` in name order, every one preceded by `::`.
   */
  function MakeKeyStr(name: string, args: seq<string>, kwargs: seq<KwArg>): (r: string)
    ensures r == name + PrefixEach(args) + PrefixEach(Tags(SortByName(kwargs)))
    ensures args == [] && kwargs == [] ==> r == name
  {
    var withArgs := if args != [] then name + "::" + Join(args, "::") else name;
    var tags := Tags(SortByName(kwargs));
    KeyStrParts(name, args, tags);
    if kwargs != [] then withArgs + ("::" + Join(tags, "::")) else withArgs
  }

  /** The name, `'::' + '::'.join(args)` when there are arguments, and the same for the tags, is every part after the name preceded by `::`. */
  lemma KeyStrParts(name: string, args: seq<string>, tags: seq<string>)
    ensures var withArgs := if args != [] then name + "::" + Join(args, "::") else name;
            (if tags != [] then withArgs + ("::" + Join(tags, "::")) else withArgs)
              == name + PrefixEach(args) + PrefixEach(tags)
  {
    JoinIsPrefixEach(args);
    JoinIsPrefixEach(tags);
  }

  /** `'::' + '::'.join(parts)` for non-empty parts is every part preceded by `::`. */
  lemma {:induction false} JoinIsPrefixEach(parts: seq<string>)
    ensures parts != [] ==> "::" + Join(parts, "::") == PrefixEach(parts)
  {
    if |parts| >= 2 {
      JoinIsPrefixEach(parts[1..]);
      assert "::" + Join(parts, "::") == "::" + parts[0] + ("::" + Join(parts[1..], "::"));
    }
  }

  /** Sorting keeps names distinct. */
  lemma {:induction false} SortKeepsDistinct(kws: seq<KwArg>)
    requires DistinctNames(kws)
    ensures DistinctNames(SortByName(kws))
  {
    if kws != [] {
      var rest := SortByName(kws[1..]);
      assert DistinctNames(kws[1..]) by {
        forall i, j | 0 <= i < j < |kws[1..]| ensures kws[1..][i].name != kws[1..][j].name {
          assert kws[1..][i] == kws[i + 1] && kws[1..][j] == kws[j + 1];
        }
      }
      SortKeepsDistinct(kws[1..]);
      forall e | e in rest ensures e.name != kws[0].name {
        var j :| 0 <= j < |kws[1..]| && kws[1..][j] == e;
        assert kws[j + 1] == e;
      }
      InsertKeepsDistinct(kws[0], rest);
    }
  }

  /** Inserting a name not yet present keeps the names distinct. */
  lemma {:induction false} InsertKeepsDistinct(x: KwArg, s: seq<KwArg>)
    requires SortedByName(s) && DistinctNames(s)
    requires forall e :: e in s ==> e.name != x.name
    ensures DistinctNames(InsertByName(x, s))
  {
    if s != [] && Less(s[0].name, x.name) {
      assert DistinctNames(s[1..]) by {
        forall i, j | 0 <= i < j < |s[1..]| ensures s[1..][i].name != s[1..][j].name {
          assert s[1..][i] == s[i + 1] && s[1..][j] == s[j + 1];
        }
      }
      assert forall e :: e in s[1..] ==> e in s;
      InsertKeepsDistinct(x, s[1..]);
      var rest := InsertByName(x, s[1..]);
      forall e | e in rest ensures e.name != s[0].name {
        if e != x {
          var j :| 0 <= j < |s[1..]| && s[1..][j] == e;
          assert s[j + 1] == e;
        }
      }
      ConsKeepsDistinct(s[0], rest);
    } else if s != [] {
      ConsKeepsDistinct(x, s);
    }
  }

  /** An argument whose name the others lack can go in front. */
  lemma ConsKeepsDistinct(x: KwArg, s: seq<KwArg>)
    requires DistinctNames(s)
    requires forall e :: e in s ==> e.name != x.name
    ensures DistinctNames([x] + s)
  {
    var r := [x] + s;
    forall i, j | 0 <= i < j < |r| ensures r[i].name != r[j].name {
      if i > 0 {
        assert r[i] == s[i - 1] && r[j] == s[j - 1];
      } else {
        assert r[j] == s[j - 1] && r[j] in s;
      }
    }
  }

  /** Two orderings by name of the same arguments, with distinct names, are the same ordering. */
  lemma {:induction false} SortedUnique(a: seq<KwArg>, b: seq<KwArg>)
    requires SortedByName(a) && SortedByName(b) && DistinctNames(a)
    requires multiset(a) == multiset(b)
    ensures a == b
  {
    if a != [] {
      SameFirst(a, b);
      assert a == [a[0]] + a[1..] && b == [b[0]] + b[1..];
      TailsSameMultiset(a, b);
      assert SortedByName(a[1..]) && SortedByName(b[1..]);
      assert DistinctNames(a[1..]) by {
        forall p, q | 0 <= p < q < |a[1..]| ensures a[1..][p].name != a[1..][q].name {
          assert a[1..][p] == a[p + 1] && a[1..][q] == a[q + 1];
        }
      }
      SortedUnique(a[1..], b[1..]);
    } else {
      assert |multiset(b)| == 0;
    }
  }

  /** Of two such orderings, neither can start with an argument the other places later. */
  lemma SameFirst(a: seq<KwArg>, b: seq<KwArg>)
    requires SortedByName(a) && SortedByName(b) && DistinctNames(a)
    requires multiset(a) == multiset(b) && a != []
    ensures b != [] && a[0] == b[0]
  {
    assert a[0] in multiset(b);
    assert b != [];
    assert b[0] in multiset(a);
    var j :| 0 <= j < |b| && b[j] == a[0];
    var i :| 0 <= i < |a| && a[i] == b[0];
    if j > 0 {
      assert !Less(a[0].name, b[0].name);
    }
    if i > 0 {
      assert !Less(b[0].name, a[0].name);
    }
    LessTotal(a[0].name, b[0].name);
    assert a[i].name == a[0].name;
  }

  lemma TailsSameMultiset(a: seq<KwArg>, b: seq<KwArg>)
    requires multiset(a) == multiset(b) && a != [] && b != [] && a[0] == b[0]
    ensures multiset(a[1..]) == multiset(b[1..])
  {
    assert a == [a[0]] + a[1..] && b == [b[0]] + b[1..];
    assert multiset(a) == multiset{a[0]} + multiset(a[1..]);
    assert multiset(b) == multiset{b[0]} + multiset(b[1..]);
    forall e ensures multiset(a[1..])[e] == multiset(b[1..])[e] {
      assert multiset(a)[e] == multiset{a[0]}[e] + multiset(a[1..])[e];
      assert multiset(b)[e] == multiset{b[0]}[e] + multiset(b[1..])[e];
    }
  }

  /** The key does not depend on the order in which keyword arguments were passed. */
  lemma KeyStrIgnoresKwargOrder(name: string, args: seq<string>, kw1: seq<KwArg>, kw2: seq<KwArg>)
    requires DistinctNames(kw1) && multiset(kw1) == multiset(kw2)
    ensures MakeKeyStr(name, args, kw1) == MakeKeyStr(name, args, kw2)
  {
    SortKeepsDistinct(kw1);
    SortedUnique(SortByName(kw1), SortByName(kw2));
  }

  /**
   * `memoize`: one results dict shared by every memoized function, keyed
   * by the call's key string. `calls` counts the calls that reached a
   * wrapped function.
   */
  class Memo<V> {
    var results: map<string, V>
    ghost var calls: nat

    constructor()
      ensures results == map[] && calls == 0
    {
      results := map[];
      calls := 0;
    }

    /** Applying `memoize` to a function resets the shared results to empty. */
    method Decorate()
      modifies this
      ensures results == map[] && calls == old(calls)
    {
      results := map[];
    }

    /**
     * A call of the memoized `moduleName.fnName`: a cached key returns its value
     * and leaves the wrapped function uncalled; a new key calls it once,
     * stores its value under the key, and changes no other entry.
     */
    method Call(moduleName: string, fnName: string, args: seq<string>, kwargs: seq<KwArg>,
                fn: (seq<string>, seq<KwArg>) -> V) returns (v: V, hit: bool)
      modifies this
      ensures var key := MakeKeyStr(moduleName + "." + fnName, args, kwargs);
              && hit == (key in old(results))
              && (hit ==> v == old(results)[key] && results == old(results) && calls == old(calls))
              && (!hit ==> v == fn(args, kwargs) && results == old(results)[key := v] && calls == old(calls) + 1)
    {
      var key := MakeKeyStr(moduleName + "." + fnName, args, kwargs);
      if key in results {
        return results[key], true;
      }
      v := fn(args, kwargs);
      calls := calls + 1;
      results := results[key := v];
      hit := false;
    }
  }
}

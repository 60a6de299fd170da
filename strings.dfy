/**
 * The few Python string operations the store relies on: `str.count`,
 * `str.split`, `sep.join`, `filter(None, parts)`, and the byte order in
 * which the storage backend sorts text (code-point order, which is also the
 * order of the UTF-8 bytes).
 */
module Strings {

  /** `s.count(c)` for a one-character needle. */
  function Count(s: string, c: char): (n: nat)
    ensures n <= |s|
    ensures n == 0 <==> c !in s
  {
    if s == [] then 0 else (if s[0] == c then 1 else 0) + Count(s[1..], c)
  }

  lemma {:induction false} CountAppend(a: string, b: string, c: char)
    ensures Count(a + b, c) == Count(a, c) + Count(b, c)
  {
    if a != [] {
      CountAppend(a[1..], b, c);
      assert (a + b)[1..] == a[1..] + b;
    } else {
      assert a + b == b;
    }
  }

  /** `s.split(c)`: the maximal runs between separators, empty runs included. */
  function SplitOn(s: string, c: char): (parts: seq<string>)
    ensures |parts| == Count(s, c) + 1
    ensures forall i :: 0 <= i < |parts| ==> c !in parts[i]
  {
    if s == [] then [""]
    else if s[0] == c then [""] + SplitOn(s[1..], c)
    else
      var rest := SplitOn(s[1..], c);
      [[s[0]] + rest[0]] + rest[1..]
  }

  /** `sep.join(parts)`. */
  function Join(parts: seq<string>, sep: string): string
  {
    if |parts| == 0 then ""
    else if |parts| == 1 then parts[0]
    else parts[0] + sep + Join(parts[1..], sep)
  }

  /** `filter(None, parts)`: drops the empty strings, keeps the order. */
  function NonEmpty(parts: seq<string>): (r: seq<string>)
    ensures |r| <= |parts|
    ensures forall i :: 0 <= i < |r| ==> r[i] != "" && r[i] in parts
    ensures (forall i :: 0 <= i < |parts| ==> parts[i] != "") ==> r == parts
  {
    if parts == [] then []
    else if parts[0] == "" then NonEmpty(parts[1..])
    else [parts[0]] + NonEmpty(parts[1..])
  }

  /** `filter(None, parts)` keeps every non-empty part as often as it occurs, and no empty one. */
  lemma {:induction false} NonEmptyKeeps(parts: seq<string>)
    ensures "" !in NonEmpty(parts)
    ensures forall s :: s != "" ==> multiset(NonEmpty(parts))[s] == multiset(parts)[s]
  {
    if parts != [] {
      NonEmptyKeeps(parts[1..]);
      assert parts == [parts[0]] + parts[1..];
    }
  }

  /** Filtering two lists one after the other filters each in turn, so the order is kept. */
  lemma {:induction false} NonEmptyAppend(a: seq<string>, b: seq<string>)
    ensures NonEmpty(a + b) == NonEmpty(a) + NonEmpty(b)
  {
    if a != [] {
      var t := a[1..];
      NonEmptyAppend(t, b);
      assert (a + b)[0] == a[0] && (a + b)[1..] == t + b;
      if a[0] == "" {
        assert NonEmpty(a + b) == NonEmpty(t + b);
      } else {
        assert NonEmpty(a + b) == [a[0]] + NonEmpty(t + b);
      }
    } else {
      assert a + b == b;
    }
  }

  /** Joining what `split` cut with the same separator gives the string back. */
  lemma {:induction false} JoinSplit(s: string, c: char)
    ensures Join(SplitOn(s, c), [c]) == s
  {
    if s == [] {
    } else if s[0] == c {
      JoinSplit(s[1..], c);
      assert SplitOn(s, c) == [""] + SplitOn(s[1..], c);
    } else {
      var rest := SplitOn(s[1..], c);
      JoinSplit(s[1..], c);
      var parts := [[s[0]] + rest[0]] + rest[1..];
      assert parts[1..] == rest[1..];
      if |rest| > 1 {
        assert Join(rest, [c]) == rest[0] + [c] + Join(rest[1..], [c]);
      }
    }
  }

  /** Concatenation is associative. */
  lemma SeqAssoc<T>(a: seq<T>, b: seq<T>, c: seq<T>)
    ensures a + b + c == a + (b + c)
  {
  }

  /** Splitting a separator-free head followed by anything glues the head to the first part. */
  lemma {:induction false} SplitGluesHead(a: string, rest: string, c: char)
    requires c !in a
    ensures SplitOn(a + rest, c) == [a + SplitOn(rest, c)[0]] + SplitOn(rest, c)[1..]
  {
    if a != [] {
      var s := a + rest;
      var r := SplitOn(rest, c);
      assert s[0] == a[0] && s[1..] == a[1..] + rest;
      assert a[0] != c;
      SplitGluesHead(a[1..], rest, c);
      var tail := SplitOn(s[1..], c);
      assert tail == [a[1..] + r[0]] + r[1..];
      calc {
        SplitOn(s, c);
        [[s[0]] + tail[0]] + tail[1..];
        { assert tail[0] == a[1..] + r[0] && tail[1..] == r[1..]; }
        [[a[0]] + (a[1..] + r[0])] + r[1..];
        { assert a == [a[0]] + a[1..]; SeqAssoc([a[0]], a[1..], r[0]); }
        [a + r[0]] + r[1..];
      }
    } else {
      var r := SplitOn(rest, c);
      assert a + rest == rest && a + r[0] == r[0];
      assert r == [r[0]] + r[1..];
    }
  }

  /** Splitting what was joined from separator-free parts gives the parts back. */
  lemma {:induction false} SplitJoin(parts: seq<string>, c: char)
    requires |parts| >= 1
    requires forall i :: 0 <= i < |parts| ==> c !in parts[i]
    ensures SplitOn(Join(parts, [c]), c) == parts
  {
    if |parts| == 1 {
      SplitGluesHead(parts[0], "", c);
      assert parts[0] + "" == parts[0];
    } else {
      var tail := Join(parts[1..], [c]);
      SplitJoin(parts[1..], c);
      assert Join(parts, [c]) == parts[0] + ([c] + tail);
      SplitGluesHead(parts[0], [c] + tail, c);
      assert ([c] + tail)[1..] == tail;
      assert SplitOn([c] + tail, c) == [""] + parts[1..];
      assert parts[0] + "" == parts[0];
    }
  }

  /** Joining with a separator puts it between the last part and the rest. */
  lemma {:induction false} JoinSnoc(parts: seq<string>, last: string, sep: string)
    requires |parts| >= 1
    ensures Join(parts + [last], sep) == Join(parts, sep) + sep + last
  {
    if |parts| == 1 {
      assert (parts + [last])[1..] == [last];
    } else {
      JoinSnoc(parts[1..], last, sep);
      assert (parts + [last])[1..] == parts[1..] + [last];
    }
  }

  /** The same step read backwards: a join of two or more parts ends with the separator and the last part. */
  lemma JoinLast(parts: seq<string>, sep: string)
    requires |parts| >= 2
    ensures Join(parts, sep) == Join(parts[..|parts| - 1], sep) + sep + parts[|parts| - 1]
  {
    var init, last := parts[..|parts| - 1], parts[|parts| - 1];
    assert init + [last] == parts;
    JoinSnoc(init, last, sep);
  }

  /** A join whose first part is non-empty is non-empty. */
  lemma JoinNonEmpty(parts: seq<string>, sep: string)
    requires |parts| >= 1 && parts[0] != ""
    ensures Join(parts, sep) != ""
  {
    if |parts| >= 2 {
      assert Join(parts, sep) == parts[0] + sep + Join(parts[1..], sep);
    }
  }

  /** A join of non-empty parts is non-empty and contains the separator exactly when there are two or more parts. */
  lemma {:induction false} JoinShape(parts: seq<string>, c: char)
    requires |parts| >= 1
    requires forall i :: 0 <= i < |parts| ==> parts[i] != "" && c !in parts[i]
    ensures Join(parts, [c]) != ""
    ensures c in Join(parts, [c]) <==> |parts| >= 2
  {
    if |parts| >= 2 {
      JoinShape(parts[1..], c);
      var j := Join(parts, [c]);
      assert j == parts[0] + [c] + Join(parts[1..], [c]);
      assert j[|parts[0]|] == c;
    }
  }

  /**
   * Strict lexicographic order on code points: the order in which the
   * storage backend sorts text clustering columns.
   */
  predicate Less(a: string, b: string)
  {
    if a == [] then b != []
    else if b == [] then false
    else a[0] < b[0] || (a[0] == b[0] && Less(a[1..], b[1..]))
  }

  lemma {:induction false} LessIrreflexive(a: string)
    ensures !Less(a, a)
  {
    if a != [] {
      LessIrreflexive(a[1..]);
    }
  }

  lemma {:induction false} LessAsymmetric(a: string, b: string)
    ensures Less(a, b) ==> !Less(b, a)
  {
    if a != [] && b != [] && a[0] == b[0] {
      LessAsymmetric(a[1..], b[1..]);
    }
  }

  lemma {:induction false} LessTransitive(a: string, b: string, c: string)
    requires Less(a, b) && Less(b, c)
    ensures Less(a, c)
  {
    if a != [] && a[0] == b[0] && b[0] == c[0] {
      LessTransitive(a[1..], b[1..], c[1..]);
    }
  }

  lemma {:induction false} LessTotal(a: string, b: string)
    ensures a == b || Less(a, b) || Less(b, a)
  {
    if a != [] && b != [] && a[0] == b[0] {
      LessTotal(a[1..], b[1..]);
      if a[1..] == b[1..] {
        assert a == [a[0]] + a[1..] && b == [b[0]] + b[1..];
      }
    }
  }
}

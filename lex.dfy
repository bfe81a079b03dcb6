/** Go's ordering of strings and the sorted key sequences built on it.

    Go compares strings byte by byte over their UTF-8 encodings. Keys are
    modelled as sequences of Unicode scalar values; UTF-8 preserves the order
    of code points, so comparing code points gives the same answer. */
module Lex {

  /** Go's `a < b` on strings. */
  predicate Less(a: string, b: string)
    decreases |a|
  {
    if |a| == 0 then |b| > 0
    else if |b| == 0 then false
    else if a[0] != b[0] then a[0] < b[0]
    else Less(a[1..], b[1..])
  }

  /** Go's `strings.HasPrefix(s, p)`. */
  predicate HasPrefix(s: string, p: string)
  {
    |p| <= |s| && s[..|p|] == p
  }

  /** Every element is below every later one (sorted and duplicate-free). */
  predicate StrictlySorted(s: seq<string>)
  {
    forall i, j :: 0 <= i < j < |s| ==> Less(s[i], s[j])
  }

  predicate Distinct(s: seq<string>)
  {
    forall i, j :: 0 <= i < j < |s| ==> s[i] != s[j]
  }

  lemma {:induction false} LessIrreflexive(a: string)
    ensures !Less(a, a)
  {
    if |a| > 0 {
      LessIrreflexive(a[1..]);
    }
  }

  lemma {:induction false} LessTransitive(a: string, b: string, c: string)
    requires Less(a, b) && Less(b, c)
    ensures Less(a, c)
  {
    if |a| > 0 && a[0] == b[0] && b[0] == c[0] {
      LessTransitive(a[1..], b[1..], c[1..]);
    }
  }

  lemma {:induction false} LessTotal(a: string, b: string)
    requires a != b
    ensures Less(a, b) || Less(b, a)
  {
    if |a| > 0 && |b| > 0 && a[0] == b[0] {
      assert a == [a[0]] + a[1..] && b == [b[0]] + b[1..];
      LessTotal(a[1..], b[1..]);
    }
  }

  lemma {:induction false} LessAsymmetric(a: string, b: string)
    ensures Less(a, b) ==> !Less(b, a)
  {
    if |a| > 0 && |b| > 0 && a[0] == b[0] {
      LessAsymmetric(a[1..], b[1..]);
    }
  }

  /** A prefix test on non-empty strings with equal heads is a prefix test
      on their tails. */
  lemma PrefixCons(s: string, p: string)
    requires |s| > 0 && |p| > 0 && s[0] == p[0]
    ensures HasPrefix(s, p) <==> HasPrefix(s[1..], p[1..])
  {
    assert p == [p[0]] + p[1..];
    if |p| <= |s| {
      assert s[..|p|] == [s[0]] + s[1..][..|p| - 1];
    }
  }

  /** The fact behind the early exit of a prefix scan over a sorted index:
      once a key `k` is above the prefix `p` without starting with it, no
      key above `k` starts with `p`. */
  lemma {:induction false} PastPrefix(p: string, k: string, k2: string)
    requires Less(p, k) && !HasPrefix(k, p) && Less(k, k2)
    ensures !HasPrefix(k2, p)
  {
    assert |p| > 0 && |k| > 0 && |k2| > 0;
    if k2[0] == p[0] {
      assert k[0] == p[0];
      PrefixCons(k, p);
      PastPrefix(p[1..], k[1..], k2[1..]);
      PrefixCons(k2, p);
    } else {
      assert |p| <= |k2| ==> k2[..|p|][0] != p[0];
    }
  }

  lemma StrictlySortedDistinct(s: seq<string>)
    requires StrictlySorted(s)
    ensures Distinct(s)
  {
    forall i, j | 0 <= i < j < |s| ensures s[i] != s[j] {
      LessIrreflexive(s[i]);
    }
  }

  /** Inserts `k` before the first element it is below. */
  function Insert(s: seq<string>, k: string): seq<string>
  {
    if |s| == 0 then [k]
    else if Less(k, s[0]) then [k] + s
    else [s[0]] + Insert(s[1..], k)
  }

  /** Go's `sort.Strings`, as an insertion sort. For duplicate-free input,
      which is the only kind the store passes, its result is the unique
      strictly sorted arrangement (see StrictlySortedUnique). */
  function SortStrings(s: seq<string>): seq<string>
  {
    if |s| == 0 then [] else Insert(SortStrings(s[..|s| - 1]), s[|s| - 1])
  }

  lemma ConsStrictlySorted(x: string, r: seq<string>)
    requires StrictlySorted(r)
    requires forall y :: y in r ==> Less(x, y)
    ensures StrictlySorted([x] + r)
  {
    var s := [x] + r;
    forall i, j | 0 <= i < j < |s| ensures Less(s[i], s[j]) {
      if i == 0 {
        assert s[j] == r[j - 1];
      } else {
        assert s[i] == r[i - 1] && s[j] == r[j - 1];
      }
    }
  }

  lemma {:induction false} InsertStrict(s: seq<string>, k: string)
    requires StrictlySorted(s) && k !in s
    ensures StrictlySorted(Insert(s, k))
    ensures forall x :: x in Insert(s, k) <==> x in s || x == k
  {
    if |s| == 0 {
    } else if Less(k, s[0]) {
      forall y | y in s ensures Less(k, y) {
        var j :| 0 <= j < |s| && s[j] == y;
        if j > 0 { LessTransitive(k, s[0], y); }
      }
      ConsStrictlySorted(k, s);
    } else {
      assert s == [s[0]] + s[1..];
      assert StrictlySorted(s[1..]);
      InsertStrict(s[1..], k);
      LessTotal(k, s[0]);
      forall y | y in Insert(s[1..], k) ensures Less(s[0], y) {
        if y != k {
          var j :| 0 <= j < |s[1..]| && s[1..][j] == y;
          assert s[j + 1] == y;
        }
      }
      ConsStrictlySorted(s[0], Insert(s[1..], k));
    }
  }

  /** Sorting a duplicate-free sequence gives a strictly sorted sequence of
      the same elements. */
  lemma {:induction false} SortDistinct(s: seq<string>)
    requires Distinct(s)
    ensures StrictlySorted(SortStrings(s))
    ensures forall x :: x in SortStrings(s) <==> x in s
  {
    if |s| > 0 {
      var init, last := s[..|s| - 1], s[|s| - 1];
      assert s == init + [last];
      SortDistinct(init);
      forall j | 0 <= j < |init| ensures init[j] != last {
        assert s[j] == init[j];
      }
      InsertStrict(SortStrings(init), last);
    }
  }

  /** A strictly sorted sequence is determined by its elements. */
  lemma {:induction false} StrictlySortedUnique(a: seq<string>, b: seq<string>)
    requires StrictlySorted(a) && StrictlySorted(b)
    requires forall x :: x in a <==> x in b
    ensures a == b
  {
    assert |a| > 0 ==> a[0] in b;
    assert |b| > 0 ==> b[0] in a;
    if |a| > 0 && |b| > 0 {
      var i :| 0 <= i < |b| && b[i] == a[0];
      var j :| 0 <= j < |a| && a[j] == b[0];
      assert i > 0 ==> Less(b[0], a[0]);
      assert j > 0 ==> Less(a[0], b[0]);
      LessAsymmetric(a[0], b[0]);
      assert a[0] == b[0];
      LessIrreflexive(a[0]);
      forall x ensures x in a[1..] <==> x in b[1..] {
        if x in a[1..] {
          var j :| 0 <= j < |a[1..]| && a[1..][j] == x;
          assert Less(a[0], a[j + 1]);
          assert x in b && x != b[0];
          var i :| 0 <= i < |b| && b[i] == x;
          assert b[1..][i - 1] == x;
        }
        if x in b[1..] {
          var j :| 0 <= j < |b[1..]| && b[1..][j] == x;
          assert Less(b[0], b[j + 1]);
          assert x in a && x != a[0];
          var i :| 0 <= i < |a| && a[i] == x;
          assert a[1..][i - 1] == x;
        }
      }
      StrictlySortedUnique(a[1..], b[1..]);
      assert a == [a[0]] + a[1..] && b == [b[0]] + b[1..];
    }
  }

  /** Appending a new key and re-sorting, as the store does, is the same as
      inserting the key at its sorted position. */
  lemma SortAppendIsInsert(s: seq<string>, k: string)
    requires StrictlySorted(s) && k !in s
    ensures SortStrings(s + [k]) == Insert(s, k)
    ensures StrictlySorted(SortStrings(s + [k]))
    ensures forall x :: x in SortStrings(s + [k]) <==> x in s || x == k
  {
    StrictlySortedDistinct(s);
    var t := s + [k];
    forall i, j | 0 <= i < j < |t| ensures t[i] != t[j] {
      if j == |s| { assert t[i] == s[i]; } else { assert t[i] == s[i] && t[j] == s[j]; }
    }
    SortDistinct(t);
    InsertStrict(s, k);
    StrictlySortedUnique(SortStrings(t), Insert(s, k));
  }
}

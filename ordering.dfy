// Python's string order and the stable descending sort that
// `items.sort(key=..., reverse=True)` performs.

module Ordering {

  /**
   * Python's `a < b` on `str`: lexicographic by code point, a proper
   * prefix being smaller.
   */
  predicate StrLess(a: string, b: string)
    decreases |a|
  {
    if a == [] then b != []
    else if b == [] then false
    else if a[0] != b[0] then a[0] < b[0]
    else StrLess(a[1..], b[1..])
  }

  lemma {:induction false} StrLessIrreflexive(a: string)
    ensures !StrLess(a, a)
    decreases |a|
  {
    if a != [] {
      StrLessIrreflexive(a[1..]);
    }
  }

  lemma {:induction false} StrLessTransitive(a: string, b: string, c: string)
    requires StrLess(a, b) && StrLess(b, c)
    ensures StrLess(a, c)
    decreases |a|
  {
    if a != [] && b != [] && c != [] && a[0] == b[0] && b[0] == c[0] {
      StrLessTransitive(a[1..], b[1..], c[1..]);
    }
  }

  lemma {:induction false} StrLessTotal(a: string, b: string)
    ensures a == b || StrLess(a, b) || StrLess(b, a)
    decreases |a|
  {
    if a != [] && b != [] && a[0] == b[0] {
      StrLessTotal(a[1..], b[1..]);
      if a[1..] == b[1..] {
        assert a == [a[0]] + a[1..] && b == [b[0]] + b[1..];
      }
    }
  }

  lemma StrLessAsymmetric(a: string, b: string)
    ensures !(StrLess(a, b) && StrLess(b, a))
  {
    if StrLess(a, b) && StrLess(b, a) {
      StrLessTransitive(a, b, a);
      StrLessIrreflexive(a);
    }
  }

  /** "Not smaller": `a >= b` in Python's order. */
  predicate StrAtLeast(a: string, b: string) {
    !StrLess(a, b)
  }

  lemma StrAtLeastTransitive(a: string, b: string, c: string)
    requires StrAtLeast(a, b) && StrAtLeast(b, c)
    ensures StrAtLeast(a, c)
  {
    StrLessTotal(a, b);
    StrLessTotal(b, c);
    if StrLess(a, c) {
      if a == b {
      } else if b == c {
      } else {
        StrLessTransitive(c, b, a);
        StrLessAsymmetric(a, c);
      }
    }
  }

  /** Descending by `key`: no element is followed by one with a larger key. */
  predicate SortedDesc<T>(s: seq<T>, key: T -> string) {
    forall i, j :: 0 <= i < j < |s| ==> StrAtLeast(key(s[i]), key(s[j]))
  }

  /** The elements of `s` whose key is `k`, in their order in `s`. */
  function WithKey<T>(s: seq<T>, key: T -> string, k: string): (r: seq<T>)
    ensures |r| <= |s|
  {
    if s == [] then []
    else if key(s[0]) == k then [s[0]] + WithKey(s[1..], key, k)
    else WithKey(s[1..], key, k)
  }

  /**
   * Inserts `x` into the descending sequence `t` in front of the first
   * element whose key is not larger than that of `x`.
   */
  function InsertDesc<T>(x: T, t: seq<T>, key: T -> string): (r: seq<T>)
    ensures |r| == |t| + 1
  {
    if t == [] || StrAtLeast(key(x), key(t[0])) then [x] + t
    else [t[0]] + InsertDesc(x, t[1..], key)
  }

  /**
   * The stable descending sort: elements with equal keys keep their
   * relative order, as with Python's `list.sort(reverse=True)`.
   */
  function SortDesc<T>(s: seq<T>, key: T -> string): seq<T>
  {
    if s == [] then [] else InsertDesc(s[0], SortDesc(s[1..], key), key)
  }

  lemma {:induction false} InsertDescElements<T>(x: T, t: seq<T>, key: T -> string)
    ensures multiset(InsertDesc(x, t, key)) == multiset{x} + multiset(t)
    decreases |t|
  {
    if !(t == [] || StrAtLeast(key(x), key(t[0]))) {
      InsertDescElements(x, t[1..], key);
      assert t == [t[0]] + t[1..];
    }
  }

  lemma {:induction false} InsertDescSorted<T>(x: T, t: seq<T>, key: T -> string)
    requires SortedDesc(t, key)
    ensures SortedDesc(InsertDesc(x, t, key), key)
    decreases |t|
  {
    var r := InsertDesc(x, t, key);
    if t == [] || StrAtLeast(key(x), key(t[0])) {
      forall i, j | 0 <= i < j < |r| ensures StrAtLeast(key(r[i]), key(r[j])) {
        if i == 0 && j > 1 {
          StrAtLeastTransitive(key(x), key(t[0]), key(t[j - 1]));
        }
      }
    } else {
      var rest := InsertDesc(x, t[1..], key);
      InsertDescSorted(x, t[1..], key);
      InsertDescElements(x, t[1..], key);
      StrLessTotal(key(x), key(t[0]));
      forall j | 1 <= j < |r| ensures StrAtLeast(key(t[0]), key(r[j])) {
        assert r[j] in multiset(rest);
        assert r[j] == x || r[j] in multiset(t[1..]);
        if r[j] == x {
          StrLessAsymmetric(key(x), key(t[0]));
        } else {
          var k :| 0 <= k < |t[1..]| && t[1..][k] == r[j];
          assert t[k + 1] == r[j];
        }
      }
    }
  }

  lemma {:induction false} SortDescPermutes<T>(s: seq<T>, key: T -> string)
    ensures multiset(SortDesc(s, key)) == multiset(s)
    ensures |SortDesc(s, key)| == |s|
    decreases |s|
  {
    if s != [] {
      SortDescPermutes(s[1..], key);
      InsertDescElements(s[0], SortDesc(s[1..], key), key);
      assert s == [s[0]] + s[1..];
    }
  }

  lemma {:induction false} SortDescSorted<T>(s: seq<T>, key: T -> string)
    ensures SortedDesc(SortDesc(s, key), key)
    decreases |s|
  {
    if s != [] {
      SortDescSorted(s[1..], key);
      InsertDescSorted(s[0], SortDesc(s[1..], key), key);
    }
  }

  lemma {:induction false} InsertDescWithKey<T>(x: T, t: seq<T>, key: T -> string, k: string)
    requires SortedDesc(t, key)
    ensures WithKey(InsertDesc(x, t, key), key, k)
         == (if key(x) == k then [x] + WithKey(t, key, k) else WithKey(t, key, k))
    decreases |t|
  {
    if !(t == [] || StrAtLeast(key(x), key(t[0]))) {
      InsertDescWithKey(x, t[1..], key, k);
      if key(x) == k {
        StrLessIrreflexive(k);
      }
    }
  }

  /** Elements with equal keys come out in the order they went in. */
  lemma {:induction false} SortDescStable<T>(s: seq<T>, key: T -> string, k: string)
    ensures WithKey(SortDesc(s, key), key, k) == WithKey(s, key, k)
    decreases |s|
  {
    if s != [] {
      SortDescSorted(s[1..], key);
      SortDescStable(s[1..], key, k);
      InsertDescWithKey(s[0], SortDesc(s[1..], key), key, k);
    }
  }

  /** A sequence that is already descending is left as it is. */
  lemma {:induction false} SortDescOfSorted<T>(s: seq<T>, key: T -> string)
    requires SortedDesc(s, key)
    ensures SortDesc(s, key) == s
    decreases |s|
  {
    if s != [] {
      assert SortedDesc(s[1..], key) by {
        forall i, j | 0 <= i < j < |s[1..]| ensures StrAtLeast(key(s[1..][i]), key(s[1..][j])) {
          assert s[1..][i] == s[i + 1] && s[1..][j] == s[j + 1];
        }
      }
      SortDescOfSorted(s[1..], key);
      if |s| > 1 {
        assert StrAtLeast(key(s[0]), key(s[1]));
      }
    }
  }

  lemma SortedPrefix<T>(s: seq<T>, n: nat, key: T -> string)
    requires SortedDesc(s, key) && n <= |s|
    ensures SortedDesc(s[..n], key)
  {
    forall i, j | 0 <= i < j < n ensures StrAtLeast(key(s[..n][i]), key(s[..n][j])) {
      assert s[..n][i] == s[i] && s[..n][j] == s[j];
    }
  }
}

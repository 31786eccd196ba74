/** The array pipeline the storefront builds on: `filter`, `slice(0, n)`,
    a stable descending `sort` by a numeric key, and the subsequence and
    permutation relations that describe them. */
module Seqs {

  function Min(a: int, b: int): int
  {
    if a <= b then a else b
  }

  /** `a` can be obtained from `b` by deleting elements. */
  predicate IsSubseq<T(==)>(a: seq<T>, b: seq<T>)
    decreases |b|
  {
    |a| == 0 ||
    (|b| > 0 && ((a[0] == b[0] && IsSubseq(a[1..], b[1..])) || IsSubseq(a, b[1..])))
  }

  lemma {:induction false} SubseqTrans<T>(a: seq<T>, b: seq<T>, c: seq<T>)
    requires IsSubseq(a, b) && IsSubseq(b, c)
    ensures IsSubseq(a, c)
    decreases |c|
  {
    if |a| > 0 {
      assert |b| > 0 && |c| > 0;
      if b[0] == c[0] && IsSubseq(b[1..], c[1..]) {
        if a[0] == b[0] && IsSubseq(a[1..], b[1..]) {
          SubseqTrans(a[1..], b[1..], c[1..]);
        } else {
          SubseqTrans(a, b[1..], c[1..]);
        }
      } else {
        SubseqTrans(a, b, c[1..]);
      }
    }
  }

  /** A subsequence contributes no element more often than the whole. */
  lemma {:induction false} SubseqMultiset<T>(a: seq<T>, b: seq<T>)
    requires IsSubseq(a, b)
    ensures multiset(a) <= multiset(b)
    decreases |b|
  {
    if |a| > 0 {
      assert b == [b[0]] + b[1..];
      if a[0] == b[0] && IsSubseq(a[1..], b[1..]) {
        SubseqMultiset(a[1..], b[1..]);
        assert a == [a[0]] + a[1..];
      } else {
        SubseqMultiset(a, b[1..]);
      }
    }
  }

  /** Every prefix is a subsequence. */
  lemma {:induction false} PrefixIsSubseq<T>(s: seq<T>, n: nat)
    requires n <= |s|
    ensures IsSubseq(s[..n], s)
    decreases n
  {
    if n > 0 {
      assert s[..n][1..] == s[1..][..n - 1];
      PrefixIsSubseq(s[1..], n - 1);
    }
  }

  /** `s.slice(0, n)`. */
  function Take<T>(s: seq<T>, n: nat): (r: seq<T>)
    ensures |r| == Min(n, |s|)
    ensures forall i :: 0 <= i < |r| ==> r[i] == s[i]
  {
    s[..Min(n, |s|)]
  }

  lemma TakeIsSubseq<T>(s: seq<T>, n: nat)
    ensures IsSubseq(Take(s, n), s)
    ensures multiset(Take(s, n)) <= multiset(s)
  {
    PrefixIsSubseq(s, Min(n, |s|));
    SubseqMultiset(Take(s, n), s);
  }

  /** `s.filter(p)`: the elements satisfying `p`, in their original order,
      each exactly as often as it occurs in `s`. */
  function Filter<T(!new)>(s: seq<T>, p: T -> bool): (r: seq<T>)
    ensures |r| <= |s|
    ensures forall x :: multiset(r)[x] == if p(x) then multiset(s)[x] else 0
    ensures IsSubseq(r, s)
  {
    if |s| == 0 then []
    else
      var rest := Filter(s[1..], p);
      assert s == [s[0]] + s[1..];
      if p(s[0]) then [s[0]] + rest else rest
  }

  /** Filtering by a predicate every element satisfies is the identity. */
  lemma {:induction false} FilterAll<T(!new)>(s: seq<T>, p: T -> bool)
    requires forall i :: 0 <= i < |s| ==> p(s[i])
    ensures Filter(s, p) == s
  {
    if |s| > 0 {
      FilterAll(s[1..], p);
    }
  }

  /** Filtering distributes over concatenation. */
  lemma {:induction false} FilterAppend<T(!new)>(s: seq<T>, t: seq<T>, p: T -> bool)
    ensures Filter(s + t, p) == Filter(s, p) + Filter(t, p)
  {
    if |s| == 0 {
      assert s + t == t;
    } else {
      assert (s + t)[1..] == s[1..] + t;
      FilterAppend(s[1..], t, p);
    }
  }

  /** Filtering with a weaker predicate keeps more: the result of the
      stronger filter is a subsequence of the weaker one's. */
  lemma {:induction false} FilterMonotone<T(!new)>(s: seq<T>, p: T -> bool, q: T -> bool)
    requires forall i :: 0 <= i < |s| ==> p(s[i]) ==> q(s[i])
    ensures IsSubseq(Filter(s, p), Filter(s, q))
  {
    if |s| == 0 {
    } else {
      FilterMonotone(s[1..], p, q);
      var fp, fq := Filter(s[1..], p), Filter(s[1..], q);
      if p(s[0]) {
        assert Filter(s, p) == [s[0]] + fp && Filter(s, q) == [s[0]] + fq;
      } else if q(s[0]) {
        assert Filter(s, q) == [s[0]] + fq && Filter(s, p) == fp;
        if |fp| > 0 {
          assert (Filter(s, q))[1..] == fq;
        }
      }
    }
  }

  /** A sort key: `Number(x)` for a comparator that never sees NaN. */
  datatype SortKey = NegInf | Fin(r: real) | PosInf

  predicate KeyLe(a: SortKey, b: SortKey)
  {
    match (a, b)
    case (NegInf, _) => true
    case (_, PosInf) => true
    case (Fin(x), Fin(y)) => x <= y
    case (_, _) => false
  }

  /** No later element has a greater key than an earlier one. */
  predicate SortedDesc<T>(s: seq<T>, key: T -> SortKey)
  {
    forall i, j :: 0 <= i < j < |s| ==> KeyLe(key(s[j]), key(s[i]))
  }

  lemma KeyLeTotal(a: SortKey, b: SortKey)
    ensures KeyLe(a, b) || KeyLe(b, a)
  {
  }

  lemma KeyLeTrans(a: SortKey, b: SortKey, c: SortKey)
    requires KeyLe(a, b) && KeyLe(b, c)
    ensures KeyLe(a, c)
  {
  }

  /** Inserts `x` before the first element whose key is not greater, so that
      `x` precedes the elements of equal key that came after it. */
  function InsertDesc<T>(x: T, s: seq<T>, key: T -> SortKey): (r: seq<T>)
    ensures |r| == |s| + 1
    ensures multiset(r) == multiset(s) + multiset{x}
  {
    if |s| == 0 || KeyLe(key(s[0]), key(x)) then [x] + s
    else
      assert s == [s[0]] + s[1..];
      [s[0]] + InsertDesc(x, s[1..], key)
  }

  /** Inserting into a descending sequence keeps it descending. */
  lemma {:induction false} InsertDescSorted<T>(x: T, s: seq<T>, key: T -> SortKey)
    requires SortedDesc(s, key)
    ensures SortedDesc(InsertDesc(x, s, key), key)
  {
    if |s| == 0 {
    } else if KeyLe(key(s[0]), key(x)) {
      var r := [x] + s;
      assert InsertDesc(x, s, key) == r;
      forall i, j | 0 <= i < j < |r| ensures KeyLe(key(r[j]), key(r[i])) {
        if i == 0 && j > 1 {
          KeyLeTrans(key(s[j - 1]), key(s[0]), key(x));
        }
      }
    } else {
      var rest := InsertDesc(x, s[1..], key);
      var r := [s[0]] + rest;
      assert InsertDesc(x, s, key) == r;
      InsertDescSorted(x, s[1..], key);
      KeyLeTotal(key(s[0]), key(x));
      forall k | 0 <= k < |rest| ensures KeyLe(key(rest[k]), key(s[0])) {
        assert rest[k] in multiset(rest);
        if rest[k] != x {
          assert rest[k] in multiset(s[1..]);
          var j :| 0 <= j < |s[1..]| && s[1..][j] == rest[k];
          assert s[j + 1] == rest[k];
        }
      }
      forall i, j | 0 <= i < j < |r| ensures KeyLe(key(r[j]), key(r[i])) {
        if i > 0 {
          assert r[i] == rest[i - 1] && r[j] == rest[j - 1];
        } else {
          assert r[j] == rest[j - 1];
        }
      }
    }
  }

  /** The elements of `s` whose key is `k`, in their order in `s`. */
  function KeyClass<T>(s: seq<T>, key: T -> SortKey, k: SortKey): seq<T>
  {
    if |s| == 0 then [] else (if key(s[0]) == k then [s[0]] else []) + KeyClass(s[1..], key, k)
  }

  /** `KeyClass` distributes over concatenation. */
  lemma {:induction false} KeyClassAppend<T>(s: seq<T>, t: seq<T>, key: T -> SortKey, k: SortKey)
    ensures KeyClass(s + t, key, k) == KeyClass(s, key, k) + KeyClass(t, key, k)
  {
    if |s| == 0 {
      assert s + t == t;
    } else {
      var head: seq<T> := if key(s[0]) == k then [s[0]] else [];
      assert s + t == [s[0]] + (s[1..] + t);
      assert s == [s[0]] + s[1..];
      KeyClassPrepend(s[0], s[1..] + t, key, k);
      KeyClassPrepend(s[0], s[1..], key, k);
      KeyClassAppend(s[1..], t, key, k);
      assert KeyClass(s + t, key, k) == head + (KeyClass(s[1..], key, k) + KeyClass(t, key, k));
    }
  }

  /** For every key, the elements of `r` with that key are the first ones of
      `src` with that key, in the same order: how a stable sort followed by a
      truncation treats ties. */
  ghost predicate KeepsTieOrder<T>(r: seq<T>, src: seq<T>, key: T -> SortKey)
  {
    forall k :: KeyClass(r, key, k) <= KeyClass(src, key, k)
  }

  /** Insertion leaves the elements of every other key as they were. */
  lemma {:induction false} InsertOtherKey<T>(x: T, s: seq<T>, key: T -> SortKey, k: SortKey)
    requires key(x) != k
    ensures KeyClass(InsertDesc(x, s, key), key, k) == KeyClass(s, key, k)
  {
    if |s| == 0 || KeyLe(key(s[0]), key(x)) {
      assert InsertDesc(x, s, key) == [x] + s;
      KeyClassPrepend(x, s, key, k);
    } else {
      var rest := InsertDesc(x, s[1..], key);
      assert InsertDesc(x, s, key) == [s[0]] + rest;
      InsertOtherKey(x, s[1..], key, k);
      KeyClassPrepend(s[0], rest, key, k);
      assert s == [s[0]] + s[1..];
      KeyClassPrepend(s[0], s[1..], key, k);
    }
  }

  /** Insertion puts `x` in front of every element of its own key. */
  lemma {:induction false} InsertOwnKey<T>(x: T, s: seq<T>, key: T -> SortKey)
    ensures KeyClass(InsertDesc(x, s, key), key, key(x)) == [x] + KeyClass(s, key, key(x))
  {
    if |s| == 0 || KeyLe(key(s[0]), key(x)) {
      assert InsertDesc(x, s, key) == [x] + s;
      KeyClassPrepend(x, s, key, key(x));
    } else {
      var rest := InsertDesc(x, s[1..], key);
      assert InsertDesc(x, s, key) == [s[0]] + rest;
      assert key(s[0]) != key(x) by {
        assert KeyLe(key(x), key(x));
      }
      InsertOwnKey(x, s[1..], key);
      KeyClassPrepend(s[0], rest, key, key(x));
      assert KeyClass([s[0]] + rest, key, key(x)) == KeyClass(rest, key, key(x));
      assert s == [s[0]] + s[1..];
      KeyClassPrepend(s[0], s[1..], key, key(x));
      assert KeyClass(s, key, key(x)) == KeyClass(s[1..], key, key(x));
    }
  }

  lemma KeyClassPrepend<T>(a: T, t: seq<T>, key: T -> SortKey, k: SortKey)
    ensures KeyClass([a] + t, key, k) == (if key(a) == k then [a] else []) + KeyClass(t, key, k)
  {
    assert ([a] + t)[1..] == t;
  }

  /** `s.sort((a, b) => key(b) - key(a))`: a stable sort, greatest key first.
      Elements of equal key keep their relative order. */
  function SortDesc<T(!new)>(s: seq<T>, key: T -> SortKey): (r: seq<T>)
    ensures SortedDesc(r, key)
    ensures multiset(r) == multiset(s)
    ensures |r| == |s|
    ensures forall k :: KeyClass(r, key, k) == KeyClass(s, key, k)
  {
    if |s| == 0 then []
    else
      var rest := SortDesc(s[1..], key);
      assert s == [s[0]] + s[1..];
      InsertDescSorted(s[0], rest, key);
      assert forall k :: KeyClass(InsertDesc(s[0], rest, key), key, k) == KeyClass(s, key, k) by {
        forall k ensures KeyClass(InsertDesc(s[0], rest, key), key, k) == KeyClass(s, key, k) {
          if key(s[0]) == k {
            InsertOwnKey(s[0], rest, key);
          } else {
            InsertOtherKey(s[0], rest, key, k);
          }
          KeyClassPrepend(s[0], s[1..], key, k);
        }
      }
      InsertDesc(s[0], rest, key)
  }

  /** Truncating keeps the tie order of a sequence: each key class of the
      prefix is a prefix of the key class of the whole. */
  lemma TakeKeepsTieOrder<T>(s: seq<T>, key: T -> SortKey, n: nat)
    ensures KeepsTieOrder(Take(s, n), s, key)
  {
    var m := Min(n, |s|);
    assert s == Take(s, n) + s[m..];
    forall k ensures KeyClass(Take(s, n), key, k) <= KeyClass(s, key, k) {
      KeyClassAppend(Take(s, n), s[m..], key, k);
    }
  }

  /** Taking a prefix of a descending sequence keeps the greatest elements:
      nothing left out has a greater key than anything kept, and the prefix
      is still descending. */
  lemma TakeOfSortedIsTop<T>(s: seq<T>, key: T -> SortKey, n: nat)
    requires SortedDesc(s, key)
    ensures SortedDesc(Take(s, n), key)
    ensures forall x, y :: x in multiset(s) - multiset(Take(s, n)) && y in Take(s, n) ==> KeyLe(key(x), key(y))
  {
    var k := Min(n, |s|);
    assert Take(s, n) == s[..k];
    assert multiset(s) - multiset(s[..k]) == multiset(s[k..]) by {
      assert s == s[..k] + s[k..];
      assert multiset(s) == multiset(s[..k]) + multiset(s[k..]);
    }
    SortedPrefix(s, key, k);
    PrefixDominates(s, key, k);
  }

  lemma SortedPrefix<T>(s: seq<T>, key: T -> SortKey, k: nat)
    requires SortedDesc(s, key) && k <= |s|
    ensures SortedDesc(s[..k], key)
  {
    assert forall i :: 0 <= i < k ==> s[..k][i] == s[i];
  }

  /** In a descending sequence every element of the prefix of length `k`
      has a key at least that of every element after it. */
  lemma PrefixDominates<T>(s: seq<T>, key: T -> SortKey, k: nat)
    requires SortedDesc(s, key) && k <= |s|
    ensures forall x, y :: x in multiset(s[k..]) && y in s[..k] ==> KeyLe(key(x), key(y))
  {
    var pre, post := s[..k], s[k..];
    forall x, y | x in multiset(post) && y in pre
      ensures KeyLe(key(x), key(y))
    {
      assert x in post;
      var j :| 0 <= j < |post| && post[j] == x;
      var i :| 0 <= i < |pre| && pre[i] == y;
      assert s[i] == y && s[k + j] == x;
    }
  }


}

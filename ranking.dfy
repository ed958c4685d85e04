/**
 * The order in which the search engine returns hits: by descending score, documents with equal
 * scores in index order.
 */
module Ranking {
  import opened Wrappers
  import opened Collections

  predicate SortedDesc<T>(s: seq<T>, key: T -> int) {
    forall i, j :: 0 <= i < j < |s| ==> key(s[i]) >= key(s[j])
  }

  /** `x` placed in front of the first element of `s` whose key is not larger than its own. */
  function Insert<T>(x: T, s: seq<T>, key: T -> int): seq<T> {
    if s == [] || key(x) >= key(s[0]) then [x] + s
    else [s[0]] + Insert(x, s[1..], key)
  }

  /** The step of `Insert` where `x` goes past the head of `s`. */
  lemma InsertPast<T>(x: T, s: seq<T>, key: T -> int)
    requires s != [] && key(x) < key(s[0])
    ensures Insert(x, s, key) == [s[0]] + Insert(x, s[1..], key)
  {
  }

  /** Inserting adds `x` and nothing else. */
  lemma {:induction false} InsertPerm<T>(x: T, s: seq<T>, key: T -> int)
    ensures multiset(Insert(x, s, key)) == multiset(s) + multiset{x}
  {
    if s != [] && key(x) >= key(s[0]) {
      assert multiset([x] + s) == multiset{x} + multiset(s);
    } else if s != [] {
      InsertPerm(x, s[1..], key);
      InsertPast(x, s, key);
      assert s == [s[0]] + s[1..];
      assert multiset(s) == multiset{s[0]} + multiset(s[1..]);
    }
  }

  /** Inserting into a sorted sequence keeps it sorted. */
  lemma {:induction false} InsertSorted<T>(x: T, s: seq<T>, key: T -> int)
    requires SortedDesc(s, key)
    ensures SortedDesc(Insert(x, s, key), key)
  {
    if s != [] && key(x) < key(s[0]) {
      var t := Insert(x, s[1..], key);
      InsertSorted(x, s[1..], key);
      InsertPerm(x, s[1..], key);
      InsertBelow(x, s, t, key);
      InsertPast(x, s, key);
    }
  }

  lemma InsertBelow<T>(x: T, s: seq<T>, t: seq<T>, key: T -> int)
    requires s != [] && key(x) < key(s[0]) && SortedDesc(s, key)
    requires multiset(t) == multiset(s[1..]) + multiset{x}
    ensures forall j :: 0 <= j < |t| ==> key(s[0]) >= key(t[j])
  {
    forall j | 0 <= j < |t| ensures key(s[0]) >= key(t[j]) {
      assert t[j] in multiset(t);
      if t[j] != x {
        assert t[j] in multiset(s[1..]);
        var i :| 0 <= i < |s[1..]| && s[1..][i] == t[j];
        assert s[i + 1] == t[j];
      }
    }
  }

  /** The documents of `s` by descending key, ties in their order in `s`. */
  function Rank<T>(s: seq<T>, key: T -> int): seq<T> {
    if s == [] then [] else Insert(s[0], Rank(s[1..], key), key)
  }

  /** The ranking is a permutation of `s`, sorted by descending key. */
  lemma {:induction false} RankSorted<T>(s: seq<T>, key: T -> int)
    ensures multiset(Rank(s, key)) == multiset(s)
    ensures SortedDesc(Rank(s, key), key)
  {
    if s != [] {
      var t := Rank(s[1..], key);
      RankSorted(s[1..], key);
      InsertPerm(s[0], t, key);
      InsertSorted(s[0], t, key);
      assert s == [s[0]] + s[1..];
      assert multiset(s) == multiset{s[0]} + multiset(s[1..]);
    }
  }

  /** Every element of the ranking comes from `s`. */
  lemma RankFrom<T>(s: seq<T>, key: T -> int, k: nat)
    requires k < |Rank(s, key)|
    ensures Rank(s, key)[k] in s
  {
    RankSorted(s, key);
    assert Rank(s, key)[k] in multiset(Rank(s, key));
  }

  /** The elements of `s` whose key is `v`, in order. */
  function KeyIs<T>(key: T -> int, v: int): T -> Option<T> {
    x => if key(x) == v then Some(x) else None
  }

  lemma FilterMapCons<A, B>(x: A, s: seq<A>, f: A -> Option<B>)
    ensures FilterMap([x] + s, f) == (if f(x).Some? then [f(x).value] else []) + FilterMap(s, f)
  {
    FilterMapConcat([x], s, f);
    FilterMapSnoc([], x, f);
    assert [] + [x] == [x];
  }

  /** The elements with key `v` in `[x] + s`. */
  lemma TiesCons<T>(x: T, s: seq<T>, key: T -> int, v: int)
    ensures FilterMap([x] + s, KeyIs(key, v)) == (if key(x) == v then [x] else []) + FilterMap(s, KeyIs(key, v))
  {
    assert KeyIs(key, v)(x) == if key(x) == v then Some(x) else None;
    FilterMapCons(x, s, KeyIs(key, v));
  }

  lemma {:induction false} InsertTies<T>(x: T, s: seq<T>, key: T -> int, v: int)
    ensures FilterMap(Insert(x, s, key), KeyIs(key, v))
         == (if key(x) == v then [x] else []) + FilterMap(s, KeyIs(key, v))
  {
    if s == [] || key(x) >= key(s[0]) {
      TiesCons(x, s, key, v);
    } else {
      InsertTies(x, s[1..], key, v);
      InsertTiesBelow(x, s, key, v);
    }
  }

  /** The step of `InsertTies` where `x` goes past the head of `s`. */
  lemma InsertTiesBelow<T>(x: T, s: seq<T>, key: T -> int, v: int)
    requires s != [] && key(x) < key(s[0])
    requires FilterMap(Insert(x, s[1..], key), KeyIs(key, v))
          == (if key(x) == v then [x] else []) + FilterMap(s[1..], KeyIs(key, v))
    ensures FilterMap(Insert(x, s, key), KeyIs(key, v))
         == (if key(x) == v then [x] else []) + FilterMap(s, KeyIs(key, v))
  {
    InsertPast(x, s, key);
    assert s == [s[0]] + s[1..];
    TiesShift(s[0], Insert(x, s[1..], key), s[1..], if key(x) == v then [x] else [], key, v);
  }

  /** One more element in front of two sequences whose ties differ by a prefix `p` that it cannot join. */
  lemma TiesShift<T>(h: T, rest: seq<T>, tail: seq<T>, p: seq<T>, key: T -> int, v: int)
    requires FilterMap(rest, KeyIs(key, v)) == p + FilterMap(tail, KeyIs(key, v))
    requires key(h) == v ==> p == []
    ensures FilterMap([h] + rest, KeyIs(key, v)) == p + FilterMap([h] + tail, KeyIs(key, v))
  {
    TiesCons(h, rest, key, v);
    TiesCons(h, tail, key, v);
    SwapEmpty(if key(h) == v then [h] else [], p, FilterMap(tail, KeyIs(key, v)));
  }

  lemma SwapEmpty<T>(a: seq<T>, b: seq<T>, c: seq<T>)
    requires a == [] || b == []
    ensures a + (b + c) == b + (a + c)
  {
    if a == [] {
      assert a + (b + c) == b + c;
    } else {
      assert b + (a + c) == a + c;
    }
  }

  /** Ranking is stable: among documents with the same key, it keeps their order. */
  lemma {:induction false} RankStable<T>(s: seq<T>, key: T -> int, v: int)
    ensures FilterMap(Rank(s, key), KeyIs(key, v)) == FilterMap(s, KeyIs(key, v))
  {
    if s != [] {
      InsertTies(s[0], Rank(s[1..], key), key, v);
      RankStable(s[1..], key, v);
      TiesCons(s[0], s[1..], key, v);
      assert [s[0]] + s[1..] == s;
    }
  }

  /** When every key is the same, ranking keeps the order it is given. */
  lemma {:induction false} RankConstant<T>(s: seq<T>, key: T -> int, c: int)
    requires forall i :: 0 <= i < |s| ==> key(s[i]) == c
    ensures Rank(s, key) == s
  {
    if s != [] {
      RankConstant(s[1..], key, c);
    }
  }
}

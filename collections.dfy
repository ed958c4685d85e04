/** Order-preserving filtering of sequences, shared by the walk over result items and over author anchors. */
module Collections {
  import opened Wrappers

  /** The values `f` gives for the elements of `s`, in order, skipping the elements it gives `None` for. */
  function FilterMap<A, B>(s: seq<A>, f: A -> Option<B>): (r: seq<B>)
    ensures |r| <= |s|
  {
    if s == [] then []
    else
      var last := s[|s| - 1];
      FilterMap(s[..|s| - 1], f) + (if f(last).Some? then [f(last).value] else [])
  }

  lemma FilterMapSnoc<A, B>(s: seq<A>, x: A, f: A -> Option<B>)
    ensures FilterMap(s + [x], f) == FilterMap(s, f) + (if f(x).Some? then [f(x).value] else [])
  {
    var t := s + [x];
    assert t[..|t| - 1] == s;
  }

  /** Filtering a concatenation is concatenating the filtered parts. */
  lemma {:induction false} FilterMapConcat<A, B>(a: seq<A>, b: seq<A>, f: A -> Option<B>)
    ensures FilterMap(a + b, f) == FilterMap(a, f) + FilterMap(b, f)
  {
    if b == [] {
      assert a + b == a;
    } else {
      var front, x := b[..|b| - 1], b[|b| - 1];
      assert b == front + [x];
      assert a + b == (a + front) + [x];
      FilterMapSnoc(a + front, x, f);
      FilterMapSnoc(front, x, f);
      FilterMapConcat(a, front, f);
    }
  }

  /** Every element of the result is the value `f` gives for some element of `s`. */
  lemma {:induction false} FilterMapFrom<A, B>(s: seq<A>, f: A -> Option<B>, k: nat)
    requires k < |FilterMap(s, f)|
    ensures exists i :: 0 <= i < |s| && f(s[i]) == Some(FilterMap(s, f)[k])
  {
    var m := |s| - 1;
    if k < |FilterMap(s[..m], f)| {
      FilterMapFrom(s[..m], f, k);
      var i :| 0 <= i < m && f(s[..m][i]) == Some(FilterMap(s[..m], f)[k]);
      assert s[..m][i] == s[i];
    } else {
      assert f(s[m]) == Some(FilterMap(s, f)[k]);
    }
  }

  /** An element that `f` keeps contributes its value to the result. */
  lemma {:induction false} FilterMapHas<A, B>(s: seq<A>, f: A -> Option<B>, i: nat)
    requires i < |s| && f(s[i]).Some?
    ensures f(s[i]).value in FilterMap(s, f)
  {
    var m := |s| - 1;
    if i < m {
      assert s[..m][i] == s[i];
      FilterMapHas(s[..m], f, i);
    }
  }

  /** A filter that keeps every element keeps the sequence as it is. */
  lemma {:induction false} FilterMapKeepsAll<A>(s: seq<A>, f: A -> Option<A>)
    requires forall i :: 0 <= i < |s| ==> f(s[i]) == Some(s[i])
    ensures FilterMap(s, f) == s
  {
    if s != [] {
      var m := |s| - 1;
      var t := s[..m];
      KeepsPrefix(s, f, m);
      FilterMapKeepsAll(t, f);
      KeepsLast(t, s[m], f);
      assert t + [s[m]] == s;
    }
  }

  lemma KeepsPrefix<A>(s: seq<A>, f: A -> Option<A>, m: nat)
    requires m <= |s|
    requires forall i :: 0 <= i < |s| ==> f(s[i]) == Some(s[i])
    ensures forall i :: 0 <= i < m ==> f(s[..m][i]) == Some(s[..m][i])
  {
  }

  lemma KeepsLast<A>(t: seq<A>, x: A, f: A -> Option<A>)
    requires FilterMap(t, f) == t && f(x) == Some(x)
    ensures FilterMap(t + [x], f) == t + [x]
  {
    FilterMapSnoc(t, x, f);
  }

  function OptionToSeq<T>(o: Option<T>): seq<T> {
    match o
    case None => []
    case Some(x) => [x]
  }

  /**
   * `rec` applied to the items in order, collecting the values it produces and stopping at the first
   * failure, which becomes the result.
   */
  function Walk<A, B, E>(items: seq<A>, rec: A -> Result<Option<B>, E>): Result<seq<B>, E> {
    if items == [] then Success([])
    else
      match Walk(items[..|items| - 1], rec)
      case Failure(e) => Failure(e)
      case Success(acc) =>
        match rec(items[|items| - 1])
        case Failure(e) => Failure(e)
        case Success(o) => Success(acc + OptionToSeq(o))
  }

  /** One step of the walk over the item at index `i`. */
  lemma WalkStep<A, B, E>(items: seq<A>, rec: A -> Result<Option<B>, E>, i: nat, acc: seq<B>)
    requires i < |items| && Walk(items[..i], rec) == Success(acc)
    ensures Walk(items[..i + 1], rec) ==
      match rec(items[i])
      case Failure(e) => Failure(e)
      case Success(o) => Success(acc + OptionToSeq(o))
  {
    var done := items[..i + 1];
    assert done[..|done| - 1] == items[..i] && done[|done| - 1] == items[i];
  }

  /** Once the walk has failed on a prefix, it fails with the same error on the whole sequence. */
  lemma {:induction false} WalkFailurePersists<A, B, E>(items: seq<A>, rec: A -> Result<Option<B>, E>, n: nat)
    requires n <= |items| && Walk(items[..n], rec).Failure?
    ensures Walk(items, rec) == Walk(items[..n], rec)
  {
    if n < |items| {
      var m := |items| - 1;
      assert items[..m][..n] == items[..n];
      WalkFailurePersists(items[..m], rec, n);
    } else {
      assert items[..n] == items;
    }
  }

  /** The walk succeeds exactly when every item succeeds; a failure is always the one error `e` items fail with. */
  lemma {:induction false} WalkSucceeds<A, B, E>(items: seq<A>, rec: A -> Result<Option<B>, E>, e: E)
    requires forall x :: rec(x).Failure? ==> rec(x).error == e
    ensures Walk(items, rec).Success? <==> forall i :: 0 <= i < |items| ==> rec(items[i]).Success?
    ensures Walk(items, rec).Failure? ==> Walk(items, rec).error == e
  {
    if items != [] {
      var m := |items| - 1;
      var prefix := items[..m];
      WalkSucceeds(prefix, rec, e);
      assert forall i :: 0 <= i < m ==> prefix[i] == items[i];
    }
  }

  /**
   * A successful walk produces one value per item that `keep` keeps, in order, each the value that
   * item produces; `keep` keeps exactly the items that produce a value.
   */
  lemma {:induction false} WalkRecords<A, B, E>(items: seq<A>, rec: A -> Result<Option<B>, E>, keep: A -> Option<A>)
    requires Walk(items, rec).Success?
    requires forall x :: rec(x).Success? ==> keep(x) == if rec(x).value.Some? then Some(x) else None
    ensures Produced(items, rec, keep)
  {
    if items != [] {
      var m := |items| - 1;
      assert items == items[..m] + [items[m]];
      WalkSnoc(items[..m], items[m], rec);
      WalkRecords(items[..m], rec, keep);
      WalkRecordsStep(items[..m], items[m], rec, keep);
    }
  }

  /** The values of the walk are, one by one, the values the kept items produce. */
  ghost predicate Produced<A, B, E>(items: seq<A>, rec: A -> Result<Option<B>, E>, keep: A -> Option<A>)
    requires Walk(items, rec).Success?
  {
    Yielded(FilterMap(items, keep), Walk(items, rec).value, rec)
  }

  /** Each of `xs` produces the value of `ys` at the same position. */
  ghost predicate Yielded<A, B, E>(xs: seq<A>, ys: seq<B>, rec: A -> Result<Option<B>, E>) {
    |xs| == |ys| && forall k :: 0 <= k < |xs| ==> rec(xs[k]) == Success(Some(ys[k]))
  }

  lemma YieldedSnoc<A, B, E>(xs: seq<A>, ys: seq<B>, x: A, y: B, rec: A -> Result<Option<B>, E>)
    requires Yielded(xs, ys, rec) && rec(x) == Success(Some(y))
    ensures Yielded(xs + [x], ys + [y], rec)
  {
    forall k | 0 <= k < |xs| + 1 ensures rec((xs + [x])[k]) == Success(Some((ys + [y])[k])) {
      if k < |xs| {
        assert (xs + [x])[k] == xs[k] && (ys + [y])[k] == ys[k];
      }
    }
  }

  lemma WalkRecordsStep<A, B, E>(init: seq<A>, last: A, rec: A -> Result<Option<B>, E>, keep: A -> Option<A>)
    requires Walk(init + [last], rec).Success?
    requires forall x :: rec(x).Success? ==> keep(x) == if rec(x).value.Some? then Some(x) else None
    requires Walk(init, rec).Success? && Produced(init, rec, keep)
    ensures Produced(init + [last], rec, keep)
  {
    var before := Walk(init, rec).value;
    WalkSnoc(init, last, rec);
    FilterMapSnoc(init, last, keep);
    var kept := FilterMap(init, keep);
    if rec(last).value.Some? {
      var y := rec(last).value.value;
      assert FilterMap(init + [last], keep) == kept + [last];
      assert Walk(init + [last], rec).value == before + [y];
      YieldedSnoc(kept, before, last, y, rec);
    } else {
      assert FilterMap(init + [last], keep) == kept + [] == kept;
      assert Walk(init + [last], rec).value == before + [] == before;
    }
  }

  lemma WalkSnoc<A, B, E>(init: seq<A>, last: A, rec: A -> Result<Option<B>, E>)
    requires Walk(init + [last], rec).Success?
    ensures Walk(init, rec).Success? && rec(last).Success?
    ensures Walk(init + [last], rec).value == Walk(init, rec).value + OptionToSeq(rec(last).value)
  {
    var t := init + [last];
    assert t[..|t| - 1] == init && t[|t| - 1] == last;
  }

  /** Every value of a successful walk satisfies `P` when every value an item produces does. */
  lemma {:induction false} WalkAll<A, B, E>(items: seq<A>, rec: A -> Result<Option<B>, E>, P: B -> bool)
    requires Walk(items, rec).Success?
    requires forall x :: rec(x).Success? && rec(x).value.Some? ==> P(rec(x).value.value)
    ensures forall y :: y in Walk(items, rec).value ==> P(y)
  {
    if items != [] {
      WalkAll(items[..|items| - 1], rec, P);
    }
  }
}

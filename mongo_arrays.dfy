/** The array update operators MongoDB applies to list-valued fields, and the
    JavaScript idiom `[...new Set(list)]`, as functions on lists of identities. */
module MongoArrays {
  import opened Common

  /** No value occurs twice. */
  predicate Distinct(s: seq<Id>)
  {
    forall i, j :: 0 <= i < j < |s| ==> s[i] != s[j]
  }

  /** `$addToSet: { field: x }`: append `x` unless it is already present. */
  function AddToSet(xs: seq<Id>, x: Id): (r: seq<Id>)
    ensures x in r
    ensures forall y :: y in r <==> y in xs || y == x
    ensures |xs| <= |r| <= |xs| + 1 && r[..|xs|] == xs
    ensures Distinct(xs) ==> Distinct(r)
  {
    if x in xs then xs else xs + [x]
  }

  /** `$addToSet: { field: { $each: ys } }`: add the values of `ys` one after
      another, each only if it is not present yet. */
  function AddEachToSet(xs: seq<Id>, ys: seq<Id>): (r: seq<Id>)
    ensures forall y :: y in r <==> y in xs || y in ys
    ensures |xs| <= |r| && r[..|xs|] == xs
    ensures forall k :: |xs| <= k < |r| ==> r[k] in ys
    ensures Distinct(xs) ==> Distinct(r)
  {
    if ys == [] then xs
    else
      var r := AddToSet(AddEachToSet(xs, ys[..|ys| - 1]), ys[|ys| - 1]);
      assert forall y :: y in ys <==> y in ys[..|ys| - 1] || y == ys[|ys| - 1] by {
        assert ys == ys[..|ys| - 1] + [ys[|ys| - 1]];
      }
      r
  }

  /** `$pull: { field: x }`: remove every occurrence of `x`, keeping the other
      entries in their order. */
  function Pull(xs: seq<Id>, x: Id): (r: seq<Id>)
    ensures x !in r
    ensures forall y :: y != x ==> (y in r <==> y in xs)
    ensures |r| <= |xs|
    ensures Distinct(xs) ==> Distinct(r)
  {
    if xs == [] then []
    else
      var rest := Pull(xs[1..], x);
      assert Distinct(xs) ==> xs[0] !in xs[1..];
      (if xs[0] == x then [] else [xs[0]]) + rest
  }

  /** `$pull: { field: { $in: ys } }` and `list.filter(id => !ys.includes(id))`:
      remove every entry that occurs in `ys`, keeping the others in their order. */
  function PullAll(xs: seq<Id>, ys: seq<Id>): (r: seq<Id>)
    ensures forall y :: y in r <==> y in xs && y !in ys
    ensures |r| <= |xs|
    ensures Distinct(xs) ==> Distinct(r)
  {
    if xs == [] then []
    else (if xs[0] in ys then [] else [xs[0]]) + PullAll(xs[1..], ys)
  }

  /** `[...new Set(s)]`: the first occurrence of every value of `s`, in order. */
  function Dedup(s: seq<Id>): (r: seq<Id>)
    ensures Distinct(r)
    ensures forall y :: y in r <==> y in s
  {
    if s == [] then []
    else
      var r := AddToSet(Dedup(s[..|s| - 1]), s[|s| - 1]);
      assert forall y :: y in s <==> y in s[..|s| - 1] || y == s[|s| - 1] by {
        assert s == s[..|s| - 1] + [s[|s| - 1]];
      }
      r
  }

  /** A list without duplicates is its own de-duplication. */
  lemma {:induction false} DedupOfDistinct(s: seq<Id>)
    requires Distinct(s)
    ensures Dedup(s) == s
  {
    if s != [] {
      var init, last := s[..|s| - 1], s[|s| - 1];
      DistinctSplit(s);
      DedupOfDistinct(init);
      assert init + [last] == s;
    }
  }

  lemma DistinctSplit(s: seq<Id>)
    requires Distinct(s) && s != []
    ensures Distinct(s[..|s| - 1]) && s[|s| - 1] !in s[..|s| - 1]
  {
    var init := s[..|s| - 1];
    forall i, j | 0 <= i < j < |init| ensures init[i] != init[j] {
      assert init[i] == s[i] && init[j] == s[j];
    }
  }

  /** De-duplicating a concatenation is de-duplicating its first part and then
      adding the second part to that set value by value. */
  lemma {:induction false} DedupConcat(xs: seq<Id>, ys: seq<Id>)
    ensures Dedup(xs + ys) == AddEachToSet(Dedup(xs), ys)
  {
    if ys != [] {
      var init := ys[..|ys| - 1];
      DedupConcat(xs, init);
      assert (xs + ys)[..|xs + ys| - 1] == xs + init;
    } else {
      assert xs + ys == xs;
    }
  }

  /** `[...new Set([...xs, ...ys])]` on a list `xs` without duplicates keeps `xs`
      as it is and appends the new values of `ys`, as `$addToSet` with `$each` does. */
  lemma AppendDedupIsAddEach(xs: seq<Id>, ys: seq<Id>)
    requires Distinct(xs)
    ensures Dedup(xs + ys) == AddEachToSet(xs, ys)
  {
    DedupConcat(xs, ys);
    DedupOfDistinct(xs);
  }

  /** Removing all occurrences distributes over concatenation, so `Pull` keeps the
      relative order of what it does not remove. */
  lemma {:induction false} PullConcat(a: seq<Id>, b: seq<Id>, x: Id)
    ensures Pull(a + b, x) == Pull(a, x) + Pull(b, x)
  {
    if a == [] {
      assert a + b == b;
    } else {
      assert (a + b)[0] == a[0];
      assert (a + b)[1..] == a[1..] + b;
      PullConcat(a[1..], b, x);
    }
  }

  /** Pulling a value that is absent changes nothing. */
  lemma {:induction false} PullAbsent(xs: seq<Id>, x: Id)
    requires x !in xs
    ensures Pull(xs, x) == xs
  {
    if xs != [] {
      PullAbsent(xs[1..], x);
    }
  }

  /** Adding a value that is absent and pulling it again restores the list. */
  lemma PullUndoesAddToSet(xs: seq<Id>, x: Id)
    requires x !in xs
    ensures Pull(AddToSet(xs, x), x) == xs
  {
    PullConcat(xs, [x], x);
    PullAbsent(xs, x);
    assert Pull([x], x) == [];
  }

  /** Pulling one value is pulling the list of that one value. */
  lemma {:induction false} PullIsPullAllOfOne(xs: seq<Id>, x: Id)
    ensures Pull(xs, x) == PullAll(xs, [x])
  {
    if xs != [] {
      PullIsPullAllOfOne(xs[1..], x);
    }
  }

  /** Removing a list of values distributes over concatenation. */
  lemma {:induction false} PullAllConcat(a: seq<Id>, b: seq<Id>, ys: seq<Id>)
    ensures PullAll(a + b, ys) == PullAll(a, ys) + PullAll(b, ys)
  {
    if a == [] {
      assert a + b == b;
    } else {
      assert (a + b)[1..] == a[1..] + b;
      PullAllConcat(a[1..], b, ys);
    }
  }

  /** Removing values none of which occur changes nothing. */
  lemma {:induction false} PullAllDisjoint(xs: seq<Id>, ys: seq<Id>)
    requires forall y :: y in ys ==> y !in xs
    ensures PullAll(xs, ys) == xs
  {
    if xs != [] {
      PullAllDisjoint(xs[1..], ys);
    }
  }

  /** Removing values that cover the whole list leaves nothing. */
  lemma {:induction false} PullAllCovered(xs: seq<Id>, ys: seq<Id>)
    requires forall k :: 0 <= k < |xs| ==> xs[k] in ys
    ensures PullAll(xs, ys) == []
  {
    if xs != [] {
      PullAllCovered(xs[1..], ys);
    }
  }

  /** `$addToSet` with `$each` of values none of which occur, followed by
      `$pull` with `$in` of the same values, restores the list. */
  lemma PullAllUndoesAddEach(xs: seq<Id>, ys: seq<Id>)
    requires forall y :: y in ys ==> y !in xs
    ensures PullAll(AddEachToSet(xs, ys), ys) == xs
  {
    var r := AddEachToSet(xs, ys);
    var tail := r[|xs|..];
    assert r == xs + tail;
    PullAllConcat(xs, tail, ys);
    PullAllDisjoint(xs, ys);
    assert forall k :: 0 <= k < |tail| ==> tail[k] == r[|xs| + k];
    PullAllCovered(tail, ys);
  }
}

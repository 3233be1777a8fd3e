/** Keep-first filtering: the pattern behind every `seen` set and every
    `drop_duplicates(keep="first")` of the pipeline. Items come with a parallel
    sequence of keys; an item is kept when its key is neither in the initial
    `seen` set nor the key of an earlier item. */
module Dedup {

  function Elems<K>(ks: seq<K>): set<K>
  {
    set k | k in ks
  }

  /** Item `i` is the first one with its key, and that key was not seen before. */
  predicate IsFirst<K>(keys: seq<K>, seen: set<K>, i: int)
    requires 0 <= i < |keys|
  {
    keys[i] !in seen && keys[i] !in keys[..i]
  }

  /** The items kept, in input order. */
  function KeepFirst<T, K>(xs: seq<T>, keys: seq<K>, seen: set<K>): (r: seq<T>)
    requires |keys| == |xs|
    ensures |r| <= |xs|
    decreases |xs|
  {
    if xs == [] then []
    else
      var n := |xs| - 1;
      KeepFirst(xs[..n], keys[..n], seen) + (if IsFirst(keys, seen, n) then [xs[n]] else [])
  }

  /** The positions of the items kept, in input order. */
  function KeptIndices<K>(keys: seq<K>, seen: set<K>): (idx: seq<nat>)
    ensures forall j :: 0 <= j < |idx| ==> idx[j] < |keys|
    decreases |keys|
  {
    if keys == [] then []
    else
      var n := |keys| - 1;
      KeptIndices(keys[..n], seen) + (if IsFirst(keys, seen, n) then [n] else [])
  }

  lemma IsFirstPrefix<K>(keys: seq<K>, seen: set<K>, n: nat, i: nat)
    requires i < n <= |keys|
    ensures IsFirst(keys[..n], seen, i) == IsFirst(keys, seen, i)
  {
    assert keys[..n][..i] == keys[..i];
  }

  /** The kept positions increase strictly and are exactly the positions where a
      key occurs for the first time. */
  lemma {:induction false} KeptIndicesSpec<K>(keys: seq<K>, seen: set<K>)
    ensures var idx := KeptIndices(keys, seen);
      && (forall j1, j2 :: 0 <= j1 < j2 < |idx| ==> idx[j1] < idx[j2])
      && (forall i :: 0 <= i < |keys| ==> (i in idx <==> IsFirst(keys, seen, i)))
    decreases |keys|
  {
    if keys != [] {
      var n := |keys| - 1;
      KeptIndicesSpec(keys[..n], seen);
      forall i | 0 <= i < n {
        IsFirstPrefix(keys, seen, n, i);
      }
    }
  }

  /** The kept positions increase strictly. */
  lemma {:induction false} KeptIndicesIncrease<K>(keys: seq<K>, seen: set<K>)
    ensures forall j1, j2 :: 0 <= j1 < j2 < |KeptIndices(keys, seen)| ==> KeptIndices(keys, seen)[j1] < KeptIndices(keys, seen)[j2]
    decreases |keys|
  {
    if keys != [] {
      var n := |keys| - 1;
      KeptIndicesIncrease(keys[..n], seen);
      var idx0 := KeptIndices(keys[..n], seen);
      assert KeptIndices(keys, seen) == idx0 + (if IsFirst(keys, seen, n) then [n] else []);
      assert forall j :: 0 <= j < |idx0| ==> idx0[j] < n;
    }
  }

  /** The kept items are the items at the kept positions. */
  lemma {:induction false} KeepFirstSelects<T, K>(xs: seq<T>, keys: seq<K>, seen: set<K>)
    requires |keys| == |xs|
    ensures var idx := KeptIndices(keys, seen);
      && |KeepFirst(xs, keys, seen)| == |idx|
      && (forall j :: 0 <= j < |idx| ==> KeepFirst(xs, keys, seen)[j] == xs[idx[j]])
    decreases |xs|
  {
    if xs != [] {
      var n := |xs| - 1;
      KeepFirstSelects(xs[..n], keys[..n], seen);
      var prev, idx0 := KeepFirst(xs[..n], keys[..n], seen), KeptIndices(keys[..n], seen);
      var kept, idx := KeepFirst(xs, keys, seen), KeptIndices(keys, seen);
      var first := IsFirst(keys, seen, n);
      assert kept == prev + (if first then [xs[n]] else []);
      assert idx == idx0 + (if first then [n] else []);
      forall j | 0 <= j < |idx|
        ensures kept[j] == xs[idx[j]]
      {
        if j < |idx0| {
          assert kept[j] == prev[j] && idx[j] == idx0[j];
          assert xs[..n][idx0[j]] == xs[idx0[j]];
        }
      }
    }
  }

  /** The result is a subsequence of the input: the items at the kept positions,
      which increase strictly and are exactly the first occurrences of their keys. */
  lemma KeepFirstSpec<T, K>(xs: seq<T>, keys: seq<K>, seen: set<K>)
    requires |keys| == |xs|
    ensures var idx := KeptIndices(keys, seen);
      && |KeepFirst(xs, keys, seen)| == |idx|
      && (forall j :: 0 <= j < |idx| ==> KeepFirst(xs, keys, seen)[j] == xs[idx[j]])
      && (forall j1, j2 :: 0 <= j1 < j2 < |idx| ==> idx[j1] < idx[j2])
      && (forall i :: 0 <= i < |keys| ==> (i in idx <==> IsFirst(keys, seen, i)))
  {
    KeptIndicesSpec(keys, seen);
    KeepFirstSelects(xs, keys, seen);
  }

  /** The keys of kept items are pairwise distinct and were not seen before. */
  lemma KeptKeysUnique<K>(keys: seq<K>, seen: set<K>)
    ensures var idx := KeptIndices(keys, seen);
      && (forall j :: 0 <= j < |idx| ==> keys[idx[j]] !in seen)
      && (forall j1, j2 :: 0 <= j1 < j2 < |idx| ==> keys[idx[j1]] != keys[idx[j2]])
  {
    var idx := KeptIndices(keys, seen);
    KeepFirstSpec(keys, keys, seen);
    forall j1, j2 | 0 <= j1 < j2 < |idx|
      ensures keys[idx[j1]] != keys[idx[j2]]
    {
      assert IsFirst(keys, seen, idx[j2]);
      assert keys[..idx[j2]][idx[j1]] == keys[idx[j1]];
    }
  }

  /** The first position holding a given key. */
  lemma {:induction false} FirstOccurrence<K>(keys: seq<K>, seen: set<K>, i: nat) returns (i0: nat)
    requires i < |keys| && keys[i] !in seen
    ensures i0 <= i && keys[i0] == keys[i] && IsFirst(keys, seen, i0)
    decreases i
  {
    if keys[i] in keys[..i] {
      var p :| 0 <= p < i && keys[..i][p] == keys[i];
      i0 := FirstOccurrence(keys, seen, p);
    } else {
      i0 := i;
    }
  }

  /** No key is lost: every key of the input that was not seen before is the key
      of some kept item. */
  lemma KeptKeysCover<K>(keys: seq<K>, seen: set<K>, i: nat)
    requires i < |keys| && keys[i] !in seen
    ensures exists j :: 0 <= j < |KeptIndices(keys, seen)| && keys[KeptIndices(keys, seen)[j]] == keys[i]
  {
    var i0 := FirstOccurrence(keys, seen, i);
    KeepFirstSpec(keys, keys, seen);
    var idx := KeptIndices(keys, seen);
    assert i0 in idx;
    var j :| 0 <= j < |idx| && idx[j] == i0;
  }

  /** One step of a keep-first loop: the next item is kept iff its key is not yet seen. */
  lemma KeepFirstSnoc<T, K>(xs: seq<T>, keys: seq<K>, seen: set<K>, x: T, k: K)
    requires |keys| == |xs|
    ensures KeepFirst(xs + [x], keys + [k], seen)
         == KeepFirst(xs, keys, seen) + (if k in seen || k in keys then [] else [x])
  {
    assert (xs + [x])[..|xs|] == xs;
    assert (keys + [k])[..|keys|] == keys;
  }

  /** Filtering a concatenation is filtering the first part, then filtering the
      second part with the first part's keys added to `seen`. */
  lemma {:induction false} KeepFirstAppend<T, K>(xs: seq<T>, keys: seq<K>, ys: seq<T>, ks: seq<K>, seen: set<K>)
    requires |keys| == |xs| && |ks| == |ys|
    ensures KeepFirst(xs + ys, keys + ks, seen)
         == KeepFirst(xs, keys, seen) + KeepFirst(ys, ks, seen + Elems(keys))
    decreases |ys|
  {
    if ys != [] {
      var n := |ys| - 1;
      var s2 := seen + Elems(keys);
      var y, k := ys[n], ks[n];
      var a, ka := xs + ys[..n], keys + ks[..n];
      calc {
        KeepFirst(xs + ys, keys + ks, seen);
      == { assert a + [y] == xs + ys; assert ka + [k] == keys + ks; }
        KeepFirst(a + [y], ka + [k], seen);
      == { KeepFirstSnoc(a, ka, seen, y, k); }
        KeepFirst(a, ka, seen) + (if k in seen || k in ka then [] else [y]);
      == { KeepFirstAppend(xs, keys, ys[..n], ks[..n], seen); }
        KeepFirst(xs, keys, seen) + KeepFirst(ys[..n], ks[..n], s2) + (if k in seen || k in ka then [] else [y]);
      == { assert k in ka <==> k in keys || k in ks[..n];
           assert k in s2 <==> k in seen || k in keys; }
        KeepFirst(xs, keys, seen) + (KeepFirst(ys[..n], ks[..n], s2) + (if k in s2 || k in ks[..n] then [] else [y]));
      == { KeepFirstSnoc(ys[..n], ks[..n], s2, y, k); }
        KeepFirst(xs, keys, seen) + KeepFirst(ys[..n] + [y], ks[..n] + [k], s2);
      == { assert ys[..n] + [y] == ys; assert ks[..n] + [k] == ks; }
        KeepFirst(xs, keys, seen) + KeepFirst(ys, ks, s2);
      }
    } else {
      assert xs + ys == xs && keys + ks == keys;
    }
  }

  /** Keys of another kind in `seen` never suppress an item. */
  lemma {:induction false} KeepFirstIgnoresDisjoint<T, K>(xs: seq<T>, keys: seq<K>, seen: set<K>, other: set<K>)
    requires |keys| == |xs|
    requires forall i :: 0 <= i < |keys| ==> keys[i] !in other
    ensures KeepFirst(xs, keys, seen + other) == KeepFirst(xs, keys, seen)
    decreases |xs|
  {
    if xs != [] {
      var n := |xs| - 1;
      KeepFirstIgnoresDisjoint(xs[..n], keys[..n], seen, other);
    }
  }

  /** Items whose keys occur nowhere else are always kept. */
  lemma KeepsUniqueKey<K>(keys: seq<K>, seen: set<K>, i: nat)
    requires i < |keys| && keys[i] !in seen
    requires forall p :: 0 <= p < |keys| && p != i ==> keys[p] != keys[i]
    ensures i in KeptIndices(keys, seen)
  {
    KeepFirstSpec(keys, keys, seen);
  }

  lemma ElemsAppend<K>(a: seq<K>, b: seq<K>)
    ensures Elems(a + b) == Elems(a) + Elems(b)
  {
    assert forall k :: k in a + b <==> k in a || k in b;
  }

  /** One more item of the loop: kept exactly when its key is in neither `seen0` nor
      the keys before it. */
  lemma KeepUnseenStep<T, K>(xs: seq<T>, keys: seq<K>, seen0: set<K>, j: nat)
    requires |keys| == |xs| && j < |xs|
    ensures KeepFirst(xs[..j + 1], keys[..j + 1], seen0)
         == KeepFirst(xs[..j], keys[..j], seen0) + (if keys[j] in seen0 + Elems(keys[..j]) then [] else [xs[j]])
    ensures Elems(keys[..j + 1]) == Elems(keys[..j]) + {keys[j]}
  {
    KeepFirstSnoc(xs[..j], keys[..j], seen0, xs[j], keys[j]);
    assert xs[..j + 1] == xs[..j] + [xs[j]];
    assert keys[..j + 1] == keys[..j] + [keys[j]];
    ElemsAppend(keys[..j], [keys[j]]);
    assert Elems([keys[j]]) == {keys[j]};
  }

  /** The loop `for x in xs: if key not in seen: out.append(x); seen.add(key)`:
      appends the items a keep-first filter from `seen0` keeps, and adds every key. */
  method KeepUnseen<T, K>(xs: seq<T>, keys: seq<K>, kept0: seq<T>, seen0: set<K>)
    returns (kept: seq<T>, seen: set<K>)
    requires |keys| == |xs|
    ensures kept == kept0 + KeepFirst(xs, keys, seen0)
    ensures seen == seen0 + Elems(keys)
  {
    kept, seen := kept0, seen0;
    for j := 0 to |xs|
      invariant kept == kept0 + KeepFirst(xs[..j], keys[..j], seen0)
      invariant seen == seen0 + Elems(keys[..j])
    {
      KeepUnseenStep(xs, keys, seen0, j);
      if keys[j] !in seen {
        kept := kept + [xs[j]];
        seen := seen + {keys[j]};
      }
    }
    assert xs[..|xs|] == xs && keys[..|keys|] == keys;
  }
}

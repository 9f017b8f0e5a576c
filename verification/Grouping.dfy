/** Grouping a list by keys in order of first appearance, as `dict.setdefault(key, []).append` does. */
module Grouping {
  /** First occurrences only. */
  function Distinct<K(==)>(s: seq<K>): seq<K> {
    if s == [] then []
    else
      var d := Distinct(s[..|s| - 1]);
      if s[|s| - 1] in d then d else d + [s[|s| - 1]]
  }

  lemma {:induction false} InDistinct<K>(s: seq<K>)
    ensures forall v :: v in Distinct(s) <==> v in s
    ensures forall i :: 0 <= i < |Distinct(s)| ==> Distinct(s)[i] in s
    ensures forall i, j :: 0 <= i < j < |Distinct(s)| ==> Distinct(s)[i] != Distinct(s)[j]
  {
    if s != [] {
      var n := |s| - 1;
      InDistinct(s[..n]);
      assert s == s[..n] + [s[n]];
    }
  }

  /** The items whose key is `k`, in order. */
  function Pick<T, K(==)>(items: seq<T>, keys: seq<K>, k: K): seq<T>
    requires |items| == |keys|
  {
    if keys == [] then []
    else
      var n := |keys| - 1;
      Pick(items[..n], keys[..n], k) + (if keys[n] == k then [items[n]] else [])
  }

  function Concat<T, K(==)>(order: seq<K>, items: seq<T>, keys: seq<K>): seq<T>
    requires |items| == |keys|
  {
    if order == [] then []
    else Concat(order[..|order| - 1], items, keys) + Pick(items, keys, order[|order| - 1])
  }

  function Grouped<T, K(==)>(items: seq<T>, keys: seq<K>): seq<T>
    requires |items| == |keys|
  {
    Concat(Distinct(keys), items, keys)
  }

  lemma PickSnoc<T, K>(items: seq<T>, keys: seq<K>, x: T, kx: K, k: K)
    requires |items| == |keys|
    ensures Pick(items + [x], keys + [kx], k) == Pick(items, keys, k) + if kx == k then [x] else []
  {
    assert (items + [x])[..|keys|] == items && (keys + [kx])[..|keys|] == keys;
  }

  /** What the loops that group do with one more item. */
  lemma GroupingStep<T, K(!new)>(items: seq<T>, keys: seq<K>, x: T, kx: K)
    requires |items| == |keys|
    ensures forall k :: Pick(items + [x], keys + [kx], k) == Pick(items, keys, k) + if kx == k then [x] else []
    ensures Distinct(keys + [kx]) == if kx in Distinct(keys) then Distinct(keys) else Distinct(keys) + [kx]
    ensures kx !in Distinct(keys) ==> Pick(items, keys, kx) == []
  {
    forall k ensures Pick(items + [x], keys + [kx], k) == Pick(items, keys, k) + if kx == k then [x] else [] {
      PickSnoc(items, keys, x, kx, k);
    }
    assert (keys + [kx])[..|keys|] == keys;
    InDistinct(keys);
    PickKeys(items, keys, kx);
  }

  lemma {:induction false} PickConcat<T, K>(a: seq<T>, ka: seq<K>, b: seq<T>, kb: seq<K>, k: K)
    requires |a| == |ka| && |b| == |kb|
    ensures Pick(a + b, ka + kb, k) == Pick(a, ka, k) + Pick(b, kb, k)
    decreases |b|
  {
    if b == [] {
      assert a + b == a && ka + kb == ka;
    } else {
      var n := |b| - 1;
      assert a + b == (a + b[..n]) + [b[n]] && ka + kb == (ka + kb[..n]) + [kb[n]];
      PickConcat(a, ka, b[..n], kb[..n], k);
      PickSnoc(a + b[..n], ka + kb[..n], b[n], kb[n], k);
    }
  }

  /** Two lists with the same keys are picked in step, and what is picked has the key picked for. */
  lemma {:induction false} PickKeys<T, K>(items: seq<T>, keys: seq<K>, k: K)
    requires |items| == |keys|
    ensures |Pick(keys, keys, k)| == |Pick(items, keys, k)|
    ensures forall i :: 0 <= i < |Pick(keys, keys, k)| ==> Pick(keys, keys, k)[i] == k
    ensures Pick(keys, keys, k) == [] <==> k !in keys
  {
    if keys != [] {
      var n := |keys| - 1;
      PickKeys(items[..n], keys[..n], k);
      assert keys == keys[..n] + [keys[n]];
    }
  }

  lemma {:induction false} PickUniform<T, K>(items: seq<T>, keys: seq<K>, j: K, k: K)
    requires |items| == |keys| && forall i :: 0 <= i < |keys| ==> keys[i] == j
    ensures Pick(items, keys, k) == if j == k then items else []
  {
    if keys != [] {
      var n := |keys| - 1;
      PickUniform(items[..n], keys[..n], j, k);
      assert items == items[..n] + [items[n]];
    }
  }

  predicate NoRepeats<K(==)>(s: seq<K>) {
    forall i, j :: 0 <= i < j < |s| ==> s[i] != s[j]
  }

  lemma {:induction false} ConcatLengths<T, K>(order: seq<K>, items: seq<T>, keys: seq<K>)
    requires |items| == |keys|
    ensures |Concat(order, items, keys)| == |Concat(order, keys, keys)|
    ensures forall k :: k in Concat(order, keys, keys) ==> k in order
  {
    if order != [] {
      var n := |order| - 1;
      ConcatLengths(order[..n], items, keys);
      PickKeys(items, keys, order[n]);
      assert order == order[..n] + [order[n]];
    }
  }

  /** From the concatenated groups every group can be picked again as it was. */
  lemma {:induction false} PickFromConcat<T, K>(order: seq<K>, items: seq<T>, keys: seq<K>, k: K)
    requires |items| == |keys| && NoRepeats(order)
    ensures |Concat(order, items, keys)| == |Concat(order, keys, keys)|
    ensures Pick(Concat(order, items, keys), Concat(order, keys, keys), k) == if k in order then Pick(items, keys, k) else []
  {
    hide Pick;
    ConcatLengths(order, items, keys);
    if order == [] {
      PickNothing<T, K>(k);
    } else {
      var n := |order| - 1;
      ConcatLengths(order[..n], items, keys);
      PickFromConcat(order[..n], items, keys, k);
      PickKeys(items, keys, order[n]);
      var group, groupKeys := Pick(items, keys, order[n]), Pick(keys, keys, order[n]);
      PickConcat(Concat(order[..n], items, keys), Concat(order[..n], keys, keys), group, groupKeys, k);
      PickUniform(group, groupKeys, order[n], k);
      assert order == order[..n] + [order[n]];
      assert k in order <==> k in order[..n] || k == order[n];
      assert Pick(items, keys, k) + [] == Pick(items, keys, k);
      assert [] + Pick(items, keys, k) == Pick(items, keys, k);
    }
  }

  lemma PickNothing<T, K>(k: K)
    ensures Pick<T, K>([], [], k) == []
  {
  }

  /** Grouping is stable: each key's items keep their order. */
  lemma GroupedStable<T, K>(items: seq<T>, keys: seq<K>, k: K)
    requires |items| == |keys|
    ensures |Grouped(items, keys)| == |Grouped(keys, keys)|
    ensures Pick(Grouped(items, keys), Grouped(keys, keys), k) == Pick(items, keys, k)
  {
    InDistinct(keys);
    PickFromConcat(Distinct(keys), items, keys, k);
    PickKeys(items, keys, k);
  }

  lemma {:induction false} ConcatSnoc<T, K>(order: seq<K>, items: seq<T>, keys: seq<K>, x: T, kx: K)
    requires |items| == |keys| && NoRepeats(order)
    ensures multiset(Concat(order, items + [x], keys + [kx])) ==
            multiset(Concat(order, items, keys)) + if kx in order then multiset{x} else multiset{}
  {
    hide Pick;
    if order != [] {
      var n := |order| - 1;
      ConcatSnoc(order[..n], items, keys, x, kx);
      PickSnoc(items, keys, x, kx, order[n]);
      assert order == order[..n] + [order[n]];
      assert kx in order <==> kx in order[..n] || kx == order[n];
      var a, p := Concat(order[..n], items, keys), Pick(items, keys, order[n]);
      assert multiset(p + [x]) == multiset(p) + multiset{x};
      assert multiset(p + []) == multiset(p) by {
        assert p + [] == p;
      }
    }
  }

  /** One more item adds just that item to the grouped items. */
  lemma GroupedSnoc<T, K>(items: seq<T>, keys: seq<K>, x: T, kx: K)
    requires |items| == |keys|
    ensures multiset(Grouped(items + [x], keys + [kx])) == multiset(Grouped(items, keys)) + multiset{x}
  {
    var seen, after := Distinct(keys), Distinct(keys + [kx]);
    InDistinct(keys);
    ConcatSnoc(seen, items, keys, x, kx);
    assert (keys + [kx])[..|keys|] == keys;
    if kx in seen {
      assert after == seen;
    } else {
      assert after == seen + [kx] && after[..|seen|] == seen;
      PickKeys(items, keys, kx);
      PickSnoc(items, keys, x, kx, kx);
      assert Pick(items + [x], keys + [kx], kx) == [x];
    }
  }

  /** Grouping is a permutation. */
  lemma {:induction false} GroupedPermutes<T, K>(items: seq<T>, keys: seq<K>)
    requires |items| == |keys|
    ensures multiset(Grouped(items, keys)) == multiset(items)
  {
    if keys != [] {
      var n := |keys| - 1;
      GroupedPermutes(items[..n], keys[..n]);
      GroupedSnoc(items[..n], keys[..n], items[n], keys[n]);
      assert items == items[..n] + [items[n]] && keys == keys[..n] + [keys[n]];
    }
  }

  lemma DistinctStep<K>(s: seq<K>, k: K)
    ensures Distinct(s + [k]) == if k in s then Distinct(s) else Distinct(s) + [k]
  {
    InDistinct(s);
    assert (s + [k])[..|s|] == s && (s + [k])[|s|] == k;
  }

  lemma SwitchStep<K>(s: seq<K>, k: K)
    ensures Switches(s + [k]) == Switches(s) + if s == [] || s[|s| - 1] == k then 0 else 1
  {
    assert (s + [k])[..|s|] == s;
  }

  /** A run of a new key adds that key to the distinct keys and one switch to the switches. */
  lemma {:induction false} RunAdds<K>(s: seq<K>, run: seq<K>, k: K)
    requires k !in s && run != [] && forall i :: 0 <= i < |run| ==> run[i] == k
    ensures Distinct(s + run) == Distinct(s) + [k]
    ensures Switches(s + run) == Switches(s) + if s == [] then 0 else 1
    decreases |run|
  {
    hide Distinct, Switches;
    var n := |run| - 1;
    DistinctStep(s + run[..n], k);
    SwitchStep(s + run[..n], k);
    assert s + run == (s + run[..n]) + [k];
    if n == 0 {
      assert s + run[..n] == s;
    } else {
      RunAdds(s, run[..n], k);
      assert (s + run[..n])[|s| + n - 1] == k;
    }
  }

  function Switches<K(==)>(s: seq<K>): nat {
    if |s| < 2 then 0 else Switches(s[..|s| - 1]) + if s[|s| - 1] != s[|s| - 2] then 1 else 0
  }

  predicate Contiguous<K(==)>(s: seq<K>) {
    forall i, j, l :: 0 <= i < j < l < |s| && s[i] == s[l] ==> s[j] == s[i]
  }

  lemma RunIsContiguous<K>(s: seq<K>, run: seq<K>, k: K)
    requires Contiguous(s) && k !in s && forall i :: 0 <= i < |run| ==> run[i] == k
    ensures Contiguous(s + run)
  {
    assert forall i :: 0 <= i < |s| ==> s[i] != k;
  }

  lemma {:induction false} ConcatRuns<K>(order: seq<K>, keys: seq<K>)
    requires NoRepeats(order) && forall i :: 0 <= i < |order| ==> order[i] in keys
    ensures var s := Concat(order, keys, keys);
            Distinct(s) == order && Contiguous(s) && (order == [] <==> s == [])
            && Switches(s) == if order == [] then 0 else |order| - 1
  {
    hide Contiguous, Pick;
    if order == [] {
      NothingIsContiguous(Concat(order, keys, keys));
    } else {
      var n := |order| - 1;
      var k, s, run := order[n], Concat(order[..n], keys, keys), Pick(keys, keys, order[n]);
      ConcatRuns(order[..n], keys);
      assert Concat(order, keys, keys) == s + run && order == order[..n] + [k] && k !in order[..n];
      ConcatLengths(order[..n], keys, keys);
      PickKeys(keys, keys, k);
      hide Distinct, Switches, Concat, NoRepeats;
      RunIsContiguous(s, run, k);
      RunAdds(s, run, k);
    }
  }

  lemma NothingIsContiguous<K>(s: seq<K>)
    requires s == []
    ensures Contiguous(s)
  {
  }

  /** Equal keys stand together, each key once, in order of first appearance. */
  lemma GroupedRuns<K>(keys: seq<K>)
    ensures Distinct(Grouped(keys, keys)) == Distinct(keys) && Contiguous(Grouped(keys, keys))
    ensures keys != [] ==> Switches(Grouped(keys, keys)) == |Distinct(keys)| - 1
  {
    InDistinct(keys);
    assert forall i :: 0 <= i < |Distinct(keys)| ==> Distinct(keys)[i] in keys;
    ConcatRuns(Distinct(keys), keys);
    if keys != [] {
      assert keys[0] in Distinct(keys);
    }
  }

  lemma {:induction false} ConcatSame<T, K>(order: seq<K>, a: seq<T>, ka: seq<K>, b: seq<T>, kb: seq<K>)
    requires |a| == |ka| && |b| == |kb|
    requires forall i :: 0 <= i < |order| ==> Pick(a, ka, order[i]) == Pick(b, kb, order[i])
    ensures Concat(order, a, ka) == Concat(order, b, kb)
  {
    if order != [] {
      ConcatSame(order[..|order| - 1], a, ka, b, kb);
    }
  }

  /** Grouping what is grouped changes nothing. */
  lemma GroupedIdempotent<T, K>(items: seq<T>, keys: seq<K>)
    requires |items| == |keys|
    ensures |Grouped(items, keys)| == |Grouped(keys, keys)|
    ensures Grouped(Grouped(items, keys), Grouped(keys, keys)) == Grouped(items, keys)
  {
    ConcatLengths(Distinct(keys), items, keys);
    GroupedRuns(keys);
    var order := Distinct(keys);
    forall i | 0 <= i < |order|
      ensures Pick(Grouped(items, keys), Grouped(keys, keys), order[i]) == Pick(items, keys, order[i])
    {
      GroupedStable(items, keys, order[i]);
    }
    ConcatSame(Distinct(keys), Grouped(items, keys), Grouped(keys, keys), items, keys);
  }

  // ---- fewest switches ----

  /** Every order of the keys switches at least once per key after the first. */
  lemma {:induction false} SwitchesAtLeast<K>(s: seq<K>)
    ensures |Distinct(s)| <= Switches(s) + 1
    ensures s == [] ==> |Distinct(s)| == 0
  {
    if s != [] {
      var n := |s| - 1;
      SwitchesAtLeast(s[..n]);
      InDistinct(s[..n]);
      if n >= 1 && s[n] !in Distinct(s[..n]) {
        assert s[n - 1] in s[..n];
      }
    }
  }

  function SetOf<K(==)>(s: seq<K>): set<K> { set k | k in s }

  lemma {:induction false} DistinctCount<K>(s: seq<K>)
    ensures |Distinct(s)| == |SetOf(s)|
  {
    if s == [] {
      assert SetOf(s) == {};
    } else {
      var n := |s| - 1;
      DistinctCount(s[..n]);
      InDistinct(s[..n]);
      assert s == s[..n] + [s[n]];
      assert SetOf(s) == SetOf(s[..n]) + {s[n]};
      assert s[n] in Distinct(s[..n]) <==> s[n] in SetOf(s[..n]);
      if s[n] in SetOf(s[..n]) {
        assert SetOf(s) == SetOf(s[..n]);
      }
    }
  }

  /** No other order of the same cases has fewer switches of the environment. */
  lemma GroupedIsOptimal<K>(keys: seq<K>, other: seq<K>)
    requires multiset(other) == multiset(keys)
    ensures Switches(Grouped(keys, keys)) <= Switches(other)
  {
    if keys == [] {
      assert Grouped(keys, keys) == [];
    } else {
      GroupedRuns(keys);
      SwitchesAtLeast(other);
      DistinctCount(keys);
      DistinctCount(other);
      assert SetOf(keys) == SetOf(other) by {
        assert forall k :: k in keys <==> k in multiset(keys);
        assert forall k :: k in other <==> k in multiset(other);
      }
    }
  }

  // ---- the grouping loop ----

  /** `order` lists the keys by first appearance and `groups` maps each to its items. */
  ghost predicate Indexed<T, K(!new)>(groups: map<K, seq<T>>, order: seq<K>, items: seq<T>, keys: seq<K>)
    requires |items| == |keys|
  {
    && order == Distinct(keys)
    && (forall k :: k in groups <==> k in order)
    && (forall k :: k in groups ==> groups[k] == Pick(items, keys, k))
  }

  method AddToGroup<T, K(==, !new)>(
    groups0: map<K, seq<T>>, order0: seq<K>, x: T, key: K, ghost items: seq<T>, ghost keys: seq<K>)
    returns (groups: map<K, seq<T>>, order: seq<K>)
    requires |items| == |keys| && Indexed(groups0, order0, items, keys)
    ensures Indexed(groups, order, items + [x], keys + [key])
  {
    hide Pick, Distinct;
    GroupingStep(items, keys, x, key);
    groups, order := groups0, order0;
    if key !in groups {
      groups := groups[key := []];
      order := order + [key];
    }
    groups := groups[key := groups[key] + [x]];
  }

  lemma NoGroups<T, K(!new)>(groups: map<K, seq<T>>, order: seq<K>, items: seq<T>, keys: seq<K>)
    requires groups == map[] && order == [] && items == [] && keys == []
    ensures Indexed(groups, order, items, keys)
  {
  }

  /** `[item for key in order for item in groups[key]]` */
  method Flatten<T, K(==, !new)>(groups: map<K, seq<T>>, order: seq<K>, ghost items: seq<T>, ghost keys: seq<K>)
    returns (sorted: seq<T>)
    requires |items| == |keys| && Indexed(groups, order, items, keys)
    ensures sorted == Grouped(items, keys)
  {
    hide Distinct, Pick;
    sorted := [];
    for i := 0 to |order|
      invariant sorted == Concat(order[..i], items, keys)
    {
      assert order[..i + 1][..i] == order[..i] && order[..i + 1][i] == order[i];
      assert order[i] in order;
      sorted := sorted + groups[order[i]];
    }
    assert order[..|order|] == order;
  }
}

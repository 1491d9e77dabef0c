/** Python's insertion-ordered `dict`, and the two ways the analysers fill one:
    `d[k] += 1` on a `defaultdict(int)` (a tally) and `{k: v for k, v in
    d.items() if ...}` (a filter that keeps the order). A dict is its key
    sequence, in insertion order, together with the mapping. */
module PyDict {
  import opened PyStr

  datatype Dict<K(==,!new), V> = Dict(keys: seq<K>, vals: map<K, V>)

  /** The keys are listed once each, and exactly the keys of the mapping are listed. */
  ghost predicate Valid<K(!new), V>(d: Dict<K, V>) {
    && Distinct(d.keys)
    && (forall k :: k in d.vals <==> k in d.keys)
  }

  function Empty<K(==,!new), V>(): (d: Dict<K, V>)
    ensures Valid(d)
  {
    Dict([], map[])
  }

  /** `d[k] = v`: a new key goes to the end, an existing key keeps its place. */
  function Put<K(==,!new), V>(d: Dict<K, V>, k: K, v: V): (r: Dict<K, V>)
    requires Valid(d)
    ensures Valid(r)
    ensures r.vals == d.vals[k := v]
    ensures k in d.vals ==> r.keys == d.keys
    ensures k !in d.vals ==> r.keys == d.keys + [k]
  {
    if k in d.vals then Dict(d.keys, d.vals[k := v]) else Dict(d.keys + [k], d.vals[k := v])
  }

  /** `d[k] += 1` on a `defaultdict(int)`. */
  function Bump<K(==,!new)>(d: Dict<K, nat>, k: K): (r: Dict<K, nat>)
    requires Valid(d)
    ensures Valid(r)
  {
    Put(d, k, (if k in d.vals then d.vals[k] else 0) + 1)
  }

  /** The dict `d[x] += 1` builds over `xs`, one `x` after the other. */
  function Tally<K(==,!new)>(xs: seq<K>): (d: Dict<K, nat>)
    ensures Valid(d)
  {
    if xs == [] then Empty() else Bump(Tally(xs[..|xs| - 1]), xs[|xs| - 1])
  }

  /** A tally holds exactly the items seen, each with the number of times it was seen. */
  lemma {:induction false} TallyCounts<K(!new)>(xs: seq<K>)
    ensures forall k :: k in Tally(xs).vals <==> k in xs
    ensures forall k :: k in Tally(xs).vals ==> Tally(xs).vals[k] == Occurrences(xs, k)
  {
    if xs != [] {
      var init, x := xs[..|xs| - 1], xs[|xs| - 1];
      TallyCounts(init);
      assert xs == init + [x];
      forall k ensures k in xs <==> k in init || k == x {
        assert k in xs <==> k in init + [x];
      }
    }
  }

  /** Filtering a key sequence by a condition on the values. */
  function FilterKeys<K(==,!new), V>(keys: seq<K>, vals: map<K, V>, keep: V -> bool): (r: seq<K>)
    ensures forall k :: k in r <==> k in keys && k in vals && keep(vals[k])
  {
    if keys == [] then []
    else
      var init, k := keys[..|keys| - 1], keys[|keys| - 1];
      var r0 := FilterKeys(init, vals, keep);
      assert forall j :: j in keys <==> j in init || j == k by {
        assert keys == init + [k];
      }
      if k in vals && keep(vals[k]) then r0 + [k] else r0
  }

  lemma {:induction false} FilterKeysDistinct<K(!new), V>(keys: seq<K>, vals: map<K, V>, keep: V -> bool)
    requires Distinct(keys)
    ensures Distinct(FilterKeys(keys, vals, keep))
  {
    if keys != [] {
      var init := keys[..|keys| - 1];
      FilterKeysDistinct(init, vals, keep);
    }
  }

  /** `{k: v for k, v in d.items() if keep(v)}`: the surviving entries, in their old order. */
  function FilterValues<K(==,!new), V>(d: Dict<K, V>, keep: V -> bool): (r: Dict<K, V>)
    requires Valid(d)
    ensures Valid(r)
    ensures forall k :: k in r.vals <==> k in d.vals && keep(d.vals[k])
    ensures forall k :: k in r.vals ==> r.vals[k] == d.vals[k]
  {
    FilterKeysDistinct(d.keys, d.vals, keep);
    Dict(FilterKeys(d.keys, d.vals, keep), map k | k in d.vals && keep(d.vals[k]) :: d.vals[k])
  }

  /** The sum of `measure` over the values, visiting the keys in order. */
  function SumOver<K(==,!new), V>(keys: seq<K>, vals: map<K, V>, measure: V -> nat): nat
    requires forall k :: k in keys ==> k in vals
  {
    if keys == [] then 0
    else SumOver(keys[..|keys| - 1], vals, measure) + measure(vals[keys[|keys| - 1]])
  }

  function SumBy<K(==,!new), V>(d: Dict<K, V>, measure: V -> nat): nat
    requires Valid(d)
  {
    SumOver(d.keys, d.vals, measure)
  }

  /** Changing the value under one listed key changes the sum by the change in that value. */
  lemma {:induction false} SumOverUpdate<K(!new), V>(keys: seq<K>, vals: map<K, V>, k: K, v: V, measure: V -> nat)
    requires Distinct(keys) && k in keys
    requires forall j :: j in keys ==> j in vals
    ensures SumOver(keys, vals[k := v], measure) + measure(vals[k]) == SumOver(keys, vals, measure) + measure(v)
  {
    var init, last := keys[..|keys| - 1], keys[|keys| - 1];
    assert forall j :: j in init ==> j in keys;
    if last == k {
      assert k !in init by {
        forall i | 0 <= i < |init| ensures init[i] != k {
          assert init[i] == keys[i];
        }
      }
      SumOverSame(init, vals, k, v, measure);
    } else {
      assert k in init by {
        assert keys == init + [last];
      }
      assert Distinct(init);
      SumOverUpdate(init, vals, k, v, measure);
    }
  }

  /** A value under a key that is not listed does not take part in the sum. */
  lemma {:induction false} SumOverSame<K(!new), V>(keys: seq<K>, vals: map<K, V>, k: K, v: V, measure: V -> nat)
    requires k !in keys
    requires forall j :: j in keys ==> j in vals
    ensures SumOver(keys, vals[k := v], measure) == SumOver(keys, vals, measure)
  {
    if keys != [] {
      var init := keys[..|keys| - 1];
      assert forall j :: j in init ==> j in keys;
      SumOverSame(init, vals, k, v, measure);
    }
  }

  /** `d[k] = v` adds `measure(v)` to the sum and takes away what the old value measured. */
  lemma PutSum<K(!new), V>(d: Dict<K, V>, k: K, v: V, measure: V -> nat)
    requires Valid(d)
    ensures SumBy(Put(d, k, v), measure) + (if k in d.vals then measure(d.vals[k]) else 0)
         == SumBy(d, measure) + measure(v)
  {
    if k in d.vals {
      SumOverUpdate(d.keys, d.vals, k, v, measure);
    } else {
      var keys := d.keys + [k];
      assert keys[..|keys| - 1] == d.keys;
      SumOverSame(d.keys, d.vals, k, v, measure);
    }
  }

  /** `d[k]` on a counter: zero for a missing key. */
  function Get<K(==,!new)>(d: Dict<K, nat>, k: K): nat {
    if k in d.vals then d.vals[k] else 0
  }

  /** `Counter.update(xs)`: one more for every item, in order. */
  function BumpAll<K(==,!new)>(d: Dict<K, nat>, xs: seq<K>): (r: Dict<K, nat>)
    requires Valid(d)
    ensures Valid(r)
  {
    if xs == [] then d else Bump(BumpAll(d, xs[..|xs| - 1]), xs[|xs| - 1])
  }

  /** After an update each count has grown by the occurrences of its key, and
      exactly the old keys and the new items are present. */
  lemma {:induction false} BumpAllCounts<K(!new)>(d: Dict<K, nat>, xs: seq<K>)
    requires Valid(d)
    ensures forall k :: k in BumpAll(d, xs).vals <==> k in d.vals || k in xs
    ensures forall k :: Get(BumpAll(d, xs), k) == Get(d, k) + Occurrences(xs, k)
  {
    if xs != [] {
      var init, x := xs[..|xs| - 1], xs[|xs| - 1];
      BumpAllCounts(d, init);
      assert xs == init + [x];
      forall k ensures k in xs <==> k in init || k == x {
        assert k in xs <==> k in init + [x];
      }
    }
  }

  /** A counter built from `xs` is an empty counter updated with `xs`. */
  lemma {:induction false} TallyIsBumpAll<K(!new)>(xs: seq<K>)
    ensures Tally(xs) == BumpAll(Empty(), xs)
  {
    if xs != [] {
      TallyIsBumpAll(xs[..|xs| - 1]);
    }
  }

  /** The measure that reads a count as itself. */
  function Count(n: nat): nat {
    n
  }

  /** `sum(Counter(xs).values())` is the number of items. */
  lemma {:induction false} TallySum<K(!new)>(xs: seq<K>)
    ensures SumBy(Tally(xs), Count) == |xs|
  {
    if xs != [] {
      var init, x := xs[..|xs| - 1], xs[|xs| - 1];
      var d := Tally(init);
      assert Tally(xs) == Put(d, x, Get(d, x) + 1);
      hide Tally, Put, SumBy;
      TallySum(init);
      PutSum(d, x, Get(d, x) + 1, Count);
    } else {
      assert SumBy(Tally(xs), Count) == 0;
    }
  }

  /** `len(Counter(xs))` is the number of distinct items. */
  lemma TallySize<K(!new)>(xs: seq<K>)
    ensures |Tally(xs).keys| == |set x | x in xs|
  {
    var d := Tally(xs);
    TallyCounts(xs);
    DistinctCard(d.keys);
    assert (set x | x in d.keys) == (set x | x in xs);
  }
  /** `a.update(b)` for the entries of `b` listed in `keys`: each is put into `a` in turn. */
  function UpdateWith<K(==,!new), V>(a: Dict<K, V>, keys: seq<K>, vals: map<K, V>): (r: Dict<K, V>)
    requires Valid(a)
    requires forall k :: k in keys ==> k in vals
    ensures Valid(r)
  {
    if keys == [] then a
    else
      var init, k := keys[..|keys| - 1], keys[|keys| - 1];
      assert forall j :: j in init ==> j in keys;
      Put(UpdateWith(a, init, vals), k, vals[k])
  }

  /** `a.update(b)`. */
  function Update<K(==,!new), V>(a: Dict<K, V>, b: Dict<K, V>): (r: Dict<K, V>)
    requires Valid(a) && Valid(b)
    ensures Valid(r)
  {
    UpdateWith(a, b.keys, b.vals)
  }

  lemma {:induction false} UpdateWithFresh<K(!new), V>(a: Dict<K, V>, keys: seq<K>, vals: map<K, V>)
    requires Valid(a) && Distinct(keys)
    requires forall k :: k in keys ==> k in vals && k !in a.vals
    ensures UpdateWith(a, keys, vals).keys == a.keys + keys
    ensures forall k :: k in UpdateWith(a, keys, vals).vals <==> k in a.vals || k in keys
    ensures forall k :: k in UpdateWith(a, keys, vals).vals ==>
      UpdateWith(a, keys, vals).vals[k] == if k in keys then vals[k] else a.vals[k]
  {
    if keys != [] {
      var init, k := keys[..|keys| - 1], keys[|keys| - 1];
      assert forall j :: j in keys <==> j in init || j == k by {
        assert keys == init + [k];
      }
      assert k !in init by {
        forall i | 0 <= i < |init| ensures init[i] != k {
          assert init[i] == keys[i];
        }
      }
      UpdateWithFresh(a, init, vals);
      assert UpdateWith(a, keys, vals) == Put(UpdateWith(a, init, vals), k, vals[k]);
    }
  }

  /** Updating with a dict that shares no key appends its keys and adds its entries. */
  lemma UpdateFresh<K(!new), V>(a: Dict<K, V>, b: Dict<K, V>)
    requires Valid(a) && Valid(b)
    requires forall k :: k in b.vals ==> k !in a.vals
    ensures Update(a, b).keys == a.keys + b.keys
    ensures Update(a, b).vals == a.vals + b.vals
  {
    UpdateWithFresh(a, b.keys, b.vals);
  }
  /** `{}.update(b)` is a copy of `b`. */
  lemma UpdateIntoEmpty<K(!new), V>(b: Dict<K, V>)
    requires Valid(b)
    ensures Update(Empty(), b) == b
  {
    UpdateFresh(Empty(), b);
    assert Empty<K, V>().keys + b.keys == b.keys;
    assert Empty<K, V>().vals + b.vals == b.vals;
  }
}

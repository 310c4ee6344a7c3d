/**
 * `groupby(key)[value].sum()`: the grouped sums every chart and table of
 * the dashboard is built from. A keyed value whose key is null belongs to
 * no group, as in pandas, whose group-by drops null keys.
 */
module Groups {
  import opened Seqs

  /** One value of the column being summed, with its (nullable) group key. */
  datatype Keyed<K> = Keyed(key: Option<K>, value: real)

  /** One row of `groupby(...).sum().reset_index()`. */
  datatype Group<K> = Group(key: K, total: real)

  function KeyOf<K>(g: Group<K>): K
  {
    g.key
  }

  function GroupTotal<K>(g: Group<K>): real
  {
    g.total
  }

  /** The sum of the values whose key is `k`. */
  function SumFor<K(==)>(pairs: seq<Keyed<K>>, k: K): real
  {
    if pairs == [] then 0.0
    else (if pairs[0].key == Some(k) then pairs[0].value else 0.0) + SumFor(pairs[1..], k)
  }

  /** The sum of the values whose key is not null. */
  function SumKeyed<K>(pairs: seq<Keyed<K>>): real
  {
    if pairs == [] then 0.0
    else (if pairs[0].key.Some? then pairs[0].value else 0.0) + SumKeyed(pairs[1..])
  }

  /** The distinct non-null keys. */
  function KeysOf<K>(pairs: seq<Keyed<K>>): set<K>
  {
    set p | p in pairs && p.key.Some? :: p.key.value
  }

  /** The keys of a grouped table. */
  function GroupKeys<K>(gs: seq<Group<K>>): set<K>
  {
    set g | g in gs :: g.key
  }

  /** The total listed for `k`, or 0 when `k` has no group (`fill_value=0`). */
  function TotalOf<K(==)>(gs: seq<Group<K>>, k: K): real
  {
    if gs == [] then 0.0
    else if gs[0].key == k then gs[0].total
    else TotalOf(gs[1..], k)
  }

  /** The sum of a grouped table's totals. */
  function Total<K>(gs: seq<Group<K>>): real
  {
    SumOf(gs, GroupTotal)
  }

  /** Adds `v` to the group of `k`, opening that group if there is none. */
  function Add<K(==)>(gs: seq<Group<K>>, k: K, v: real): seq<Group<K>>
  {
    if gs == [] then [Group(k, v)]
    else if gs[0].key == k then [Group(k, gs[0].total + v)] + gs[1..]
    else [gs[0]] + Add(gs[1..], k, v)
  }

  /** `groupby(key)[value].sum()`, one group per non-null key. */
  function GroupSum<K(==)>(pairs: seq<Keyed<K>>): seq<Group<K>>
  {
    if pairs == [] then []
    else
      var rest := GroupSum(pairs[1..]);
      match pairs[0].key
      case None => rest
      case Some(k) => Add(rest, k, pairs[0].value)
  }

  /** Adding to a table never opens a second group for a key. */
  lemma {:induction false} AddDistinct<K>(gs: seq<Group<K>>, k: K, v: real)
    requires DistinctBy(gs, KeyOf)
    ensures DistinctBy(Add(gs, k, v), KeyOf)
  {
    var r := Add(gs, k, v);
    if gs != [] && gs[0].key == k {
      forall i, j | 0 <= i < j < |r| ensures KeyOf(r[i]) != KeyOf(r[j]) {
        assert KeyOf(gs[i]) != KeyOf(gs[j]);
      }
    } else if gs != [] {
      var tail := gs[1..];
      TailDistinct(gs);
      AddDistinct(tail, k, v);
      AddKeys(tail, k, v);
      var t := Add(tail, k, v);
      assert r == [gs[0]] + t;
      forall i, j | 0 <= i < j < |r| ensures KeyOf(r[i]) != KeyOf(r[j]) {
        if i == 0 {
          assert r[j] in t;
          assert r[j].key in GroupKeys(t);
          if r[j].key != k {
            var g' :| g' in tail && g'.key == r[j].key;
            var i' :| 0 <= i' < |tail| && tail[i'] == g';
            assert KeyOf(gs[0]) != KeyOf(gs[i' + 1]);
          }
        } else {
          assert KeyOf(t[i - 1]) != KeyOf(t[j - 1]);
        }
      }
    }
  }

  lemma TailDistinct<K>(gs: seq<Group<K>>)
    requires gs != [] && DistinctBy(gs, KeyOf)
    ensures DistinctBy(gs[1..], KeyOf)
  {
    var tail := gs[1..];
    forall i, j | 0 <= i < j < |tail| ensures KeyOf(tail[i]) != KeyOf(tail[j]) {
      assert KeyOf(gs[i + 1]) != KeyOf(gs[j + 1]);
    }
  }

  /** Adding to a table adds `k` to its keys and no other key. */
  lemma {:induction false} AddKeys<K>(gs: seq<Group<K>>, k: K, v: real)
    ensures GroupKeys(Add(gs, k, v)) == GroupKeys(gs) + {k}
  {
    var r := Add(gs, k, v);
    if gs != [] {
      assert gs == [gs[0]] + gs[1..];
      assert forall g :: g in gs <==> g == gs[0] || g in gs[1..];
      if gs[0].key == k {
        assert forall g :: g in r <==> g == r[0] || g in gs[1..];
      } else {
        AddKeys(gs[1..], k, v);
        assert forall g :: g in r <==> g == gs[0] || g in Add(gs[1..], k, v);
        assert GroupKeys(r) == {gs[0].key} + GroupKeys(Add(gs[1..], k, v));
        assert GroupKeys(gs) == {gs[0].key} + GroupKeys(gs[1..]);
      }
    }
  }

  /** Adding `v` to the group of `k` raises the total of `k` by `v` and no other total. */
  lemma {:induction false} AddTotalOf<K>(gs: seq<Group<K>>, k: K, v: real, j: K)
    ensures TotalOf(Add(gs, k, v), j) == TotalOf(gs, j) + (if j == k then v else 0.0)
  {
    if gs != [] && gs[0].key != k {
      AddTotalOf(gs[1..], k, v, j);
    }
  }

  /** Adding `v` raises the grand total by `v`. */
  lemma {:induction false} AddTotal<K>(gs: seq<Group<K>>, k: K, v: real)
    ensures Total(Add(gs, k, v)) == Total(gs) + v
  {
    var r := Add(gs, k, v);
    if gs == [] {
      assert SumOf(r, GroupTotal) == v + SumOf(r[1..], GroupTotal);
    } else if gs[0].key == k {
      assert r[1..] == gs[1..];
    } else {
      AddTotal(gs[1..], k, v);
      assert r[1..] == Add(gs[1..], k, v);
    }
  }

  /**
   * The grouped sums: one group per distinct non-null key and no other, the
   * total of every key is the sum of that key's values (0 for a key with no
   * values), and the grand total is the sum of every value with a key.
   */
  lemma {:induction false} GroupSumSpec<K>(pairs: seq<Keyed<K>>)
    ensures DistinctBy(GroupSum(pairs), KeyOf)
    ensures GroupKeys(GroupSum(pairs)) == KeysOf(pairs)
    ensures forall k :: TotalOf(GroupSum(pairs), k) == SumFor(pairs, k)
    ensures Total(GroupSum(pairs)) == SumKeyed(pairs)
  {
    if pairs != [] {
      GroupSumSpec(pairs[1..]);
      var rest := GroupSum(pairs[1..]);
      assert KeysOf(pairs) == KeysOf(pairs[1..]) + (if pairs[0].key.Some? then {pairs[0].key.value} else {}) by {
        assert pairs == [pairs[0]] + pairs[1..];
        assert forall p :: p in pairs <==> p == pairs[0] || p in pairs[1..];
      }
      match pairs[0].key
      case None =>
      case Some(k) =>
        AddDistinct(rest, k, pairs[0].value);
        AddKeys(rest, k, pairs[0].value);
        AddTotal(rest, k, pairs[0].value);
        forall j ensures TotalOf(GroupSum(pairs), j) == SumFor(pairs, j) {
          AddTotalOf(rest, k, pairs[0].value, j);
        }
    }
  }

  /** In a table with one group per key, each group's own total is the one listed for its key. */
  lemma {:induction false} TotalOfMember<K>(gs: seq<Group<K>>, g: Group<K>)
    requires DistinctBy(gs, KeyOf) && g in gs
    ensures TotalOf(gs, g.key) == g.total
  {
    if gs[0] != g {
      assert g in gs[1..];
      var i :| 0 <= i < |gs[1..]| && gs[1..][i] == g;
      assert KeyOf(gs[0]) != KeyOf(gs[i + 1]);
      TailDistinct(gs);
      TotalOfMember(gs[1..], g);
    }
  }

  /** Every group of the grouped sums holds the sum of its key's values. */
  lemma GroupSumMembers<K>(pairs: seq<Keyed<K>>)
    ensures forall g :: g in GroupSum(pairs) ==> g.total == SumFor(pairs, g.key)
  {
    GroupSumSpec(pairs);
    var gs := GroupSum(pairs);
    forall g | g in gs ensures g.total == SumFor(pairs, g.key) {
      TotalOfMember(gs, g);
      assert TotalOf(gs, g.key) == SumFor(pairs, g.key);
    }
  }

  /** `groupby(key)[value].sum().reset_index().sort_values(value, ascending=False)`. */
  function View<K(==)>(pairs: seq<Keyed<K>>): seq<Group<K>>
  {
    SortDesc(GroupSum(pairs), GroupTotal)
  }

  /**
   * A sorted view lists every non-null key exactly once with the sum of its
   * values, from the largest total down, and its totals add up to the sum
   * of every keyed value.
   */
  lemma ViewSpec<K>(pairs: seq<Keyed<K>>)
    ensures SortedDesc(View(pairs), GroupTotal)
    ensures DistinctBy(View(pairs), KeyOf)
    ensures GroupKeys(View(pairs)) == KeysOf(pairs)
    ensures forall g :: g in View(pairs) ==> g.total == SumFor(pairs, g.key)
    ensures Total(View(pairs)) == SumKeyed(pairs)
  {
    var gs := GroupSum(pairs);
    var v := View(pairs);
    GroupSumSpec(pairs);
    GroupSumMembers(pairs);
    SortKeepsDistinct(gs, GroupTotal, KeyOf);
    SortKeepsSum(gs, GroupTotal, GroupTotal);
    assert forall g :: g in v <==> g in gs by {
      assert multiset(v) == multiset(gs);
      forall g ensures g in v <==> g in gs {
        assert g in v <==> g in multiset(v);
        assert g in gs <==> g in multiset(gs);
      }
    }
    assert GroupKeys(v) == GroupKeys(gs);
  }
}

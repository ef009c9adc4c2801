/** A Python dict, which remembers insertion order, as a sequence of
    key/value pairs. Assigning to an existing key keeps its position;
    assigning to a new key appends it. */
module OrderedDict {
  import opened Wrappers
  import opened Seqs

  type Dict<K, V> = seq<(K, V)>

  /** `list(d.keys())`. */
  function Keys<K, V>(d: Dict<K, V>): (ks: seq<K>)
    ensures |ks| == |d|
    ensures forall i :: 0 <= i < |d| ==> ks[i] == d[i].0
  {
    if d == [] then [] else [d[0].0] + Keys(d[1..])
  }

  /** `list(d.values())`. */
  function Values<K, V>(d: Dict<K, V>): seq<V> {
    seq(|d|, i requires 0 <= i < |d| => d[i].1)
  }

  /** Every dict the program can build has distinct keys. */
  predicate Valid<K(==), V>(d: Dict<K, V>) {
    Distinct(Keys(d))
  }

  lemma KeysCons<K, V>(d: Dict<K, V>)
    requires d != []
    ensures Keys(d) == [d[0].0] + Keys(d[1..])
    ensures Valid(d) ==> Valid(d[1..]) && d[0].0 !in Keys(d[1..])
  {
    if Valid(d) {
      var ks := Keys(d);
      assert forall i :: 0 <= i < |d| - 1 ==> Keys(d[1..])[i] == ks[i + 1];
    }
  }

  /** `d[k]` if `k in d`, nothing otherwise. */
  function Lookup<K(==), V>(d: Dict<K, V>, k: K): (r: Option<V>)
    ensures r.None? <==> k !in Keys(d)
    ensures Valid(d) ==> forall i :: 0 <= i < |d| && d[i].0 == k ==> r == Some(d[i].1)
  {
    if d == [] then None
    else
      KeysCons(d);
      if d[0].0 == k then Some(d[0].1)
      else
        var r := Lookup(d[1..], k);
        assert forall i :: 0 < i < |d| ==> d[i] == d[1..][i - 1];
        r
  }

  /** A value found by lookup is the value of some entry with that key. */
  lemma {:induction false} LookupIn<K, V>(d: Dict<K, V>, k: K)
    ensures Lookup(d, k).Some? ==> exists i :: 0 <= i < |d| && d[i] == (k, Lookup(d, k).value)
  {
    if d != [] && d[0].0 != k {
      LookupIn(d[1..], k);
      if Lookup(d, k).Some? {
        var i :| 0 <= i < |d[1..]| && d[1..][i] == (k, Lookup(d[1..], k).value);
        assert d[i + 1] == d[1..][i];
      }
    }
  }

  /** `d.get(k, default)`. */
  function Get<K(==), V>(d: Dict<K, V>, k: K, default: V): V {
    Lookup(d, k).GetOr(default)
  }

  /** `d.get(k, default)` is the stored value for a key and the default
      for anything else. */
  lemma GetLookup<K, V>(d: Dict<K, V>, k: K, default: V)
    ensures k in Keys(d) ==> Lookup(d, k) == Some(Get(d, k, default))
    ensures k !in Keys(d) ==> Get(d, k, default) == default
  {
  }

  /** `d.get(k, default)` is the default or the value of an entry with key `k`. */
  lemma GetIn<K, V>(d: Dict<K, V>, k: K, default: V)
    ensures Get(d, k, default) == default || exists i :: 0 <= i < |d| && d[i] == (k, Get(d, k, default))
  {
    LookupIn(d, k);
  }

  /** `d[k] = v`. */
  function Put<K(==,!new), V>(d: Dict<K, V>, k: K, v: V): (r: Dict<K, V>)
    ensures Keys(r) == if k in Keys(d) then Keys(d) else Keys(d) + [k]
    ensures Lookup(r, k) == Some(v)
    ensures forall k' :: k' != k ==> Lookup(r, k') == Lookup(d, k')
  {
    if d == [] then [(k, v)]
    else if d[0].0 == k then
      var r := [(k, v)] + d[1..];
      PutHead(d, k, v);
      r
    else
      var t := Put(d[1..], k, v);
      PutTail(d, k, v, t);
      [d[0]] + t
  }

  /** Assigning to a key that first occurs at position `i` replaces that
      pair in place. */
  lemma {:induction false} PutAt<K(!new), V>(d: Dict<K, V>, i: nat, v: V)
    requires i < |d| && d[i].0 !in Keys(d[..i])
    ensures Put(d, d[i].0, v) == d[i := (d[i].0, v)]
    decreases i
  {
    if i == 0 {
      PutFirst(d, v);
    } else {
      AbsentBefore(d, i);
      PutSkip(d, d[i].0, v);
      PutAt(d[1..], i - 1, v);
      UpdateTail(d, i, (d[i].0, v));
    }
  }

  lemma PutFirst<K(!new), V>(d: Dict<K, V>, v: V)
    requires d != []
    ensures Put(d, d[0].0, v) == d[0 := (d[0].0, v)]
  {
    assert [(d[0].0, v)] + d[1..] == d[0 := (d[0].0, v)];
  }

  /** Updating the tail at `i - 1` is updating the whole at `i`. */
  lemma UpdateTail<T>(s: seq<T>, i: nat, x: T)
    requires 0 < i < |s|
    ensures [s[0]] + s[1..][i - 1 := x] == s[i := x]
  {
  }

  /** The key absent before position `i` is neither the first key nor among
      the keys of the tail before position `i - 1`. */
  lemma AbsentBefore<K, V>(d: Dict<K, V>, i: nat)
    requires 0 < i < |d| && d[i].0 !in Keys(d[..i])
    ensures d[0].0 != d[i].0 && d[1..][i - 1].0 !in Keys(d[1..][..i - 1])
  {
    assert d[1..][..i - 1] == d[..i][1..];
    KeysCons(d[..i]);
  }

  /** Assigning to a key other than the first leaves the first pair in front. */
  lemma PutSkip<K(!new), V>(d: Dict<K, V>, k: K, v: V)
    requires d != [] && d[0].0 != k
    ensures Put(d, k, v) == [d[0]] + Put(d[1..], k, v)
  {
  }

  /** In a dict with distinct keys, no key occurs before its own position. */
  lemma FirstAt<K, V>(d: Dict<K, V>, i: nat)
    requires Valid(d) && i < |d|
    ensures d[i].0 !in Keys(d[..i])
  {
    var ks := Keys(d[..i]);
    forall j | 0 <= j < i ensures ks[j] != d[i].0 {
      assert ks[j] == d[j].0 == Keys(d)[j];
    }
  }

  /** Assigning to the first key replaces its value in place. */
  lemma PutHead<K(!new), V>(d: Dict<K, V>, k: K, v: V)
    requires d != [] && d[0].0 == k
    ensures Keys([(k, v)] + d[1..]) == Keys(d)
    ensures Lookup([(k, v)] + d[1..], k) == Some(v)
    ensures forall k' :: k' != k ==> Lookup([(k, v)] + d[1..], k') == Lookup(d, k')
  {
    var r := [(k, v)] + d[1..];
    assert r[1..] == d[1..];
    KeysCons(r);
    KeysCons(d);
  }

  /** Assigning past the first key: the assignment into the tail `t`, with
      the first entry kept in front. */
  lemma PutTail<K(!new), V>(d: Dict<K, V>, k: K, v: V, t: Dict<K, V>)
    requires d != [] && d[0].0 != k
    requires Keys(t) == if k in Keys(d[1..]) then Keys(d[1..]) else Keys(d[1..]) + [k]
    requires Lookup(t, k) == Some(v)
    requires forall k' :: k' != k ==> Lookup(t, k') == Lookup(d[1..], k')
    ensures Keys([d[0]] + t) == if k in Keys(d) then Keys(d) else Keys(d) + [k]
    ensures Lookup([d[0]] + t, k) == Some(v)
    ensures forall k' :: k' != k ==> Lookup([d[0]] + t, k') == Lookup(d, k')
  {
    PutTailKeys(d, k, t);
    forall k' ensures Lookup([d[0]] + t, k') == if k' == d[0].0 then Some(d[0].1) else Lookup(t, k') {
      LookupFront(d[0], t, k');
    }
  }

  lemma PutTailKeys<K, V>(d: Dict<K, V>, k: K, t: Dict<K, V>)
    requires d != [] && d[0].0 != k
    requires Keys(t) == if k in Keys(d[1..]) then Keys(d[1..]) else Keys(d[1..]) + [k]
    ensures Keys([d[0]] + t) == if k in Keys(d) then Keys(d) else Keys(d) + [k]
  {
    KeysFront(d[0], t);
    KeysFront(d[0], d[1..]);
    assert [d[0]] + d[1..] == d;
    if k !in Keys(d[1..]) {
      ConsSnoc(d[0].0, Keys(d[1..]), k);
    }
  }

  /** The keys of a dict with one more entry in front. */
  lemma KeysFront<K, V>(p: (K, V), t: Dict<K, V>)
    ensures Keys([p] + t) == [p.0] + Keys(t)
  {
    assert ([p] + t)[1..] == t;
  }

  lemma ConsSnoc<T>(x: T, a: seq<T>, y: T)
    ensures [x] + (a + [y]) == ([x] + a) + [y]
  {
  }

  /** Looking a key up in a dict with one more entry in front. */
  lemma LookupFront<K, V>(p: (K, V), t: Dict<K, V>, k: K)
    ensures Lookup([p] + t, k) == if k == p.0 then Some(p.1) else Lookup(t, k)
  {
    assert ([p] + t)[1..] == t;
  }

  /** `d.get` after `d[k] = v`. */
  lemma GetPut<K(!new), V>(d: Dict<K, V>, k: K, v: V, x: K, default: V)
    ensures Get(Put(d, k, v), x, default) == if x == k then v else Get(d, x, default)
  {
  }

  /** Assignment keeps the keys distinct. */
  lemma PutValid<K(!new), V>(d: Dict<K, V>, k: K, v: V)
    requires Valid(d)
    ensures Valid(Put(d, k, v))
  {
    var ks := Keys(d);
    if k !in ks {
      assert Keys(Put(d, k, v)) == ks + [k];
    }
  }

  /** The entries of `d` whose key is not in `ks`, in their order. */
  function Without<K(==,!new), V>(d: Dict<K, V>, ks: set<K>): (r: Dict<K, V>)
    ensures Valid(d) ==> Valid(r)
    ensures forall k :: Lookup(r, k) == if k in ks then None else Lookup(d, k)
    ensures forall k :: k in Keys(r) <==> k in Keys(d) && k !in ks
  {
    if d == [] then []
    else
      var rest := Without(d[1..], ks);
      WithoutStepKeys(d, ks, rest);
      WithoutStepLookup(d, ks, rest);
      WithoutStepValid(d, ks, rest);
      if d[0].0 in ks then rest else [d[0]] + rest
  }

  lemma WithoutStepKeys<K, V>(d: Dict<K, V>, ks: set<K>, rest: Dict<K, V>)
    requires d != []
    requires forall k :: k in Keys(rest) <==> k in Keys(d[1..]) && k !in ks
    ensures var r := if d[0].0 in ks then rest else [d[0]] + rest;
      forall k :: k in Keys(r) <==> k in Keys(d) && k !in ks
  {
    KeysFront(d[0], rest);
    KeysFront(d[0], d[1..]);
    assert [d[0]] + d[1..] == d;
  }

  lemma WithoutStepLookup<K(!new), V>(d: Dict<K, V>, ks: set<K>, rest: Dict<K, V>)
    requires d != []
    requires forall k :: Lookup(rest, k) == if k in ks then None else Lookup(d[1..], k)
    ensures var r := if d[0].0 in ks then rest else [d[0]] + rest;
      forall k :: Lookup(r, k) == if k in ks then None else Lookup(d, k)
  {
    assert [d[0]] + d[1..] == d;
    forall k ensures Lookup(d, k) == if k == d[0].0 then Some(d[0].1) else Lookup(d[1..], k) {
      LookupFront(d[0], d[1..], k);
    }
    forall k ensures Lookup([d[0]] + rest, k) == if k == d[0].0 then Some(d[0].1) else Lookup(rest, k) {
      LookupFront(d[0], rest, k);
    }
  }

  lemma WithoutStepValid<K, V>(d: Dict<K, V>, ks: set<K>, rest: Dict<K, V>)
    requires d != []
    requires Valid(d[1..]) ==> Valid(rest)
    requires forall k :: k in Keys(rest) <==> k in Keys(d[1..]) && k !in ks
    ensures Valid(d) ==> Valid(if d[0].0 in ks then rest else [d[0]] + rest)
  {
    if Valid(d) {
      KeysCons(d);
      if d[0].0 !in ks {
        KeysFront(d[0], rest);
        assert d[0].0 !in Keys(rest);
        DistinctCons(d[0].0, Keys(rest));
      }
    }
  }

  /** Removing keys that are not there changes nothing. */
  lemma {:induction false} WithoutAbsent<K(!new), V>(d: Dict<K, V>, ks: set<K>)
    requires forall i :: 0 <= i < |d| ==> d[i].0 !in ks
    ensures Without(d, ks) == d
  {
    if d != [] {
      WithoutAbsent(d[1..], ks);
      assert d[0].0 !in ks;
      assert [d[0]] + d[1..] == d;
    }
  }

  /** `d.pop(k)`; Python raises `KeyError` when `k` is absent. */
  function Pop<K(==,!new), V>(d: Dict<K, V>, k: K): (r: Dict<K, V>)
    requires k in Keys(d)
    ensures Valid(d) ==> r == Without(d, {k})
  {
    KeysCons(d);
    if d[0].0 == k then
      if Valid(d) then
        WithoutAbsent(d[1..], {k});
        d[1..]
      else
        d[1..]
    else
      [d[0]] + Pop(d[1..], k)
  }

  /** The sum of the values of a count map. */
  function SumValues<K>(d: Dict<K, nat>): nat {
    if d == [] then 0 else d[0].1 + SumValues(d[1..])
  }

  lemma PutCons<K(!new), V>(d: Dict<K, V>, k: K, v: V)
    requires d != [] && d[0].0 != k
    ensures Put(d, k, v) == [d[0]] + Put(d[1..], k, v)
  {
  }

  lemma LookupCons<K, V>(d: Dict<K, V>, k: K)
    requires d != [] && d[0].0 != k
    ensures Lookup(d, k) == Lookup(d[1..], k)
  {
  }

  lemma SumValuesCons<K>(x: (K, nat), t: Dict<K, nat>)
    ensures SumValues([x] + t) == x.1 + SumValues(t)
  {
    assert ([x] + t)[1..] == t;
  }

  lemma SumValuesPutCons<K(!new)>(d: Dict<K, nat>, k: K, c: nat)
    requires d != [] && d[0].0 != k
    ensures SumValues(Put(d, k, c)) == d[0].1 + SumValues(Put(d[1..], k, c))
  {
    PutCons(d, k, c);
    SumValuesCons(d[0], Put(d[1..], k, c));
  }

  /** Incrementing one count, `d[k] = d.get(k, 0) + 1`, adds one to the total. */
  lemma {:induction false} SumValuesBump<K(!new)>(d: Dict<K, nat>, k: K, c: nat)
    requires c == Get(d, k, 0)
    ensures SumValues(Put<K, nat>(d, k, c + 1)) == SumValues(d) + 1
  {
    if d != [] {
      if d[0].0 == k {
        assert Lookup(d, k) == Some(d[0].1);
        SumValuesCons((k, d[0].1 + 1), d[1..]);
      } else {
        LookupCons(d, k);
        SumValuesPutCons(d, k, c + 1);
        SumValuesBump(d[1..], k, c);
      }
    }
  }

  /** Removing a set of keys and then another is removing their union. */
  lemma {:induction false} WithoutWithout<K(!new), V>(d: Dict<K, V>, a: set<K>, b: set<K>)
    ensures Without(Without(d, a), b) == Without(d, a + b)
  {
    if d != [] {
      WithoutWithout(d[1..], a, b);
    }
  }

  /** Only the keys present in `d` matter to `Without`. */
  lemma {:induction false} WithoutOnKeys<K(!new), V>(d: Dict<K, V>, a: set<K>, b: set<K>)
    requires forall i :: 0 <= i < |d| ==> (d[i].0 in a <==> d[i].0 in b)
    ensures Without(d, a) == Without(d, b)
  {
    if d != [] {
      WithoutOnKeys(d[1..], a, b);
    }
  }
}

// Plain JavaScript objects as the source uses them: ordered dictionaries from
// string keys to values. `Object.entries`/`Object.keys` list entries in insertion
// order, `obj[k] = v` replaces the value of an existing key in place and appends a
// new key at the end, and `Object.assign`/object spread are that assignment
// repeated over the entries of the source object.
module JsObject {
  import opened Wrappers

  type Dict<V> = seq<(string, V)>

  /** `Object.keys(obj)`. */
  function Keys<V>(d: Dict<V>): (ks: seq<string>)
    ensures |ks| == |d| && forall i :: 0 <= i < |d| ==> ks[i] == d[i].0
  {
    seq(|d|, i requires 0 <= i < |d| => d[i].0)
  }

  /** No key occurs twice: what every `Object.entries` result satisfies. */
  predicate UniqueKeys<V>(d: Dict<V>) {
    forall i, j :: 0 <= i < j < |d| ==> d[i].0 != d[j].0
  }

  /** `k in obj`. */
  predicate Has<V>(d: Dict<V>, k: string)
    decreases |d|
  {
    d != [] && (d[0].0 == k || Has(d[1..], k))
  }

  /** A key is present exactly when some entry carries it. */
  lemma {:induction false} HasIndex<V>(d: Dict<V>, k: string)
    ensures Has(d, k) <==> exists i :: 0 <= i < |d| && d[i].0 == k
    decreases |d|
  {
    if d != [] {
      HasIndex(d[1..], k);
      if exists i :: 0 <= i < |d| && d[i].0 == k {
        var i :| 0 <= i < |d| && d[i].0 == k;
        if i > 0 {
          assert d[1..][i - 1].0 == k;
        }
      }
      if exists i :: 0 <= i < |d[1..]| && d[1..][i].0 == k {
        var i :| 0 <= i < |d[1..]| && d[1..][i].0 == k;
        assert d[i + 1].0 == k;
      }
    }
  }

  /** `obj[k]`, with `undefined` as None. */
  function Get<V>(d: Dict<V>, k: string): (r: Option<V>)
    ensures r.None? <==> !Has(d, k)
    decreases |d|
  {
    if d == [] then None
    else if d[0].0 == k then Some(d[0].1)
    else Get(d[1..], k)
  }

  /** A value found under a key is the value of an entry with that key. */
  lemma {:induction false} GetIsEntry<V>(d: Dict<V>, k: string)
    requires Has(d, k)
    ensures exists i :: 0 <= i < |d| && d[i] == (k, Get(d, k).value)
    decreases |d|
  {
    if d[0].0 != k {
      GetIsEntry(d[1..], k);
      var i :| 0 <= i < |d[1..]| && d[1..][i] == (k, Get(d[1..], k).value);
      assert d[i + 1] == (k, Get(d, k).value);
    } else {
      assert d[0] == (k, Get(d, k).value);
    }
  }

  /** With unique keys, looking up the key of an entry gives that entry's value. */
  lemma {:induction false} GetEntry<V>(d: Dict<V>, i: nat)
    requires UniqueKeys(d) && i < |d|
    ensures Get(d, d[i].0) == Some(d[i].1)
    decreases i
  {
    if i > 0 {
      GetEntry(d[1..], i - 1);
    }
  }

  /** `obj[k] = v`. */
  function Put<V>(d: Dict<V>, k: string, v: V): Dict<V>
    decreases |d|
  {
    if d == [] then [(k, v)]
    else if d[0].0 == k then [(k, v)] + d[1..]
    else [d[0]] + Put(d[1..], k, v)
  }

  /** The keys after `obj[k] = v`: unchanged when `k` was present, `k` appended otherwise. */
  lemma {:induction false} PutKeys<V>(d: Dict<V>, k: string, v: V)
    ensures Keys(Put(d, k, v)) == if Has(d, k) then Keys(d) else Keys(d) + [k]
    decreases |d|
  {
    if d != [] && d[0].0 != k {
      PutKeys(d[1..], k, v);
      assert Keys(d) == [d[0].0] + Keys(d[1..]);
      assert Keys(Put(d, k, v)) == [d[0].0] + Keys(Put(d[1..], k, v));
    }
  }

  /** After `obj[k] = v`, `obj[k]` is `v` and every other key reads as before. */
  lemma {:induction false} PutGet<V>(d: Dict<V>, k: string, v: V, k': string)
    ensures Get(Put(d, k, v), k') == if k' == k then Some(v) else Get(d, k')
    decreases |d|
  {
    if d != [] && d[0].0 != k {
      PutGet(d[1..], k, v, k');
    }
  }

  /** `obj[k] = v` keeps the keys unique. */
  lemma {:induction false} PutUnique<V>(d: Dict<V>, k: string, v: V)
    requires UniqueKeys(d)
    ensures UniqueKeys(Put(d, k, v))
  {
    var r := Put(d, k, v);
    PutKeys(d, k, v);
    HasIndex(d, k);
    forall i, j | 0 <= i < j < |r| ensures r[i].0 != r[j].0 {
      assert Keys(r)[i] == r[i].0 && Keys(r)[j] == r[j].0;
      if j < |d| {
        assert Keys(d)[i] == d[i].0 && Keys(d)[j] == d[j].0;
      } else {
        assert Keys(d)[i] == d[i].0;
      }
    }
  }

  /** Assigning the same key twice leaves only the second value, at the first position. */
  lemma {:induction false} PutPut<V>(d: Dict<V>, k: string, v1: V, v2: V)
    ensures Put(Put(d, k, v1), k, v2) == Put(d, k, v2)
    decreases |d|
  {
    if d != [] && d[0].0 != k {
      PutPut(d[1..], k, v1, v2);
    }
  }

  /** Assigning a key that is not present appends the entry. */
  lemma {:induction false} PutFresh<V>(d: Dict<V>, k: string, v: V)
    requires !Has(d, k)
    ensures Put(d, k, v) == d + [(k, v)]
    decreases |d|
  {
    if d != [] {
      PutFresh(d[1..], k, v);
    }
  }

  /** `Object.assign(target, source)`, equally `{...target, ...source}`. */
  function Assign<V>(target: Dict<V>, source: Dict<V>): Dict<V>
    decreases |source|
  {
    if source == [] then target
    else Assign(Put(target, source[0].0, source[0].1), source[1..])
  }

  /** A later value for a key wins; keys the source lacks keep the target's value. */
  lemma {:induction false} AssignGet<V>(target: Dict<V>, source: Dict<V>, k: string)
    requires UniqueKeys(source)
    ensures Get(Assign(target, source), k) == if Has(source, k) then Get(source, k) else Get(target, k)
    decreases |source|
  {
    if source != [] {
      var rest := source[1..];
      assert UniqueKeys(rest) by {
        forall i, j | 0 <= i < j < |rest| ensures rest[i].0 != rest[j].0 {
          assert rest[i] == source[i + 1] && rest[j] == source[j + 1];
        }
      }
      AssignGet(Put(target, source[0].0, source[0].1), rest, k);
      PutGet(target, source[0].0, source[0].1, k);
      if k == source[0].0 {
        HasIndex(rest, k);
        assert !Has(rest, k) by {
          forall i | 0 <= i < |rest| ensures rest[i].0 != k {
            assert rest[i] == source[i + 1];
          }
        }
      }
    }
  }

  /** Assigning fresh keys appends them in order. */
  lemma {:induction false} AssignFresh<V>(target: Dict<V>, source: Dict<V>)
    requires UniqueKeys(source)
    requires forall i :: 0 <= i < |source| ==> !Has(target, source[i].0)
    ensures Assign(target, source) == target + source
    decreases |source|
  {
    if source != [] {
      var rest := source[1..];
      var t' := Put(target, source[0].0, source[0].1);
      PutFresh(target, source[0].0, source[0].1);
      forall i | 0 <= i < |rest| ensures !Has(t', rest[i].0) {
        assert rest[i] == source[i + 1];
        assert !Has(target, source[i + 1].0);
        HasIndex(target, rest[i].0);
        HasIndex(t', rest[i].0);
      }
      assert UniqueKeys(rest) by {
        forall i, j | 0 <= i < j < |rest| ensures rest[i].0 != rest[j].0 {
          assert rest[i] == source[i + 1] && rest[j] == source[j + 1];
        }
      }
      AssignFresh(t', rest);
      assert target + source == t' + rest;
    }
  }

  /** `Object.fromEntries(pairs)`: first position, last value. */
  function FromEntries<V>(pairs: Dict<V>): Dict<V> {
    Assign([], pairs)
  }

  /** Without repeated keys, `Object.fromEntries` is the identity on the entries. */
  lemma FromEntriesUnique<V>(pairs: Dict<V>)
    requires UniqueKeys(pairs)
    ensures FromEntries(pairs) == pairs
  {
    AssignFresh([], pairs);
  }
}

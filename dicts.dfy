/**
  Plain JavaScript objects with string keys, as the code uses them: the own
  enumerable keys in insertion order, and the value of each key. Assigning an
  existing key keeps its position, a new key is appended, `delete` drops it,
  and `{...a, ...b}` keeps `a`'s order, appends `b`'s new keys and lets `b`'s
  values win.
 */
module Dicts {

  datatype Dict<V> = Dict(keys: seq<string>, vals: map<string, V>)
  {
    /** The keys are listed once each, and exactly the keys that have a value. */
    ghost predicate Valid() {
      Distinct(keys) && (forall k :: k in vals <==> k in keys)
    }
  }

  ghost predicate Distinct<T>(s: seq<T>) {
    forall i, j :: 0 <= i < j < |s| ==> s[i] != s[j]
  }

  /** The elements of `s` that are not in `ks`, in their order. */
  function Without(s: seq<string>, ks: set<string>): (r: seq<string>)
    decreases |s|
  {
    if s == [] then [] else (if s[0] in ks then [] else [s[0]]) + Without(s[1..], ks)
  }

  lemma {:induction false} WithoutMembers(s: seq<string>, ks: set<string>)
    ensures forall x :: x in Without(s, ks) <==> x in s && x !in ks
    decreases |s|
  {
    if s != [] {
      WithoutMembers(s[1..], ks);
    }
  }

  lemma {:induction false} WithoutDistinct(s: seq<string>, ks: set<string>)
    requires Distinct(s)
    ensures Distinct(Without(s, ks))
    decreases |s|
  {
    if s != [] {
      WithoutDistinct(s[1..], ks);
      WithoutMembers(s[1..], ks);
      assert s[0] !in s[1..] by {
        forall i | 0 <= i < |s[1..]| ensures s[1..][i] != s[0] { assert s[1..][i] == s[i + 1]; }
      }
      assert Distinct(s[1..]) by {
        forall i, j | 0 <= i < j < |s[1..]| ensures s[1..][i] != s[1..][j] {
          assert s[1..][i] == s[i + 1] && s[1..][j] == s[j + 1];
        }
      }
    }
  }

  lemma {:induction false} WithoutAppend(a: seq<string>, b: seq<string>, ks: set<string>)
    ensures Without(a + b, ks) == Without(a, ks) + Without(b, ks)
    decreases |a|
  {
    if a == [] {
      assert a + b == b;
    } else {
      assert (a + b)[1..] == a[1..] + b;
      WithoutAppend(a[1..], b, ks);
    }
  }

  /** Dropping keys that do not occur changes nothing. */
  lemma {:induction false} WithoutNone(s: seq<string>, ks: set<string>)
    requires forall x :: x in s ==> x !in ks
    ensures Without(s, ks) == s
    decreases |s|
  {
    if s != [] {
      WithoutNone(s[1..], ks);
    }
  }

  /** Dropping two sets of keys one after the other drops their union. */
  lemma {:induction false} WithoutTwice(s: seq<string>, a: set<string>, b: set<string>)
    ensures Without(Without(s, a), b) == Without(s, a + b)
    decreases |s|
  {
    if s != [] {
      WithoutTwice(s[1..], a, b);
      var head := if s[0] in a then [] else [s[0]];
      WithoutAppend(head, Without(s[1..], a), b);
    }
  }

  lemma AppendAssociative<T>(a: seq<T>, b: seq<T>, c: seq<T>)
    ensures a + (b + c) == (a + b) + c
  {
  }

  lemma DistinctAppend<T>(a: seq<T>, b: seq<T>)
    requires Distinct(a) && Distinct(b)
    requires forall x :: x in a ==> x !in b
    ensures Distinct(a + b)
  {
    forall i, j | 0 <= i < j < |a + b|
      ensures (a + b)[i] != (a + b)[j]
    {
      if j >= |a| && i < |a| {
        assert (a + b)[i] in a;
        assert (a + b)[j] == b[j - |a|];
      }
    }
  }

  function Empty<V>(): (d: Dict<V>)
    ensures d.Valid() && d.keys == [] && d.vals == map[]
  {
    Dict([], map[])
  }

  /** `d[k] = v` */
  function Put<V>(d: Dict<V>, k: string, v: V): (r: Dict<V>)
    requires d.Valid()
    ensures r.Valid()
    ensures r.vals == d.vals[k := v]
    ensures r.keys == if k in d.vals then d.keys else d.keys + [k]
  {
    if k in d.vals then Dict(d.keys, d.vals[k := v])
    else
      assert Distinct(d.keys + [k]) by { DistinctAppend(d.keys, [k]); }
      Dict(d.keys + [k], d.vals[k := v])
  }

  /** `delete d[k]` */
  function Remove<V>(d: Dict<V>, k: string): (r: Dict<V>)
    requires d.Valid()
    ensures r.Valid()
    ensures r.vals == d.vals - {k}
    ensures r.keys == Without(d.keys, {k})
  {
    WithoutDistinct(d.keys, {k});
    WithoutMembers(d.keys, {k});
    Dict(Without(d.keys, {k}), d.vals - {k})
  }

  /** `{...a, ...b}` */
  function Assign<V>(a: Dict<V>, b: Dict<V>): (r: Dict<V>)
    requires a.Valid() && b.Valid()
    ensures r.Valid()
    ensures r.vals == a.vals + b.vals
    ensures r.keys == a.keys + Without(b.keys, a.vals.Keys)
  {
    var added := Without(b.keys, a.vals.Keys);
    WithoutDistinct(b.keys, a.vals.Keys);
    WithoutMembers(b.keys, a.vals.Keys);
    DistinctAppend(a.keys, added);
    Dict(a.keys + added, a.vals + b.vals)
  }

  /** Puts `src[k]` under each key `k` of `ks` in turn, as a `reduce` that assigns key by key does. */
  function PutEach<V>(d: Dict<V>, ks: seq<string>, src: map<string, V>): (r: Dict<V>)
    requires d.Valid()
    requires forall k :: k in ks ==> k in src
    ensures r.Valid()
    decreases |ks|
  {
    if ks == [] then d else PutEach(Put(d, ks[0], src[ks[0]]), ks[1..], src)
  }

  /**
    Putting distinct keys that are not yet present appends them in order, and
    each gets its value from `src`.
   */
  lemma {:induction false} PutEachFresh<V>(d: Dict<V>, ks: seq<string>, src: map<string, V>)
    requires d.Valid() && Distinct(ks)
    requires forall k :: k in ks ==> k in src && k !in d.vals
    ensures PutEach(d, ks, src).keys == d.keys + ks
    ensures forall k :: k in PutEach(d, ks, src).vals <==> k in d.vals || k in ks
    ensures forall k :: k in ks ==> PutEach(d, ks, src).vals[k] == src[k]
    ensures forall k :: k in d.vals ==> PutEach(d, ks, src).vals[k] == d.vals[k]
    decreases |ks|
  {
    if ks != [] {
      var k0, rest := ks[0], ks[1..];
      DistinctTail(ks);
      var d' := Put(d, k0, src[k0]);
      forall k | k in rest ensures k in src && k !in d'.vals {
        assert k in ks;
      }
      PutEachFresh(d', rest, src);
      var r := PutEach(d', rest, src);
      assert PutEach(d, ks, src) == r;
      assert d.keys + ks == d'.keys + rest by {
        assert ks == [k0] + rest;
        AppendAssociative(d.keys, [k0], rest);
      }
      forall k ensures k in r.vals <==> k in d.vals || k in ks {
        assert k in ks <==> k == k0 || k in rest;
      }
      forall k | k in ks ensures r.vals[k] == src[k] {
        if k != k0 { assert k in rest; }
      }
      forall k | k in d.vals ensures r.vals[k] == d.vals[k] {
        assert k != k0 && k in d'.vals;
      }
    }
  }

  /** The tail of a list of distinct elements is distinct, and does not hold the head. */
  lemma DistinctTail<T>(s: seq<T>)
    requires s != [] && Distinct(s)
    ensures s[0] !in s[1..] && Distinct(s[1..])
  {
    forall i | 0 <= i < |s[1..]| ensures s[1..][i] != s[0] { assert s[1..][i] == s[i + 1]; }
    forall i, j | 0 <= i < j < |s[1..]| ensures s[1..][i] != s[1..][j] { assert s[1..][i] == s[i + 1]; }
  }

  lemma MapMinusTwice<V>(m: map<string, V>, a: set<string>, b: set<string>)
    ensures (m - a) - b == m - (a + b)
  {
  }

  lemma TakeOneMore<T>(s: seq<T>, i: nat)
    requires i < |s|
    ensures s[..i + 1] == s[..i] + [s[i]]
    ensures forall x :: x in s[..i + 1] <==> x in s[..i] || x == s[i]
  {
  }

  /** Dropping a single key that does not occur changes nothing. */
  lemma {:induction false} WithoutAbsent(s: seq<string>, k: string)
    requires k !in s
    ensures Without(s, {k}) == s
    decreases |s|
  {
    if s != [] {
      WithoutAbsent(s[1..], k);
    }
  }

  lemma DistinctAt<T>(s: seq<T>, i: nat)
    requires Distinct(s) && i < |s|
    ensures s[i] !in s[..i] && s[i] !in s[i + 1..]
  {
    forall j | 0 <= j < i ensures s[..i][j] != s[i] { assert s[..i][j] == s[j]; }
    forall j | i + 1 <= j < |s| ensures s[j] != s[i] { }
  }

  lemma SplitAt<T>(s: seq<T>, i: nat)
    requires i < |s|
    ensures s[..i + 1] == s[..i] + [s[i]]
    ensures s[i..] == [s[i]] + s[i + 1..]
  {
  }

  /** Only the dropped keys that occur matter. */
  lemma {:induction false} WithoutSameOn(s: seq<string>, a: set<string>, b: set<string>)
    requires forall x :: x in s ==> (x in a <==> x in b)
    ensures Without(s, a) == Without(s, b)
    decreases |s|
  {
    if s != [] {
      WithoutSameOn(s[1..], a, b);
    }
  }

  /** `d` without the keys in `ks`, the others in their order. */
  function RemoveAll<V>(d: Dict<V>, ks: set<string>): (r: Dict<V>)
    requires d.Valid()
    ensures r.Valid()
    ensures forall k :: k in r.vals <==> k in d.vals && k !in ks
    ensures forall k :: k in r.vals ==> r.vals[k] == d.vals[k]
  {
    WithoutDistinct(d.keys, ks);
    WithoutMembers(d.keys, ks);
    Dict(Without(d.keys, ks), d.vals - ks)
  }

  lemma RemoveIsRemoveAll<V>(d: Dict<V>, k: string)
    requires d.Valid()
    ensures Remove(d, k) == RemoveAll(d, {k})
  {
  }

  lemma RemoveAllTwice<V>(d: Dict<V>, a: set<string>, b: set<string>)
    requires d.Valid()
    ensures RemoveAll(RemoveAll(d, a), b) == RemoveAll(d, a + b)
  {
    WithoutTwice(d.keys, a, b);
    MapMinusTwice(d.vals, a, b);
  }

  /** Only the removed keys that are present matter. */
  lemma RemoveAllOnKeys<V>(d: Dict<V>, a: set<string>, b: set<string>)
    requires d.Valid() && a * d.vals.Keys == b * d.vals.Keys
    ensures RemoveAll(d, a) == RemoveAll(d, b)
  {
    forall x | x in d.keys ensures x in a <==> x in b {
      assert x in d.vals;
      assert x in a <==> x in a * d.vals.Keys;
      assert x in b <==> x in b * d.vals.Keys;
    }
    WithoutSameOn(d.keys, a, b);
    assert d.vals - a == d.vals - b;
  }

  lemma RemoveAllNone<V>(d: Dict<V>)
    requires d.Valid()
    ensures RemoveAll(d, {}) == d
  {
    WithoutNone(d.keys, {});
    assert d.vals - {} == d.vals;
  }

  /**
    How far a loop that deletes, key by key in order, the keys of `config` that
    are in `b` has got after `i` keys: `removed` are the keys deleted so far.
   */
  ghost predicate StripProgress<V>(config: Dict<V>, b: set<string>, i: nat, kept: Dict<V>, removed: set<string>) {
    && config.Valid() && i <= |config.keys| && kept.Valid()
    && kept == Dict(Without(config.keys, removed), config.vals - removed)
    && (forall k :: k in removed <==> k in b && k in config.keys[..i])
  }

  lemma StripAdvance<V>(config: Dict<V>, b: set<string>, i: nat, kept: Dict<V>, removed: set<string>)
    requires StripProgress(config, b, i, kept, removed) && i < |config.keys|
    ensures var name := config.keys[i];
      if name in b then StripProgress(config, b, i + 1, Remove(kept, name), removed + {name})
      else StripProgress(config, b, i + 1, kept, removed)
  {
    var name := config.keys[i];
    TakeOneMore(config.keys, i);
    if name in b {
      MapMinusTwice(config.vals, removed, {name});
      WithoutTwice(config.keys, removed, {name});
    }
  }

  lemma StripDone<V>(config: Dict<V>, b: set<string>, kept: Dict<V>, removed: set<string>)
    requires StripProgress(config, b, |config.keys|, kept, removed)
    ensures kept == RemoveAll(config, b)
  {
    assert config.keys[..|config.keys|] == config.keys;
    WithoutSameOn(config.keys, removed, b);
    assert removed == b * config.vals.Keys;
  }

}

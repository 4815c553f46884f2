/**
 * A plain JavaScript object used as a dictionary: string keys, each at most
 * once, enumerated (`Object.keys`, `Object.entries`) in insertion order.
 * Assigning to an existing key keeps its position; assigning to a new key
 * appends it; `delete` removes the key and keeps the order of the others.
 * Every key the script stores contains a letter or a "/", so the integer-key
 * ordering rule of JavaScript objects never applies.
 */
module Dicts {

  import opened Wrappers

  datatype Dict<V> = Dict(keys: seq<string>, entries: map<string, V>) {

    /** Keys are listed once each, and exactly the keys that have entries are listed. */
    predicate Valid() {
      && Distinct(keys)
      && (forall k :: k in keys ==> k in entries)
      && (forall k :: k in entries ==> k in keys)
    }
  }

  /** No string is listed twice. */
  predicate Distinct(s: seq<string>) {
    forall i, j :: 0 <= i < j < |s| ==> s[i] != s[j]
  }

  function Empty<V>(): (d: Dict<V>)
    ensures d.Valid() && d.keys == [] && d.entries == map[]
  {
    Dict([], map[])
  }

  /** `d[k]`, with `undefined` for a missing key. */
  function Get<V>(d: Dict<V>, k: string): (r: Option<V>)
    ensures r.Some? <==> k in d.entries
    ensures r.Some? ==> r.value == d.entries[k]
  {
    if k in d.entries then Some(d.entries[k]) else None
  }

  /** `d[k] = v`. */
  function Put<V>(d: Dict<V>, k: string, v: V): (r: Dict<V>)
    requires d.Valid()
    ensures r.Valid()
    ensures Get(r, k) == Some(v)
    ensures forall k' :: k' != k ==> Get(r, k') == Get(d, k')
    ensures k in d.entries ==> r.keys == d.keys
    ensures k !in d.entries ==> r.keys == d.keys + [k]
  {
    Dict(if k in d.entries then d.keys else d.keys + [k], d.entries[k := v])
  }

  /** `s` with every occurrence of `k` removed, the rest in order. */
  function Without(s: seq<string>, k: string): (r: seq<string>)
    ensures forall x :: x in r <==> x in s && x != k
    ensures |r| <= |s|
  {
    if s == [] then []
    else if s[0] == k then Without(s[1..], k)
    else [s[0]] + Without(s[1..], k)
  }

  /** Removing a key from a list without repetitions leaves a list without repetitions. */
  lemma {:induction false} WithoutDistinct(s: seq<string>, k: string)
    requires Distinct(s)
    ensures Distinct(Without(s, k))
  {
    if s != [] {
      var tail := s[1..];
      assert Distinct(tail) by {
        forall i, j | 0 <= i < j < |tail| ensures tail[i] != tail[j] {
          assert tail[i] == s[i + 1] && tail[j] == s[j + 1];
        }
      }
      WithoutDistinct(tail, k);
      if s[0] != k {
        var r := [s[0]] + Without(tail, k);
        assert s[0] !in tail by {
          forall j | 0 <= j < |tail| ensures tail[j] != s[0] {
            assert tail[j] == s[j + 1];
          }
        }
        forall i, j | 0 <= i < j < |r| ensures r[i] != r[j] {
          if i == 0 {
            assert r[j] in Without(tail, k);
          } else {
            assert r[i] == Without(tail, k)[i - 1] && r[j] == Without(tail, k)[j - 1];
          }
        }
        assert Without(s, k) == r;
      } else {
        assert Without(s, k) == Without(tail, k);
      }
    }
  }

  /** `delete d[k]`. */
  function Delete<V>(d: Dict<V>, k: string): (r: Dict<V>)
    requires d.Valid()
    ensures r.Valid()
    ensures Get(r, k) == None
    ensures forall k' :: k' != k ==> Get(r, k') == Get(d, k')
    ensures r.keys == Without(d.keys, k)
  {
    WithoutDistinct(d.keys, k);
    Dict(Without(d.keys, k), d.entries - {k})
  }

  /** Removing a key that is not listed changes nothing in the order. */
  lemma {:induction false} WithoutAbsent(s: seq<string>, k: string)
    requires k !in s
    ensures Without(s, k) == s
  {
    if s != [] {
      WithoutAbsent(s[1..], k);
    }
  }

  /** `Object.assign(base, update)` restricted to the keys `ks` of `update`, assigned in that order. */
  function Assign<V>(base: Dict<V>, update: Dict<V>, ks: seq<string>): (r: Dict<V>)
    requires base.Valid()
    requires forall k :: k in ks ==> k in update.entries
    ensures r.Valid()
  {
    if ks == [] then base
    else Put(Assign(base, update, ks[..|ks| - 1]), ks[|ks| - 1], update.entries[ks[|ks| - 1]])
  }

  /** After assigning the keys `ks`, each of them holds `update`'s value and every other key keeps its old one. */
  lemma {:induction false} AssignGet<V>(base: Dict<V>, update: Dict<V>, ks: seq<string>, k: string)
    requires base.Valid()
    requires forall x :: x in ks ==> x in update.entries
    ensures Get(Assign(base, update, ks), k) == if k in ks then Some(update.entries[k]) else Get(base, k)
  {
    if ks != [] {
      var init := ks[..|ks| - 1];
      assert forall x :: x in init ==> x in ks;
      AssignGet(base, update, init, k);
      assert ks == init + [ks[|ks| - 1]];
    }
  }

  /** Assignment never moves a key that was already there: the old order is a prefix of the new one. */
  lemma {:induction false} AssignKeysPrefix<V>(base: Dict<V>, update: Dict<V>, ks: seq<string>)
    requires base.Valid()
    requires forall x :: x in ks ==> x in update.entries
    ensures |base.keys| <= |Assign(base, update, ks).keys|
    ensures Assign(base, update, ks).keys[..|base.keys|] == base.keys
  {
    if ks != [] {
      var init := ks[..|ks| - 1];
      assert forall x :: x in init ==> x in ks;
      AssignKeysPrefix(base, update, init);
    }
  }

  /** When every assigned key is already present, the key order does not change at all. */
  lemma {:induction false} AssignKeysSame<V>(base: Dict<V>, update: Dict<V>, ks: seq<string>)
    requires base.Valid()
    requires forall x :: x in ks ==> x in update.entries && x in base.entries
    ensures Assign(base, update, ks).keys == base.keys
  {
    if ks != [] {
      var init := ks[..|ks| - 1];
      assert forall x :: x in init ==> x in ks;
      AssignKeysSame(base, update, init);
      AssignGet(base, update, init, ks[|ks| - 1]);
    }
  }
}

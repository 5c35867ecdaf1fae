/** Python dictionaries as association lists.

    A Python `dict` iterates in insertion order and holds each key once; it is
    modelled as the sequence of its `(key, value)` entries in that order.
    `d[k] = v` (Set), `d.setdefault`-style insertion (SetDefault) and
    `d.update(o)` (Update) are reproduced exactly: an existing key keeps its
    position, a new key is appended at the end. */
module PyDict {

  /** No key occurs twice. */
  ghost predicate UniqueKeys<K, V>(d: seq<(K, V)>)
  {
    forall i, j :: 0 <= i < j < |d| ==> d[i].0 != d[j].0
  }

  type Dict<K(==), V> = d: seq<(K, V)> | UniqueKeys(d) witness []

  /** `list(d.keys())`, in iteration order. */
  function Keys<K, V>(d: seq<(K, V)>): seq<K>
  {
    seq(|d|, i requires 0 <= i < |d| => d[i].0)
  }

  /** `k in d`. */
  predicate HasKey<K(==), V>(d: seq<(K, V)>, k: K)
  {
    k in Keys(d)
  }

  /** Position of the entry for `k`. */
  function IndexOf<K(==), V>(d: seq<(K, V)>, k: K): (i: nat)
    requires HasKey(d, k)
    ensures i < |d| && d[i].0 == k
    ensures forall j :: 0 <= j < i ==> d[j].0 != k
  {
    assert Keys(d) == [d[0].0] + Keys(d[1..]);
    if d[0].0 == k then 0 else 1 + IndexOf(d[1..], k)
  }

  /** `d[k]` for a key that is present. */
  function Get<K(==), V>(d: seq<(K, V)>, k: K): V
    requires HasKey(d, k)
  {
    d[IndexOf(d, k)].1
  }

  /** `d[k] = v`: an existing key keeps its position and takes the new value,
      a new key is appended. */
  function Set<K(==,!new), V>(d: Dict<K, V>, k: K, v: V): (r: Dict<K, V>)
    ensures Keys(r) == if HasKey(d, k) then Keys(d) else Keys(d) + [k]
    ensures HasKey(r, k) && Get(r, k) == v
    ensures forall j :: j != k && HasKey(d, j) ==> Get(r, j) == Get(d, j)
  {
    if HasKey(d, k) then
      var i := IndexOf(d, k);
      var r := d[i := (k, v)];
      assert Keys(r) == Keys(d);
      GetAt(r, i);
      forall j | j != k && HasKey(d, j) ensures Get(r, j) == Get(d, j) {
        GetAt(r, IndexOf(d, j));
      }
      r
    else
      forall i | 0 <= i < |d| ensures d[i].0 != k {
        assert Keys(d)[i] == d[i].0;
      }
      var r := d + [(k, v)];
      assert Keys(r) == Keys(d) + [k];
      GetAt(r, |d|);
      forall j | j != k && HasKey(d, j) ensures Get(r, j) == Get(d, j) {
        GetAt(r, IndexOf(d, j));
      }
      r
  }

  /** Insert `k` with value `v` only when it is absent: the step of a merge
      that never overrides a key already present. */
  function SetDefault<K(==,!new), V>(d: Dict<K, V>, k: K, v: V): (r: Dict<K, V>)
    ensures Keys(r) == if HasKey(d, k) then Keys(d) else Keys(d) + [k]
    ensures HasKey(r, k) && Get(r, k) == if HasKey(d, k) then Get(d, k) else v
    ensures forall j :: j != k && HasKey(d, j) ==> Get(r, j) == Get(d, j)
  {
    if HasKey(d, k) then d else Set(d, k, v)
  }

  /** `d.update(o)`: every entry of `o`, in `o`'s order, is written with `d[k] = v`. */
  function Update<K(==,!new), V>(d: Dict<K, V>, o: Dict<K, V>): Dict<K, V>
    decreases |o|
  {
    if o == [] then d else Update(Set(d, o[0].0, o[0].1), o[1..])
  }

  /** Every entry of `o` whose key `d` lacks is appended, in `o`'s order. */
  function MergeMissing<K(==,!new), V>(d: Dict<K, V>, o: Dict<K, V>): Dict<K, V>
    decreases |o|
  {
    if o == [] then d else MergeMissing(SetDefault(d, o[0].0, o[0].1), o[1..])
  }

  /** The keys of `ks` that do not occur in `present`, in the order of `ks`. */
  function Absent<K(==)>(ks: seq<K>, present: seq<K>): seq<K>
  {
    if ks == [] then [] else (if ks[0] in present then [] else [ks[0]]) + Absent(ks[1..], present)
  }

  // ----- lemmas -----

  /** In a dictionary, the value stored at position `i` is the one found for its key. */
  lemma GetAt<K, V>(d: seq<(K, V)>, i: nat)
    requires UniqueKeys(d) && i < |d|
    ensures HasKey(d, d[i].0) && Get(d, d[i].0) == d[i].1
  {
    assert Keys(d)[i] == d[i].0;
  }

  /** The value found for `k` is the one of its first entry. */
  lemma GetFirst<K, V>(d: seq<(K, V)>, i: nat, k: K)
    requires i < |d| && d[i].0 == k
    requires forall j :: 0 <= j < i ==> d[j].0 != k
    ensures HasKey(d, k) && Get(d, k) == d[i].1
  {
    assert Keys(d)[i] == k;
  }

  lemma KeysCons<K, V>(d: seq<(K, V)>)
    requires d != []
    ensures Keys(d) == [d[0].0] + Keys(d[1..])
  {
  }

  lemma AbsentMember<K>(ks: seq<K>, present: seq<K>, x: K)
    ensures x in Absent(ks, present) <==> x in ks && x !in present
  {
    if ks != [] {
      AbsentMember(ks[1..], present, x);
      assert ks == [ks[0]] + ks[1..];
    }
  }

  /** Absent does not depend on a key that `ks` does not contain. */
  lemma {:induction false} AbsentIgnores<K>(ks: seq<K>, present: seq<K>, x: K)
    requires x !in ks
    ensures Absent(ks, present + [x]) == Absent(ks, present)
  {
    if ks != [] {
      AbsentIgnores(ks[1..], present, x);
    }
  }

  /** The first key of a dictionary does not occur again after it. */
  lemma HeadNotInTail<K, V>(o: Dict<K, V>)
    requires o != []
    ensures Keys(o) == [o[0].0] + Keys(o[1..])
    ensures o[0].0 !in Keys(o[1..])
  {
    var rest := Keys(o[1..]);
    forall j | 0 <= j < |rest| ensures rest[j] != o[0].0 {
      assert rest[j] == o[j + 1].0;
    }
  }

  /** One step of `d.update(o)` on the keys: writing a key already present
      changes no position, writing a new key appends it. */
  lemma UpdateKeysStep<K>(dk: seq<K>, k: K, rest: seq<K>)
    requires k !in rest
    ensures var dk' := if k in dk then dk else dk + [k];
      dk' + Absent(rest, dk') == dk + Absent([k] + rest, dk)
  {
    var ks := [k] + rest;
    assert ks != [] && ks[0] == k && ks[1..] == rest;
    assert Absent(ks, dk) == (if k in dk then [] else [k]) + Absent(rest, dk);
    if k !in dk {
      AbsentIgnores(rest, dk, k);
      assert dk + [k] + Absent(rest, dk) == dk + ([k] + Absent(rest, dk));
    } else {
      assert [] + Absent(rest, dk) == Absent(rest, dk);
    }
  }

  /** After `d.update(o)`, the keys of `d` keep their positions and the keys
      new to `d` follow in `o`'s order. */
  lemma {:induction false} UpdateKeys<K(!new), V>(d: Dict<K, V>, o: Dict<K, V>)
    ensures Keys(Update(d, o)) == Keys(d) + Absent(Keys(o), Keys(d))
    decreases |o|
  {
    if o != [] {
      var k := o[0].0;
      var d' := Set(d, k, o[0].1);
      HeadNotInTail(o);
      UpdateKeys(d', o[1..]);
      UpdateKeysStep(Keys(d), k, Keys(o[1..]));
    }
  }

  /** After `d.update(o)`, a key of `o` holds `o`'s value and any other key
      keeps `d`'s: the later dictionary wins. */
  lemma {:induction false} UpdateGet<K(!new), V>(d: Dict<K, V>, o: Dict<K, V>, k: K)
    ensures HasKey(Update(d, o), k) <==> HasKey(d, k) || HasKey(o, k)
    ensures HasKey(o, k) ==> Get(Update(d, o), k) == Get(o, k)
    ensures !HasKey(o, k) && HasKey(d, k) ==> Get(Update(d, o), k) == Get(d, k)
    decreases |o|
  {
    if o != [] {
      var d' := Set(d, o[0].0, o[0].1);
      UpdateGet(d', o[1..], k);
      GetTail(o, k);
    }
  }

  /** Looking a key up in a non-empty dictionary: the first entry's key gives
      its value and is not in the tail; any other key is found in the tail. */
  lemma GetTail<K, V>(o: Dict<K, V>, k: K)
    requires o != []
    ensures HasKey(o, k) <==> k == o[0].0 || HasKey(o[1..], k)
    ensures k == o[0].0 ==> !HasKey(o[1..], k) && Get(o, k) == o[0].1
    ensures k != o[0].0 && HasKey(o, k) ==> Get(o, k) == Get(o[1..], k)
  {
    HeadNotInTail(o);
    if k == o[0].0 {
      GetAt(o, 0);
    } else if HasKey(o, k) {
      GetAt(o, IndexOf(o, k));
      GetAt(o[1..], IndexOf(o, k) - 1);
    }
  }

  /** Merging appends the missing keys of `o` in `o`'s order. */
  lemma {:induction false} MergeMissingKeys<K(!new), V>(d: Dict<K, V>, o: Dict<K, V>)
    ensures Keys(MergeMissing(d, o)) == Keys(d) + Absent(Keys(o), Keys(d))
    decreases |o|
  {
    if o != [] {
      var k := o[0].0;
      var d' := SetDefault(d, k, o[0].1);
      HeadNotInTail(o);
      MergeMissingKeys(d', o[1..]);
      UpdateKeysStep(Keys(d), k, Keys(o[1..]));
    }
  }

  /** Merging never overrides: a key of `d` keeps `d`'s value, and only keys
      missing from `d` take `o`'s value. */
  lemma {:induction false} MergeMissingGet<K(!new), V>(d: Dict<K, V>, o: Dict<K, V>, k: K)
    ensures HasKey(MergeMissing(d, o), k) <==> HasKey(d, k) || HasKey(o, k)
    ensures HasKey(d, k) ==> Get(MergeMissing(d, o), k) == Get(d, k)
    ensures !HasKey(d, k) && HasKey(o, k) ==> Get(MergeMissing(d, o), k) == Get(o, k)
    decreases |o|
  {
    if o != [] {
      var d' := SetDefault(d, o[0].0, o[0].1);
      MergeMissingGet(d', o[1..], k);
      GetTail(o, k);
    }
  }
}

/**
 * Ruby's insertion-ordered `Hash`, as used for a Scope's locals and a
 * ValuePart's data: an association list whose keys are unique.
 *
 *  - `Put` is `Hash#[]=`: an existing key keeps its position and takes the
 *    new value, a new key is appended;
 *  - `Merge` is the non-destructive `Hash#merge`: the receiver's entries,
 *    then every entry of the argument stored with `Put`, left to right;
 *  - `HashEq` is `Hash#==`: the same key/value pairs, whatever their order.
 */
module OrderedHash {
  import opened Wrappers

  /** A Ruby symbol: a local's name, a data key or a method name. */
  type Name = string

  /** The keys of an association list, in insertion order. */
  function Keys<V>(s: seq<(Name, V)>): (ks: seq<Name>)
    ensures |ks| == |s|
    ensures forall i :: 0 <= i < |s| ==> ks[i] == s[i].0
  {
    if s == [] then [] else [s[0].0] + Keys(s[1..])
  }

  /** No key occurs twice. */
  predicate UniqueKeys<V>(s: seq<(Name, V)>) {
    forall i, j :: 0 <= i < j < |s| ==> s[i].0 != s[j].0
  }

  /** A Ruby Hash with symbol keys, its entries in insertion order. */
  type Hash<V> = s: seq<(Name, V)> | UniqueKeys(s) witness []

  /** `Hash#key?` */
  predicate HasKey<V>(h: seq<(Name, V)>, k: Name) {
    k in Keys(h)
  }

  /** `Hash#[]`: the value stored under `k`, `None` (nil) when there is none. */
  function Get<V>(h: seq<(Name, V)>, k: Name): (r: Option<V>)
    ensures r.Some? <==> HasKey(h, k)
  {
    if h == [] then None
    else if h[0].0 == k then Some(h[0].1)
    else Get(h[1..], k)
  }

  /** `Hash#[]=`, applied to a copy: replace the value in place, or append. */
  function Put<V>(h: Hash<V>, k: Name, v: V): (r: Hash<V>)
    ensures Keys(r) == if HasKey(h, k) then Keys(h) else Keys(h) + [k]
  {
    if h == [] then [(k, v)]
    else if h[0].0 == k then [(k, v)] + h[1..]
    else
      var t := Put(h[1..], k, v);
      assert h[0].0 !in Keys(t) by {
        assert forall i :: 1 <= i < |h| ==> h[0].0 != h[i].0;
      }
      [h[0]] + t
  }

  /** After `h[k] = v`, `k` maps to `v` and every other key keeps its value. */
  lemma {:induction false} GetAfterPut<V>(h: Hash<V>, k: Name, v: V, k': Name)
    ensures Get(Put(h, k, v), k') == if k' == k then Some(v) else Get(h, k')
  {
    if h != [] && h[0].0 != k {
      GetAfterPut(h[1..], k, v, k');
    }
  }

  /** Storing the value a key already has gives back the very same entries. */
  lemma {:induction false} PutExisting<V>(h: Hash<V>, k: Name, v: V)
    requires Get(h, k) == Some(v)
    ensures Put(h, k, v) == h
  {
    if h[0].0 != k {
      PutExisting(h[1..], k, v);
    }
  }

  /** The keys of `ks` that are not in `known`, in the order of `ks`. */
  function FreshKeys(known: seq<Name>, ks: seq<Name>): seq<Name>
  {
    if ks == [] then []
    else (if ks[0] in known then [] else [ks[0]]) + FreshKeys(known, ks[1..])
  }

  /** Learning a key that `ks` does not contain leaves the fresh keys of `ks` unchanged. */
  lemma {:induction false} FreshKeysIgnoresAbsent(known: seq<Name>, k: Name, ks: seq<Name>)
    requires k !in ks
    ensures FreshKeys(known + [k], ks) == FreshKeys(known, ks)
  {
    if ks != [] {
      assert ks[0] in known + [k] <==> ks[0] in known;
      FreshKeysIgnoresAbsent(known, k, ks[1..]);
    }
  }

  /** `Hash#merge`: the entries of `a`, overridden and extended by those of `b`. */
  function Merge<V>(a: Hash<V>, b: Hash<V>): (r: Hash<V>)
    ensures Keys(a) <= Keys(r)
    decreases |b|
  {
    if b == [] then a
    else
      var b' : Hash<V> := b[1..];
      Merge(Put(a, b[0].0, b[0].1), b')
  }

  /**
   * The keys of `a.merge(b)`: the receiver's keys in their places, then the
   * keys only `b` has, in `b`'s order.
   */
  lemma {:induction false} MergeKeys<V>(a: Hash<V>, b: Hash<V>)
    ensures Keys(Merge(a, b)) == Keys(a) + FreshKeys(Keys(a), Keys(b))
    decreases |b|
  {
    if b != [] {
      var b' : Hash<V> := b[1..];
      var k0 := b[0].0;
      var a' := Put(a, k0, b[0].1);
      assert Merge(a, b) == Merge(a', b');
      MergeKeys(a', b');
      assert Keys(b) == [k0] + Keys(b');
      assert k0 !in Keys(b') by {
        assert forall i :: 1 <= i < |b| ==> k0 != b[i].0;
      }
      FreshKeysStep(Keys(a), k0, Keys(b'), Keys(a'));
    }
  }

  /** One step of `MergeKeys`, on the key lists alone. */
  lemma FreshKeysStep(known: seq<Name>, k: Name, ks: seq<Name>, known': seq<Name>)
    requires known' == if k in known then known else known + [k]
    requires k !in ks
    ensures known' + FreshKeys(known', ks) == known + FreshKeys(known, [k] + ks)
  {
    assert ([k] + ks)[1..] == ks;
    if k !in known {
      FreshKeysIgnoresAbsent(known, k, ks);
    }
  }

  /** In `a.merge(b)` a key of `b` has `b`'s value; every other key keeps `a`'s (or stays absent). */
  lemma {:induction false} GetAfterMerge<V>(a: Hash<V>, b: Hash<V>, k: Name)
    ensures Get(Merge(a, b), k) == if HasKey(b, k) then Get(b, k) else Get(a, k)
    decreases |b|
  {
    if b != [] {
      var b' : Hash<V> := b[1..];
      GetAfterMerge(Put(a, b[0].0, b[0].1), b', k);
      GetAfterPut(a, b[0].0, b[0].1, k);
      assert Keys(b) == [b[0].0] + Keys(b');
      if k == b[0].0 {
        assert !HasKey(b', k) by {
          assert forall i :: 1 <= i < |b| ==> b[0].0 != b[i].0;
        }
      }
    }
  }

  /** The Hash as a finite map, forgetting the order of its entries. */
  function ToMap<V>(h: seq<(Name, V)>): map<Name, V>
  {
    if h == [] then map[] else ToMap(h[1..])[h[0].0 := h[0].1]
  }

  /** The map holds exactly the hash's keys, each with the value `Hash#[]` finds. */
  lemma {:induction false} ToMapAt<V>(h: seq<(Name, V)>, k: Name)
    ensures k in ToMap(h) <==> HasKey(h, k)
    ensures k in ToMap(h) ==> Get(h, k) == Some(ToMap(h)[k])
  {
    if h != [] {
      ToMapAt(h[1..], k);
      assert Keys(h) == [h[0].0] + Keys(h[1..]);
    }
  }

  /** `Hash#==`: the same key/value pairs, in any order. */
  predicate HashEq<V(==)>(a: seq<(Name, V)>, b: seq<(Name, V)>) {
    ToMap(a) == ToMap(b)
  }

  /** Every entry of `b` is already in `a` with an equal value. */
  ghost predicate Absorbs<V>(a: seq<(Name, V)>, b: seq<(Name, V)>) {
    forall k :: HasKey(b, k) ==> Get(a, k) == Get(b, k)
  }

  /** Every key looks up the same value (or nil) in both. */
  ghost predicate SameLookups<V>(a: seq<(Name, V)>, b: seq<(Name, V)>) {
    forall k :: Get(a, k) == Get(b, k)
  }

  /** Two hashes are `==` exactly when every key looks up the same value in both. */
  lemma HashEqIffSameLookups<V>(a: seq<(Name, V)>, b: seq<(Name, V)>)
    ensures HashEq(a, b) <==> SameLookups(a, b)
  {
    var ma, mb := ToMap(a), ToMap(b);
    if SameLookups(a, b) {
      assert ma.Keys == mb.Keys by {
        forall k ensures k in ma <==> k in mb {
          ToMapAt(a, k);
          ToMapAt(b, k);
        }
      }
      forall k | k in ma ensures ma[k] == mb[k] {
        ToMapAt(a, k);
        ToMapAt(b, k);
        assert Get(a, k) == Get(b, k);
      }
    }
    if HashEq(a, b) {
      forall k ensures Get(a, k) == Get(b, k) {
        ToMapAt(a, k);
        ToMapAt(b, k);
      }
    }
  }

  /** Merging entries that are all already present changes nothing, not even the order. */
  lemma {:induction false} MergeAbsorbed<V>(a: Hash<V>, b: Hash<V>)
    requires Absorbs(a, b)
    ensures Merge(a, b) == a
    decreases |b|
  {
    if b != [] {
      var b' : Hash<V> := b[1..];
      assert Get(a, b[0].0) == Some(b[0].1);
      PutExisting(a, b[0].0, b[0].1);
      forall k | HasKey(b', k) ensures Get(a, k) == Get(b', k) {
        assert Keys(b') == Keys(b)[1..];
        assert HasKey(b, k);
        assert k != b[0].0 by {
          assert forall i :: 1 <= i < |b| ==> b[0].0 != b[i].0;
        }
      }
      MergeAbsorbed(a, b');
    }
  }

  /**
   * `a.merge(b) == a` (Ruby's order-insensitive `Hash#==`) holds exactly when
   * the merge leaves the entry list untouched, and exactly when every entry
   * of `b` is already in `a` with an equal value.
   */
  lemma MergeUnchangedIff<V>(a: Hash<V>, b: Hash<V>)
    ensures HashEq(Merge(a, b), a) <==> Merge(a, b) == a
    ensures Merge(a, b) == a <==> Absorbs(a, b)
  {
    HashEqIffSameLookups(Merge(a, b), a);
    if SameLookups(Merge(a, b), a) {
      forall k | HasKey(b, k) ensures Get(a, k) == Get(b, k) {
        GetAfterMerge(a, b, k);
      }
    }
    if Absorbs(a, b) {
      MergeAbsorbed(a, b);
    }
  }

  /** Storing a key the hash does not have appends the entry at the end. */
  lemma {:induction false} PutFresh<V>(h: Hash<V>, k: Name, v: V)
    requires !HasKey(h, k)
    ensures Put(h, k, v) == h + [(k, v)]
  {
    if h != [] {
      assert Keys(h) == [h[0].0] + Keys(h[1..]);
      PutFresh(h[1..], k, v);
    }
  }

  /** No key of `b` is a key of `a`. */
  ghost predicate DisjointKeys<V>(a: seq<(Name, V)>, b: seq<(Name, V)>) {
    forall k :: HasKey(b, k) ==> !HasKey(a, k)
  }

  /** Merging a hash with no key in common appends its entries in their order. */
  lemma {:induction false} MergeFresh<V>(a: Hash<V>, b: Hash<V>)
    requires DisjointKeys(a, b)
    ensures Merge(a, b) == a + b
    decreases |b|
  {
    if b != [] {
      assert HasKey(b, b[0].0);
      PutFresh(a, b[0].0, b[0].1);
      DisjointAfterHead(a, b);
      MergeFresh(a + [b[0]], b[1..]);
      MoveHead(a, b);
    }
  }

  /** Moving the first entry of `b` to the end of `a` leaves the concatenation unchanged. */
  lemma MoveHead<V>(a: seq<(Name, V)>, b: seq<(Name, V)>)
    requires b != []
    ensures (a + [b[0]]) + b[1..] == a + b
  {
  }

  /** Moving the first entry of `b` over to `a` keeps the two disjoint. */
  lemma DisjointAfterHead<V>(a: Hash<V>, b: Hash<V>)
    requires DisjointKeys(a, b) && b != []
    ensures DisjointKeys(a + [b[0]], b[1..])
  {
    assert Keys(b) == [b[0].0] + Keys(b[1..]);
    assert Keys(a + [b[0]]) == Keys(a) + [b[0].0];
    forall k | HasKey(b[1..], k) ensures !HasKey(a + [b[0]], k) {
      assert HasKey(b, k);
      assert k != b[0].0 by {
        assert forall i :: 1 <= i < |b| ==> b[0].0 != b[i].0;
      }
    }
  }
}

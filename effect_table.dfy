/** The keyed effect tables of a clothing table. A C# `Dictionary<uint, V>` that is only ever
    added to enumerates its entries in insertion order; the model keeps exactly that: the
    entries in enumeration order, with no key twice. */
module EffectTables {
  import opened Numbers

  /** No key occurs in two entries, the invariant every `Dictionary` keeps. */
  predicate UniqueKeys<V>(d: seq<(uint32, V)>)
  {
    forall i, j :: 0 <= i < j < |d| ==> d[i].0 != d[j].0
  }

  function Keys<V>(d: seq<(uint32, V)>): set<uint32>
  {
    set i | 0 <= i < |d| :: d[i].0
  }

  /** The position of the first entry with key `k`, or `|d|` when there is none. */
  function IndexOf<V>(d: seq<(uint32, V)>, k: uint32): (i: nat)
    ensures i <= |d|
    ensures i < |d| <==> k in Keys(d)
    ensures i < |d| ==> d[i].0 == k
    ensures forall j :: 0 <= j < i ==> d[j].0 != k
  {
    if d == [] then 0
    else if d[0].0 == k then 0
    else
      assert Keys(d) == {d[0].0} + Keys(d[1..]) by {
        forall x | x in Keys(d) ensures x in {d[0].0} + Keys(d[1..]) {
          var j :| 0 <= j < |d| && d[j].0 == x;
          if j > 0 { assert d[1..][j - 1].0 == x; }
        }
      }
      1 + IndexOf(d[1..], k)
  }

  /** `ContainsKey`. */
  predicate ContainsKey<V>(d: seq<(uint32, V)>, k: uint32)
    ensures ContainsKey(d, k) <==> k in Keys(d)
  {
    IndexOf(d, k) < |d|
  }

  /** The dictionary as a map from key to value. */
  function ToMap<V>(d: seq<(uint32, V)>): map<uint32, V>
  {
    map k | k in Keys(d) :: ValueOf(d, k)
  }

  /** The value of the entry with key `k`. */
  function ValueOf<V>(d: seq<(uint32, V)>, k: uint32): V
    requires k in Keys(d)
  {
    d[IndexOf(d, k)].1
  }

  /** `d[k] = v` when `k` is present (the entry is overwritten where it stands), `d.Add(k, v)`
      when it is not (the entry goes at the end). */
  function Upsert<V>(d: seq<(uint32, V)>, k: uint32, v: V): seq<(uint32, V)>
  {
    if ContainsKey(d, k) then d[IndexOf(d, k) := (k, v)] else d + [(k, v)]
  }

  /** Every entry of `o`, in `o`'s order, upserted into `d`. */
  function UpsertAll<V>(d: seq<(uint32, V)>, o: seq<(uint32, V)>): seq<(uint32, V)>
  {
    if o == [] then d
    else
      var last := o[|o| - 1];
      Upsert(UpsertAll(d, o[..|o| - 1]), last.0, last.1)
  }

  // ---------------------------------------------------------------------------------------
  // Lemmas

  /** Upserting the entries of `o` one at a time, in order, is `UpsertAll`. */
  lemma UpsertAllStep<V>(d: seq<(uint32, V)>, o: seq<(uint32, V)>, i: nat)
    requires i < |o|
    ensures UpsertAll(d, o[..i + 1]) == Upsert(UpsertAll(d, o[..i]), o[i].0, o[i].1)
  {
    assert o[..i + 1][..i] == o[..i];
  }

  /** Two entry lists with the same key at every position find every key at the same place. */
  lemma SameKeysSameIndex<V>(d: seq<(uint32, V)>, e: seq<(uint32, V)>, k: uint32)
    requires |d| == |e| && forall j :: 0 <= j < |d| ==> d[j].0 == e[j].0
    ensures IndexOf(d, k) == IndexOf(e, k)
  {
  }

  /** An entry list that extends `d` finds the keys of `d` where `d` does. */
  lemma PrefixIndex<V>(d: seq<(uint32, V)>, e: seq<(uint32, V)>, k: uint32)
    requires |d| <= |e| && forall j :: 0 <= j < |d| ==> d[j].0 == e[j].0
    requires k in Keys(d)
    ensures IndexOf(e, k) == IndexOf(d, k)
  {
  }

  /** In a dictionary every entry is the one its key finds, so the map view holds it. */
  lemma ToMapAt<V>(d: seq<(uint32, V)>, j: nat)
    requires UniqueKeys(d) && j < |d|
    ensures d[j].0 in ToMap(d) && ToMap(d)[d[j].0] == d[j].1
  {
    assert d[j].0 in Keys(d);
  }

  /** Overwriting the entry of a present key changes its value and nothing else. */
  lemma UpsertOverwrites<V>(d: seq<(uint32, V)>, k: uint32, v: V)
    requires UniqueKeys(d) && ContainsKey(d, k)
    ensures UniqueKeys(Upsert(d, k, v))
    ensures Keys(Upsert(d, k, v)) == Keys(d)
    ensures ToMap(Upsert(d, k, v)) == ToMap(d)[k := v]
  {
    var i := IndexOf(d, k);
    var r := d[i := (k, v)];
    assert Upsert(d, k, v) == r;
    SameKeysSameSet(d, r);
    OverwriteView(d, r, i, k, v);
  }

  lemma OverwriteView<V>(d: seq<(uint32, V)>, r: seq<(uint32, V)>, i: nat, k: uint32, v: V)
    requires i == IndexOf(d, k) < |d| && r == d[i := (k, v)]
    requires Keys(r) == Keys(d)
    ensures ToMap(r) == ToMap(d)[k := v]
  {
    forall x | x in Keys(r) ensures ValueOf(r, x) == if x == k then v else ValueOf(d, x) {
      OverwriteAt(d, r, i, k, v, x);
    }
  }

  lemma OverwriteAt<V>(d: seq<(uint32, V)>, r: seq<(uint32, V)>, i: nat, k: uint32, v: V, x: uint32)
    requires i == IndexOf(d, k) < |d| && r == d[i := (k, v)]
    requires x in Keys(r) && Keys(r) == Keys(d)
    ensures ValueOf(r, x) == if x == k then v else ValueOf(d, x)
  {
    SameKeysSameIndex(d, r, x);
    var j := IndexOf(d, x);
    if x == k {
      assert j == i;
    } else {
      assert j != i && r[j] == d[j];
    }
  }

  /** Entry lists with the same key at every position have the same keys, and one of them has
      unique keys when the other has. */
  lemma SameKeysSameSet<V>(d: seq<(uint32, V)>, e: seq<(uint32, V)>)
    requires |d| == |e| && forall j :: 0 <= j < |d| ==> d[j].0 == e[j].0
    ensures Keys(d) == Keys(e)
    ensures UniqueKeys(d) ==> UniqueKeys(e)
  {
    forall x | x in Keys(e) ensures x in Keys(d) {
      var j :| 0 <= j < |e| && e[j].0 == x;
      assert d[j].0 == x;
    }
  }

  /** Adding an absent key appends one entry and maps the key to the new value. */
  lemma UpsertAppends<V>(d: seq<(uint32, V)>, k: uint32, v: V)
    requires UniqueKeys(d) && !ContainsKey(d, k)
    ensures UniqueKeys(Upsert(d, k, v))
    ensures Keys(Upsert(d, k, v)) == Keys(d) + {k}
    ensures ToMap(Upsert(d, k, v)) == ToMap(d)[k := v]
  {
    var r := d + [(k, v)];
    assert Upsert(d, k, v) == r;
    AppendKeys(d, r, k, v);
    AppendView(d, r, k, v);
  }

  lemma AppendKeys<V>(d: seq<(uint32, V)>, r: seq<(uint32, V)>, k: uint32, v: V)
    requires UniqueKeys(d) && k !in Keys(d) && r == d + [(k, v)]
    ensures UniqueKeys(r) && Keys(r) == Keys(d) + {k}
  {
    assert r[|d|].0 == k;
    forall x | x in Keys(r) ensures x in Keys(d) + {k} {
      var j :| 0 <= j < |r| && r[j].0 == x;
      if j < |d| { assert d[j].0 == x; }
    }
    forall x | x in Keys(d) ensures x in Keys(r) {
      var j :| 0 <= j < |d| && d[j].0 == x;
      assert r[j].0 == x;
    }
  }

  lemma AppendView<V>(d: seq<(uint32, V)>, r: seq<(uint32, V)>, k: uint32, v: V)
    requires k !in Keys(d) && r == d + [(k, v)] && Keys(r) == Keys(d) + {k}
    ensures ToMap(r) == ToMap(d)[k := v]
  {
    forall x | x in Keys(r) ensures ValueOf(r, x) == if x == k then v else ValueOf(d, x) {
      if x == k {
        assert IndexOf(r, k) == |d|;
      } else {
        PrefixIndex(d, r, x);
      }
    }
  }

  /** One upsert: the key now maps to the new value and nothing else changes; keys stay
      unique; existing entries keep their positions; a new key goes at the end. */
  lemma UpsertFacts<V>(d: seq<(uint32, V)>, k: uint32, v: V)
    requires UniqueKeys(d)
    ensures UniqueKeys(Upsert(d, k, v))
    ensures Keys(Upsert(d, k, v)) == Keys(d) + {k}
    ensures ToMap(Upsert(d, k, v)) == ToMap(d)[k := v]
    ensures |Upsert(d, k, v)| >= |d|
    ensures forall j :: 0 <= j < |d| ==> Upsert(d, k, v)[j].0 == d[j].0
    ensures k !in Keys(d) ==> Upsert(d, k, v) == d + [(k, v)]
  {
    if ContainsKey(d, k) {
      UpsertOverwrites(d, k, v);
    } else {
      UpsertAppends(d, k, v);
    }
  }

  /** A dictionary is its entries before the last with the last one added. */
  lemma {:induction false} SplitLast<V>(o: seq<(uint32, V)>)
    requires UniqueKeys(o) && o != []
    ensures UniqueKeys(o[..|o| - 1])
    ensures !ContainsKey(o[..|o| - 1], o[|o| - 1].0)
    ensures Upsert(o[..|o| - 1], o[|o| - 1].0, o[|o| - 1].1) == o
  {
    assert o[..|o| - 1] + [o[|o| - 1]] == o;
  }

  lemma MapOverrideUpdate<V>(m1: map<uint32, V>, m2: map<uint32, V>, k: uint32, v: V)
    ensures (m1 + m2)[k := v] == m1 + m2[k := v]
  {
  }

  /** The map view of a merge is the base's map overridden by the overlay's map. */
  lemma {:induction false} UpsertAllView<V>(d: seq<(uint32, V)>, o: seq<(uint32, V)>)
    requires UniqueKeys(d) && UniqueKeys(o)
    ensures UniqueKeys(UpsertAll(d, o))
    ensures Keys(UpsertAll(d, o)) == Keys(d) + Keys(o)
    ensures ToMap(UpsertAll(d, o)) == ToMap(d) + ToMap(o)
    decreases |o|
  {
    if o != [] {
      var o', last := o[..|o| - 1], o[|o| - 1];
      SplitLast(o);
      UpsertAllView(d, o');
      UpsertFacts(UpsertAll(d, o'), last.0, last.1);
      UpsertFacts(o', last.0, last.1);
      MapOverrideUpdate(ToMap(d), ToMap(o'), last.0, last.1);
    }
  }

  /** A merge leaves every entry of the base at its position and puts after them only keys
      the base did not have. */
  lemma {:induction false} UpsertAllOrder<V>(d: seq<(uint32, V)>, o: seq<(uint32, V)>)
    requires UniqueKeys(d) && UniqueKeys(o)
    ensures |UpsertAll(d, o)| >= |d|
    ensures forall j :: 0 <= j < |d| ==> UpsertAll(d, o)[j].0 == d[j].0
    ensures forall j :: |d| <= j < |UpsertAll(d, o)| ==> UpsertAll(d, o)[j].0 !in Keys(d)
    decreases |o|
  {
    if o != [] {
      var o', last := o[..|o| - 1], o[|o| - 1];
      var r' := UpsertAll(d, o');
      SplitLast(o);
      UpsertAllOrder(d, o');
      UpsertAllView(d, o');
      UpsertFacts(r', last.0, last.1);
      var r := UpsertAll(d, o);
      forall j | |d| <= j < |r| ensures r[j].0 !in Keys(d) {
        if j < |r'| {
          assert r[j].0 == r'[j].0;
        } else {
          assert r == r' + [last];
        }
      }
    }
  }

  /** Merging `o` into `d`: a key of `o` maps to `o`'s value, whether it overwrote an entry of
      `d` or was inserted; a key only in `d` keeps `d`'s value; the keys are the union; the
      entries of `d` keep their positions and the new keys come after them. */
  lemma UpsertAllFacts<V>(d: seq<(uint32, V)>, o: seq<(uint32, V)>)
    requires UniqueKeys(d) && UniqueKeys(o)
    ensures UniqueKeys(UpsertAll(d, o))
    ensures Keys(UpsertAll(d, o)) == Keys(d) + Keys(o)
    ensures forall k :: k in Keys(o) ==> ToMap(UpsertAll(d, o))[k] == ToMap(o)[k]
    ensures forall k :: k in Keys(d) && k !in Keys(o) ==> ToMap(UpsertAll(d, o))[k] == ToMap(d)[k]
    ensures |UpsertAll(d, o)| >= |d|
    ensures forall j :: 0 <= j < |d| ==> UpsertAll(d, o)[j].0 == d[j].0
    ensures forall j :: |d| <= j < |UpsertAll(d, o)| ==> UpsertAll(d, o)[j].0 !in Keys(d)
  {
    UpsertAllView(d, o);
    UpsertAllOrder(d, o);
  }
}

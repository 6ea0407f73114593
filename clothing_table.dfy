/** The clothing record and the merge of a JSON-authored record into a dat-sourced one. */
module ClothingTables {
  import opened Numbers
  import opened EffectTables

  /** `ClothingTable`: a record id and its two keyed effect tables. `B` and `S` stand for the
      effect types (`ClothingBaseEffect`, `CloSubPalEffect`), whose contents the merge never
      looks at. */
  class ClothingTable<B, S> {
    var id: uint32
    var clothingBaseEffects: seq<(uint32, B)>
    var clothingSubPalEffects: seq<(uint32, S)>

    /** Both tables are dictionaries: no key twice. */
    ghost predicate Valid()
      reads this
    {
      UniqueKeys(clothingBaseEffects) && UniqueKeys(clothingSubPalEffects)
    }

    constructor (id: uint32, baseEffects: seq<(uint32, B)>, subPalEffects: seq<(uint32, S)>)
      requires UniqueKeys(baseEffects) && UniqueKeys(subPalEffects)
      ensures Valid()
      ensures this.id == id
      ensures clothingBaseEffects == baseEffects && clothingSubPalEffects == subPalEffects
    {
      this.id := id;
      clothingBaseEffects := baseEffects;
      clothingSubPalEffects := subPalEffects;
    }
  }

  /** `MergeClothingTable`: every entry of `cb2`'s two tables is written into `cb`'s tables in
      place, overwriting an entry with the same key or adding a new one; `cb` itself is
      returned, its id untouched, and `cb2` is not modified. */
  method MergeClothingTable<B, S>(cb: ClothingTable<B, S>, cb2: ClothingTable<B, S>)
    returns (r: ClothingTable<B, S>)
    requires cb.Valid() && cb2.Valid()
    modifies cb
    ensures r == cb && cb.Valid() && cb.id == old(cb.id)
    ensures cb.clothingBaseEffects
         == UpsertAll(old(cb.clothingBaseEffects), old(cb2.clothingBaseEffects))
    ensures cb.clothingSubPalEffects
         == UpsertAll(old(cb.clothingSubPalEffects), old(cb2.clothingSubPalEffects))
    ensures cb != cb2 ==> unchanged(cb2)
  {
    var baseEffects := cb2.clothingBaseEffects;
    var i := 0;
    while i < |baseEffects|
      invariant 0 <= i <= |baseEffects|
      invariant cb.clothingBaseEffects == UpsertAll(old(cb.clothingBaseEffects), baseEffects[..i])
      invariant cb.clothingSubPalEffects == old(cb.clothingSubPalEffects) && cb.id == old(cb.id)
    {
      var (key, value) := baseEffects[i];
      if ContainsKey(cb.clothingBaseEffects, key) {
        cb.clothingBaseEffects := cb.clothingBaseEffects[IndexOf(cb.clothingBaseEffects, key) := (key, value)];
      } else {
        cb.clothingBaseEffects := cb.clothingBaseEffects + [(key, value)];
      }
      UpsertAllStep(old(cb.clothingBaseEffects), baseEffects, i);
      i := i + 1;
    }
    assert baseEffects[..i] == baseEffects;

    var subPalEffects := cb2.clothingSubPalEffects;
    var j := 0;
    while j < |subPalEffects|
      invariant 0 <= j <= |subPalEffects|
      invariant cb.clothingSubPalEffects
             == UpsertAll(old(cb.clothingSubPalEffects), subPalEffects[..j])
      invariant cb.clothingBaseEffects
             == UpsertAll(old(cb.clothingBaseEffects), old(cb2.clothingBaseEffects))
      invariant cb.id == old(cb.id)
    {
      var (key, value) := subPalEffects[j];
      if ContainsKey(cb.clothingSubPalEffects, key) {
        cb.clothingSubPalEffects := cb.clothingSubPalEffects[IndexOf(cb.clothingSubPalEffects, key) := (key, value)];
      } else {
        cb.clothingSubPalEffects := cb.clothingSubPalEffects + [(key, value)];
      }
      UpsertAllStep(old(cb.clothingSubPalEffects), subPalEffects, j);
      j := j + 1;
    }
    assert subPalEffects[..j] == subPalEffects;

    UpsertAllView(old(cb.clothingBaseEffects), old(cb2.clothingBaseEffects));
    UpsertAllView(old(cb.clothingSubPalEffects), old(cb2.clothingSubPalEffects));
    r := cb;
  }

  /** Merging into empty tables, as a stub provides them, yields the overlay's tables exactly. */
  lemma {:induction false} MergeIntoEmpty<V>(o: seq<(uint32, V)>)
    requires UniqueKeys(o)
    ensures UpsertAll([], o) == o
    decreases |o|
  {
    if o != [] {
      SplitLast(o);
      MergeIntoEmpty(o[..|o| - 1]);
    }
  }

  /** Merging a table with itself leaves it as it was: every write overwrites a key with the
      value it already holds. */
  lemma MergeWithItself<V>(d: seq<(uint32, V)>)
    requires UniqueKeys(d)
    ensures UpsertAll(d, d) == d
  {
    assert d[..|d|] == d;
    OwnPrefixMerge(d, |d|);
  }

  lemma {:induction false} OwnPrefixMerge<V>(d: seq<(uint32, V)>, i: nat)
    requires UniqueKeys(d) && i <= |d|
    ensures UpsertAll(d, d[..i]) == d
    decreases i
  {
    if i > 0 {
      assert d[..i][..i - 1] == d[..i - 1];
      OwnPrefixMerge(d, i - 1);
      var k := d[i - 1].0;
      assert k in Keys(d);
      assert IndexOf(d, k) == i - 1;
    }
  }

  /** The worked example of a merge: base {1: A, 2: B} and overlay {2: C, 3: D} give
      {1: A, 2: C, 3: D}, with 3 added after the base's entries. */
  lemma MergeExample()
    ensures UpsertAll([(1, 'A'), (2, 'B')], [(2, 'C'), (3, 'D')]) == [(1, 'A'), (2, 'C'), (3, 'D')]
  {
    var d: seq<(uint32, char)> := [(1, 'A'), (2, 'B')];
    var o: seq<(uint32, char)> := [(2, 'C'), (3, 'D')];
    assert o[..1] == [(2, 'C')] && o[..1][..0] == [];
    assert IndexOf(d, 2) == 1;
    var d1 := [(1, 'A'), (2, 'C')];
    assert UpsertAll(d, o[..1]) == d1;
    assert IndexOf(d1, 3) == 2;
  }
}

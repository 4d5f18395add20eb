/**
 * The newer tile representation (tile.rs): a tile is a colour paired with
 * one of five kinds, and `Tiles` wraps a hash map from coordinates to
 * tiles. The hash map is a Dafny `map` held in a field that the mutating
 * methods reassign; its iteration order is left open.
 */
module ColouredTile {
  import opened Wrappers
  import opened Axial

  datatype Colour = White | Black {
    /** The other side. */
    function Other(): (c: Colour)
      ensures c != this
    {
      match this
      case White => Black
      case Black => White
    }
  }

  /** Taking the other colour twice gives the colour back. */
  lemma OtherInvolution(c: Colour)
    ensures c.Other().Other() == c
    ensures White.Other() == Black && Black.Other() == White
  {
  }

  datatype TileType = Ant | Grasshopper | Beetle | Queen | Spider

  type Tile = (Colour, TileType)

  /** The keys of `ks` are pairwise distinct. */
  predicate Distinct<K(==)>(ks: seq<K>) {
    forall i, j :: 0 <= i < j < |ks| ==> ks[i] != ks[j]
  }

  class Tiles {
    var entries: map<Axial, Tile>

    constructor (entries: map<Axial, Tile>)
      ensures this.entries == entries
    {
      this.entries := entries;
    }

    function Len(): (n: nat)
      reads this
      ensures n == |entries.Keys|
    {
      |entries|
    }

    function Get(k: Axial): (v: Option<Tile>)
      reads this
      ensures v.Some? <==> k in entries
      ensures v.Some? ==> v.value == entries[k]
    {
      if k in entries then Some(entries[k]) else None
    }

    function ContainsKey(k: Axial): (b: bool)
      reads this
      ensures b <==> Get(k).Some?
    {
      k in entries
    }

    /** Stores `v` at `k` and returns what was there before. */
    method Insert(k: Axial, v: Tile) returns (previous: Option<Tile>)
      modifies this
      ensures previous == old(Get(k))
      ensures Get(k) == Some(v)
      ensures forall k' :: k' != k ==> Get(k') == old(Get(k'))
      ensures Len() == if previous.None? then old(Len()) + 1 else old(Len())
    {
      previous := Get(k);
      entries := entries[k := v];
    }

    /** Inserts every entry of `other`, overwriting entries already present. */
    method Extend(other: map<Axial, Tile>)
      modifies this
      ensures forall k :: k in other ==> Get(k) == Some(other[k])
      ensures forall k :: k !in other ==> Get(k) == old(Get(k))
    {
      entries := entries + other;
    }

    method Clear()
      modifies this
      ensures Len() == 0
      ensures forall k :: !ContainsKey(k)
    {
      entries := map[];
    }

    /** Every key once, in an unspecified order. */
    method Keys() returns (ks: seq<Axial>)
      ensures Distinct(ks)
      ensures forall k :: k in ks <==> k in entries
      ensures |ks| == Len()
    {
      ks := [];
      var rest := entries.Keys;
      while rest != {}
        invariant rest <= entries.Keys
        invariant Distinct(ks)
        invariant forall k :: k in ks <==> k in entries && k !in rest
        invariant |ks| + |rest| == |entries.Keys|
        decreases rest
      {
        var k :| k in rest;
        ks := ks + [k];
        rest := rest - {k};
      }
    }

    /** Every (key, tile) entry once, in an unspecified order. */
    method Iter() returns (es: seq<(Axial, Tile)>)
      ensures |es| == Len()
      ensures forall i, j :: 0 <= i < j < |es| ==> es[i].0 != es[j].0
      ensures forall i :: 0 <= i < |es| ==> es[i].0 in entries && entries[es[i].0] == es[i].1
      ensures forall k :: k in entries ==> exists i :: 0 <= i < |es| && es[i].0 == k
    {
      var ks := Keys();
      es := [];
      var n := 0;
      while n < |ks|
        invariant n <= |ks| && |es| == n
        invariant forall i :: 0 <= i < n ==> es[i] == (ks[i], entries[ks[i]])
      {
        es := es + [(ks[n], entries[ks[n]])];
        n := n + 1;
      }
      forall k | k in entries
        ensures exists i :: 0 <= i < |es| && es[i].0 == k
      {
        var i :| 0 <= i < |ks| && ks[i] == k;
        assert es[i].0 == k;
      }
    }
  }
}

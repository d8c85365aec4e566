/**
 * The hex-keyed view of the battle field read by targeting and by the enemy
 * policy: the tile entity at each hex and the hex of each tile entity.
 */
module HexField {
  import opened Character
  import opened Wrappers
  import opened HexGrid

  datatype HexBattleField = HexBattleField(tiles: map<Hex, Entity>, hexes: map<Entity, Hex>)

  /** `hexes` is the exact inverse of `tiles`. */
  predicate Valid(bf: HexBattleField)
  {
    && (forall h :: h in bf.tiles ==> bf.tiles[h] in bf.hexes && bf.hexes[bf.tiles[h]] == h)
    && (forall e :: e in bf.hexes ==> bf.hexes[e] in bf.tiles && bf.tiles[bf.hexes[e]] == e)
  }

  /** `order` is an iteration order of the tiles: each hex of the field exactly once. */
  ghost predicate IteratesTiles(order: seq<Hex>, bf: HexBattleField)
  {
    && (forall h :: h in order <==> h in bf.tiles)
    && (forall i, j :: 0 <= i < j < |order| ==> order[i] != order[j])
  }

  /** `BattleField::hex`: the hex of a tile entity. */
  function HexOf(bf: HexBattleField, tile: Entity): (r: Option<Hex>)
    ensures r.Some? <==> tile in bf.hexes
    ensures r.Some? ==> r.value == bf.hexes[tile]
  {
    if tile in bf.hexes then Some(bf.hexes[tile]) else None
  }

  /** `BattleField::tile(&Hex)`: the tile entity at a hex. */
  function TileAt(bf: HexBattleField, h: Hex): (r: Option<Entity>)
    ensures r.Some? <==> h in bf.tiles
    ensures r.Some? ==> r.value == bf.tiles[h]
  {
    if h in bf.tiles then Some(bf.tiles[h]) else None
  }
}

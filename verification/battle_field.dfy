/**
 * The battle field: a rectangular grid of tile entities keyed by their integer
 * position, with the reverse lookup from a tile entity to its position. The
 * field never changes after it is built.
 */
module Field {
  import opened Character
  import opened Wrappers
  import Battle

  datatype UVec2 = UVec2(x: nat, y: nat)

  /** The `BattleField` resource (its float tile size belongs to the layout and is not modelled). */
  datatype BattleField = BattleField(tiles: map<UVec2, Entity>, revMap: map<Entity, UVec2>)

  /** `order` is an iteration order of the map: it lists exactly its keys. */
  ghost predicate ListsKeys(order: seq<UVec2>, tiles: map<UVec2, Entity>)
  {
    forall p :: p in order <==> p in tiles
  }

  /** No two positions hold the same tile entity. */
  predicate Injective(tiles: map<UVec2, Entity>)
  {
    forall p, q :: p in tiles && q in tiles && tiles[p] == tiles[q] ==> p == q
  }

  /** `revMap` is the exact inverse of `tiles`. */
  predicate Consistent(bf: BattleField)
  {
    && Injective(bf.tiles)
    && (forall p :: p in bf.tiles ==> bf.tiles[p] in bf.revMap && bf.revMap[bf.tiles[p]] == p)
    && (forall e :: e in bf.revMap ==> bf.revMap[e] in bf.tiles && bf.tiles[bf.revMap[e]] == e)
  }

  /**
   * The reverse map collected from the pairs of `tiles` visited in `order`; a
   * later pair overwrites an earlier one with the same entity.
   */
  function RevMap(tiles: map<UVec2, Entity>, order: seq<UVec2>): (r: map<Entity, UVec2>)
    requires forall p :: p in order ==> p in tiles
    ensures forall p :: p in order ==> tiles[p] in r
    ensures forall e :: e in r ==> r[e] in order && tiles[r[e]] == e
    decreases |order|
  {
    if order == [] then map[]
    else
      var p := order[|order| - 1];
      RevMap(tiles, order[..|order| - 1])[tiles[p] := p]
  }

  /** `BattleField::new`. */
  function New(tiles: map<UVec2, Entity>, order: seq<UVec2>): (bf: BattleField)
    requires ListsKeys(order, tiles)
    ensures bf.tiles == tiles
    ensures forall e :: e in bf.revMap <==> exists p :: p in tiles && tiles[p] == e
  {
    var r := RevMap(tiles, order);
    assert forall e :: (exists p :: p in tiles && tiles[p] == e) ==> e in r;
    BattleField(tiles, r)
  }

  /** `BattleField::tile`: the entity stored at `pos`, or nothing for a position off the grid. */
  function Tile(bf: BattleField, pos: UVec2): (r: Option<Entity>)
    ensures r.Some? <==> pos in bf.tiles
    ensures r.Some? ==> r.value == bf.tiles[pos]
  {
    if pos in bf.tiles then Some(bf.tiles[pos]) else None
  }

  /** `BattleField::pos`: the position of a tile entity, or nothing for an entity that is not a tile. */
  function Pos(bf: BattleField, e: Entity): (r: Option<UVec2>)
    ensures r.Some? <==> e in bf.revMap
    ensures r.Some? ==> r.value == bf.revMap[e]
  {
    if e in bf.revMap then Some(bf.revMap[e]) else None
  }

  /** With distinct tile entities, whatever the iteration order, the reverse map is the exact inverse. */
  lemma NewConsistent(tiles: map<UVec2, Entity>, order: seq<UVec2>)
    requires ListsKeys(order, tiles) && Injective(tiles)
    ensures Consistent(New(tiles, order))
  {
    var bf := New(tiles, order);
    forall p | p in tiles
      ensures tiles[p] in bf.revMap && bf.revMap[tiles[p]] == p
    {
      assert p in order;
    }
  }

  /** `pos(e) == Some(p)` exactly when `tiles[p] == e`. */
  lemma PosInverse(tiles: map<UVec2, Entity>, order: seq<UVec2>, e: Entity, p: UVec2)
    requires ListsKeys(order, tiles) && Injective(tiles)
    ensures Pos(New(tiles, order), e) == Some(p) <==> p in tiles && tiles[p] == e
  {
    NewConsistent(tiles, order);
  }

  /** An entity that is not a tile has no position. */
  lemma PosOfNonTile(tiles: map<UVec2, Entity>, order: seq<UVec2>, e: Entity)
    requires ListsKeys(order, tiles)
    requires forall p :: p in tiles ==> tiles[p] != e
    ensures Pos(New(tiles, order), e) == None
  {
  }

  /**
   * The progress of the grid-filling loops: every column left of `x` is full,
   * column `x` is filled below row `y`, every tile is a distinct entity from
   * `firstId` up to `nextId`, and `order` lists the positions visited.
   */
  ghost predicate Filled(tiles: map<UVec2, Entity>, order: seq<UVec2>, x: nat, y: nat, height: nat, firstId: Entity, nextId: Entity)
  {
    && (forall p :: p in tiles <==> (p.x < x && p.y < height) || (p.x == x && p.y < y))
    && ListsKeys(order, tiles) && Injective(tiles)
    && |tiles| == x * height + y && nextId == firstId + |tiles|
    && (forall p :: p in tiles ==> firstId <= tiles[p] < nextId)
  }

  /** One step of the inner loop: a fresh entity for cell `(x, y)`. */
  lemma FillStep(tiles: map<UVec2, Entity>, order: seq<UVec2>, x: nat, y: nat, height: nat, firstId: Entity, nextId: Entity)
    requires Filled(tiles, order, x, y, height, firstId, nextId) && y < height
    ensures Filled(tiles[UVec2(x, y) := nextId], order + [UVec2(x, y)], x, y + 1, height, firstId, nextId + 1)
  {
    var k := UVec2(x, y);
    assert k !in tiles;
    assert |tiles[k := nextId]| == |tiles| + 1;
    assert ListsKeys(order + [k], tiles[k := nextId]);
  }

  /** A full column `x` is the start of column `x + 1`. */
  lemma ColumnDone(tiles: map<UVec2, Entity>, order: seq<UVec2>, x: nat, height: nat, firstId: Entity, nextId: Entity)
    requires Filled(tiles, order, x, height, height, firstId, nextId)
    ensures Filled(tiles, order, x + 1, 0, height, firstId, nextId)
  {
    assert (x + 1) * height == x * height + height;
  }

  /** Once every column is full, the tiles are exactly the grid, one distinct fresh entity per cell. */
  lemma GridDone(tiles: map<UVec2, Entity>, order: seq<UVec2>, width: nat, height: nat, firstId: Entity, nextId: Entity)
    requires Filled(tiles, order, width, 0, height, firstId, nextId)
    ensures forall p :: p in tiles <==> p.x < width && p.y < height
    ensures |tiles| == width * height && nextId == firstId + width * height
    ensures Consistent(New(tiles, order))
  {
    NewConsistent(tiles, order);
  }

  /** The inner loop of `setup_battle_field`: one fresh tile for each cell of column `x`. */
  method FillColumn(tiles: map<UVec2, Entity>, order: seq<UVec2>, x: nat, height: nat, ghost firstId: Entity, nextId: Entity)
    returns (tiles': map<UVec2, Entity>, order': seq<UVec2>, nextId': Entity)
    requires Filled(tiles, order, x, 0, height, firstId, nextId)
    ensures Filled(tiles', order', x + 1, 0, height, firstId, nextId')
  {
    tiles', order', nextId' := tiles, order, nextId;
    var y := 0;
    while y < height
      invariant y <= height
      invariant Filled(tiles', order', x, y, height, firstId, nextId')
    {
      FillStep(tiles', order', x, y, height, firstId, nextId');
      tiles' := tiles'[UVec2(x, y) := nextId'];
      order' := order' + [UVec2(x, y)];
      nextId' := nextId' + 1;
      y := y + 1;
    }
    ColumnDone(tiles', order', x, height, firstId, nextId');
  }

  /**
   * The grid-filling loops of `setup_battle_field`: one freshly spawned tile per
   * cell, column by column. Spawned entities are numbered from `firstId`, above
   * every entity alive before, and `nextId` is the first number left unused.
   */
  method SetupBattleField(size: UVec2, firstId: Entity) returns (bf: BattleField, nextId: Entity, next: Battle.BattleInitState)
    ensures forall p :: p in bf.tiles <==> p.x < size.x && p.y < size.y
    ensures |bf.tiles| == size.x * size.y && nextId == firstId + size.x * size.y
    ensures forall p :: p in bf.tiles ==> firstId <= bf.tiles[p] < nextId
    ensures Consistent(bf)
    ensures next == Battle.AfterBattleField
  {
    var tiles: map<UVec2, Entity> := map[];
    var order: seq<UVec2> := [];
    nextId := firstId;
    var x := 0;
    while x < size.x
      invariant x <= size.x
      invariant Filled(tiles, order, x, 0, size.y, firstId, nextId)
    {
      tiles, order, nextId := FillColumn(tiles, order, x, size.y, firstId, nextId);
      x := x + 1;
    }
    GridDone(tiles, order, size.x, size.y, firstId, nextId);
    bf := New(tiles, order);
    next := Battle.AfterBattleField;
  }
}

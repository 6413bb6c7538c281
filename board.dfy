/** The part of one turn's game state that the shipyard-conversion logic
    reads: the board's sites and distance matrix, the halite on each site,
    the player's bank, ships and yards, and the opponents' yards and ships. */
module Board {

  /** A site is a cell of the board, addressed by its row-major index. */
  type Site = nat

  type ShipId = string

  /** A friendly ship: the site it stands on and the halite it carries. */
  datatype Ship = Ship(pos: Site, cargo: nat)

  /** The action vocabulary of the game engine. `Hold` is the engine's
      "no action" (a ship stays and collects, a yard does nothing). */
  datatype Action = Hold | Spawn | Convert | North | South | East | West

  /** `dist` has one row of `n` distances for each of the `n` sites. */
  predicate IsDistanceMatrix(dist: seq<seq<nat>>, n: nat) {
    |dist| == n && forall i | 0 <= i < n :: |dist[i]| == n
  }

  predicate OnBoard(sites: seq<Site>, n: nat) {
    forall p | p in sites :: p < n
  }

  /** Every row `dist[o]` for a source `o`, and its column `target`, exist. */
  predicate Indexable(dist: seq<seq<nat>>, sources: seq<Site>, target: Site) {
    forall o | o in sources :: o < |dist| && target < |dist[o]|
  }

  /** Distance from the nearest of `sources` to `target`, taking the minimum
      over a possibly empty list seeded with `init`: numpy's
      `amin(dist[sources, target], initial=init)`. The seed takes part even
      when `sources` is not empty, so the result never exceeds it. */
  function Nearest(dist: seq<seq<nat>>, init: nat, sources: seq<Site>, target: Site): (d: nat)
    requires Indexable(dist, sources, target)
    ensures d <= init
    ensures forall o | o in sources :: d <= dist[o][target]
    ensures d == init || exists o | o in sources :: d == dist[o][target]
  {
    if |sources| == 0 then init
    else
      assert sources[0] in sources;
      assert forall o | o in sources[1..] :: o in sources;
      var rest := Nearest(dist, init, sources[1..], target);
      var here := dist[sources[0]][target];
      if here < rest then here else rest
  }

  /** The nearest distance is below `bound` exactly when the seed is, or
      some source is that close. */
  lemma NearestBelow(dist: seq<seq<nat>>, init: nat, sources: seq<Site>, target: Site, bound: int)
    requires Indexable(dist, sources, target)
    ensures Nearest(dist, init, sources, target) < bound
        <==> init < bound || exists o | o in sources :: dist[o][target] < bound
  {
    var d := Nearest(dist, init, sources, target);
    if d < bound && d != init {
      var o :| o in sources && d == dist[o][target];
    }
  }

  /** The state attributes read by the conversion logic. Flattened position
      lists (`myYardPos`, `oppYardPos`, `oppShipPos`) are kept as the engine
      derives them, in its order; `myYardPos` has one entry per friendly yard.
      `mapSize` is the board's side length, the seed of every empty minimum. */
  datatype View = View(
    mapSize: nat,
    step: int,
    dist: seq<seq<nat>>,
    haliteMap: seq<int>,
    myHalite: int,
    myShips: map<ShipId, Ship>,
    myYardPos: seq<Site>,
    oppYardPos: seq<Site>,
    oppShipPos: seq<Site>,
    convertCost: int,
    spawnCost: int)
  {
    /** Every site the view mentions is on the board, and `dist` covers the board. */
    predicate Valid() {
      var n := |haliteMap|;
      && IsDistanceMatrix(dist, n)
      && OnBoard(myYardPos, n)
      && OnBoard(oppYardPos, n)
      && OnBoard(oppShipPos, n)
      && (forall id | id in myShips :: myShips[id].pos < n)
    }
  }
}

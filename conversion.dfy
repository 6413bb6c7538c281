/** Shipyard conversion, one decision step per turn: whether CONVERT is
    legal for a ship, how good a ship's site is for a new yard, which
    friendly yards need protecting, and which ship (at most one) converts. */
module Conversion {
  import opened SeqOps
  import opened Board

  /** Tuning constants of the conversion strategy. */
  datatype Settings = Settings(
    yardSchedule: seq<int>,   // ship counts at which one more yard is wanted
    yardMaxStep: int,         // no conversions from this step on
    yardRadius: int,          // radius of the neighbourhood a yard would serve
    yardDist: int,            // minimum distance to the nearest friendly yard
    oppYardDist: int,         // minimum distance to the nearest opponent yard
    minCells: int)            // minimum number of halite sites nearby

  // ---------------------------------------------------------------------
  // Legality of CONVERT
  // ---------------------------------------------------------------------

  /** Halite the player must keep for a spawn: only when this is its last ship. */
  function SpawnReserve(v: View): int {
    if |v.myShips| == 1 then v.spawnCost else 0
  }

  /** CONVERT is legal when the bank covers the conversion cost minus the
      ship's cargo (plus a spawn when it is the last ship) and the ship
      does not stand on a friendly yard. */
  function Legal(v: View, id: ShipId): bool
    requires id in v.myShips
  {
    var ship := v.myShips[id];
    var minHalite := v.convertCost - ship.cargo + SpawnReserve(v);
    v.myHalite >= minHalite && ship.pos !in v.myYardPos
  }

  /** The bank after the engine applies CONVERT to ship `id`: the cargo pays
      for the yard first, and only a shortfall below the convert cost is
      charged; surplus cargo is not credited within the turn. */
  function BankAfterConvert(v: View, id: ShipId): int
    requires id in v.myShips
  {
    var cargo := v.myShips[id].cargo;
    v.myHalite + (if cargo - v.convertCost < 0 then cargo - v.convertCost else 0)
  }

  /** A legal conversion never overdraws a non-negative bank, and when the
      cargo does not cover the convert cost, converting the last ship still
      leaves the spawn cost in the bank. */
  lemma LegalKeepsBankNonNegative(v: View, id: ShipId)
    requires id in v.myShips && Legal(v, id)
    requires v.myHalite >= 0 && v.spawnCost >= 0
    ensures BankAfterConvert(v, id) >= 0
    ensures |v.myShips| == 1 && v.myShips[id].cargo <= v.convertCost ==>
      BankAfterConvert(v, id) >= v.spawnCost
  {
  }

  /** A larger bank never makes a legal conversion illegal. */
  lemma LegalMonotoneInBalance(v: View, id: ShipId, balance: int)
    requires id in v.myShips && Legal(v, id) && balance >= v.myHalite
    ensures Legal(v.(myHalite := balance), id)
  {
  }

  // ---------------------------------------------------------------------
  // Score of a ship's site
  // ---------------------------------------------------------------------

  /** Number of positions `p < k` with `row[p] <= radius` and halite on `p`:
      the masked sum over one row of the distance matrix. */
  function HaliteCells(row: seq<nat>, halite: seq<int>, radius: int, k: nat): (c: nat)
    requires |row| == |halite| && k <= |halite|
    ensures c <= k
  {
    if k == 0 then 0
    else
      HaliteCells(row, halite, radius, k - 1)
      + (if row[k - 1] <= radius && halite[k - 1] > 0 then 1 else 0)
  }

  /** Extending the range by position `k - 1` adds it to the set of
      halite cells exactly when it is one. */
  lemma HaliteCellsStep(row: seq<nat>, halite: seq<int>, radius: int, k: nat)
    requires |row| == |halite| && 0 < k <= |halite|
    ensures |set p | 0 <= p < k && row[p] <= radius && halite[p] > 0|
         == |set p | 0 <= p < k - 1 && row[p] <= radius && halite[p] > 0|
            + (if row[k - 1] <= radius && halite[k - 1] > 0 then 1 else 0)
  {
    var before := set p | 0 <= p < k - 1 && row[p] <= radius && halite[p] > 0;
    var upTo := set p | 0 <= p < k && row[p] <= radius && halite[p] > 0;
    assert k - 1 !in before;
    if row[k - 1] <= radius && halite[k - 1] > 0 {
      assert upTo == before + {k - 1};
    } else {
      assert upTo == before;
    }
  }

  /** The masked sum is the size of the set of such positions. */
  lemma {:induction false} HaliteCellsCounts(row: seq<nat>, halite: seq<int>, radius: int, k: nat)
    requires |row| == |halite| && k <= |halite|
    ensures HaliteCells(row, halite, radius, k)
         == |set p | 0 <= p < k && row[p] <= radius && halite[p] > 0|
  {
    if k > 0 {
      HaliteCellsCounts(row, halite, radius, k - 1);
      HaliteCellsStep(row, halite, radius, k);
    }
  }

  /** Sites within `yardRadius` of the ship that hold halite. */
  function NearbyHaliteCells(v: View, s: Settings, id: ShipId): nat
    requires v.Valid() && id in v.myShips
  {
    var pos := v.myShips[id].pos;
    HaliteCells(v.dist[pos], v.haliteMap, s.yardRadius, |v.haliteMap|)
  }

  /** The site's halite-cell count, or 0 when the ship is too close to a
      yard or an opponent ship, or when too few halite sites are nearby. */
  function Score(v: View, s: Settings, id: ShipId): (r: nat)
    requires v.Valid() && id in v.myShips
    ensures r == 0 || r == NearbyHaliteCells(v, s, id)
    ensures r <= |v.haliteMap|
    ensures r != 0 ==> r >= s.minCells
  {
    var pos := v.myShips[id].pos;
    var myYardDist := Nearest(v.dist, v.mapSize, v.myYardPos, pos);
    var oppYardDist := Nearest(v.dist, v.mapSize, v.oppYardPos, pos);
    var oppShipDist := Nearest(v.dist, v.mapSize, v.oppShipPos, pos);
    var cells := NearbyHaliteCells(v, s, id);
    var eligible :=
      && myYardDist >= s.yardDist
      && oppYardDist >= s.oppYardDist
      && oppShipDist >= 2
      && cells >= s.minCells;
    if eligible then cells else 0
  }

  /** Every source in `sources` is at least `bound` away from `target`. */
  predicate AllAtLeast(dist: seq<seq<nat>>, sources: seq<Site>, target: Site, bound: int)
    requires Indexable(dist, sources, target)
  {
    forall o | o in sources :: dist[o][target] >= bound
  }

  /** A score is positive exactly when no friendly yard is closer than
      `yardDist`, no opponent yard closer than `oppYardDist`, no opponent
      ship closer than 2, the empty-list default `mapSize` clears the same
      bounds, and there are at least `minCells` (and at least one) halite
      sites nearby. */
  lemma ScorePositiveExactly(v: View, s: Settings, id: ShipId)
    requires v.Valid() && id in v.myShips
    ensures var pos := v.myShips[id].pos;
      Score(v, s, id) > 0 <==>
        && AllAtLeast(v.dist, v.myYardPos, pos, s.yardDist)
        && AllAtLeast(v.dist, v.oppYardPos, pos, s.oppYardDist)
        && AllAtLeast(v.dist, v.oppShipPos, pos, 2)
        && v.mapSize >= s.yardDist && v.mapSize >= s.oppYardDist && v.mapSize >= 2
        && NearbyHaliteCells(v, s, id) >= s.minCells
        && NearbyHaliteCells(v, s, id) > 0
  {
    var pos := v.myShips[id].pos;
    NearestBelow(v.dist, v.mapSize, v.myYardPos, pos, s.yardDist);
    NearestBelow(v.dist, v.mapSize, v.oppYardPos, pos, s.oppYardDist);
    NearestBelow(v.dist, v.mapSize, v.oppShipPos, pos, 2);
  }

  // ---------------------------------------------------------------------
  // Protection memory
  // ---------------------------------------------------------------------

  /** Friendly yards with an opponent ship within distance 2 (or with the
      empty-list default `mapSize` within 2). */
  function Threatened(v: View): set<Site>
    requires v.Valid()
  {
    set y | y in v.myYardPos && Nearest(v.dist, v.mapSize, v.oppShipPos, y) <= 2
  }

  /** The entries of `yards`, in order, whose nearest opponent yard is
      farther than 3: a boolean mask applied to a position list. */
  function FarFromOppYards(v: View, yards: seq<Site>): (w: seq<Site>)
    requires v.Valid() && OnBoard(yards, |v.haliteMap|)
    ensures |w| <= |yards|
    ensures forall y | y in w :: y in yards
    ensures forall y | y in yards ::
      (y in w <==> Nearest(v.dist, v.mapSize, v.oppYardPos, y) > 3)
    ensures forall y | y in yards ::
      multiset(w)[y] == if Nearest(v.dist, v.mapSize, v.oppYardPos, y) > 3 then multiset(yards)[y] else 0
  {
    if |yards| == 0 then []
    else
      var y := yards[0];
      assert y in yards;
      assert forall p | p in yards[1..] :: p in yards;
      var rest := FarFromOppYards(v, yards[1..]);
      assert yards == [y] + yards[1..];
      if Nearest(v.dist, v.mapSize, v.oppYardPos, y) > 3 then [y] + rest else rest
  }

  /** Friendly yards not within distance 3 of an opponent yard. */
  function WorkingYards(v: View): seq<Site>
    requires v.Valid()
  {
    FarFromOppYards(v, v.myYardPos)
  }

  /** The remembered protected yards, widened by the threatened ones and
      narrowed to the working ones. */
  function ProtectionMemory(v: View, memory: set<Site>): set<Site>
    requires v.Valid()
  {
    (memory + Threatened(v)) * (set y | y in WorkingYards(v))
  }

  /** A yard works exactly when it is a friendly yard, no opponent yard is
      within distance 3 of it, and the default `mapSize` exceeds 3. */
  lemma WorkingYardsExactly(v: View, y: Site)
    requires v.Valid()
    ensures y in WorkingYards(v) <==>
      && y in v.myYardPos
      && v.mapSize > 3
      && (forall o | o in v.oppYardPos :: v.dist[o][y] > 3)
  {
    if y in v.myYardPos {
      NearestBelow(v.dist, v.mapSize, v.oppYardPos, y, 4);
    }
  }

  /** The new memory lies within the working yards, which lie within the
      friendly yards. */
  lemma ProtectionMemoryWithinYards(v: View, memory: set<Site>)
    requires v.Valid()
    ensures ProtectionMemory(v, memory) <= (set y | y in WorkingYards(v))
    ensures (set y | y in WorkingYards(v)) <= (set y | y in v.myYardPos)
  {
  }

  /** A yard is remembered exactly when it works and was either remembered
      before or has an opponent ship within distance 2. */
  lemma ProtectionMemoryExactly(v: View, memory: set<Site>, y: Site)
    requires v.Valid()
    ensures y in ProtectionMemory(v, memory) <==>
      && y in WorkingYards(v)
      && (y in memory || exists o | o in v.oppShipPos :: v.dist[o][y] <= 2)
  {
    WorkingYardsExactly(v, y);
    if y in v.myYardPos {
      NearestBelow(v.dist, v.mapSize, v.oppShipPos, y, 3);
    }
  }

  /** Without friendly yards nothing is remembered. */
  lemma NoYardsNoMemory(v: View, memory: set<Site>)
    requires v.Valid() && |v.myYardPos| == 0
    ensures ProtectionMemory(v, memory) == {}
  {
    assert WorkingYards(v) == [];
  }

  // ---------------------------------------------------------------------
  // Yard schedule
  // ---------------------------------------------------------------------

  /** How many schedule entries the ship count has reached. */
  function YardsWanted(schedule: seq<int>, numShips: int): (w: nat)
    ensures w <= |schedule|
  {
    if |schedule| == 0 then 0
    else
      YardsWanted(schedule[..|schedule| - 1], numShips)
      + (if schedule[|schedule| - 1] <= numShips then 1 else 0)
  }

  /** Extending the schedule by one entry adds its position to the set of
      reached positions exactly when the entry is reached. */
  lemma YardsWantedStep(schedule: seq<int>, numShips: int)
    requires |schedule| > 0
    ensures var n := |schedule| - 1;
      |set i | 0 <= i < |schedule| && schedule[i] <= numShips|
      == |set i | 0 <= i < n && schedule[..n][i] <= numShips|
         + (if schedule[n] <= numShips then 1 else 0)
  {
    var n := |schedule| - 1;
    var before := set i | 0 <= i < n && schedule[..n][i] <= numShips;
    var all := set i | 0 <= i < |schedule| && schedule[i] <= numShips;
    assert before == set i | 0 <= i < n && schedule[i] <= numShips;
    assert n !in before;
    if schedule[n] <= numShips {
      assert all == before + {n};
    } else {
      assert all == before;
    }
  }

  /** The count is the number of schedule positions whose entry is at most the ship count. */
  lemma {:induction false} YardsWantedCounts(schedule: seq<int>, numShips: int)
    ensures YardsWanted(schedule, numShips)
         == |set i | 0 <= i < |schedule| && schedule[i] <= numShips|
  {
    if |schedule| > 0 {
      YardsWantedCounts(schedule[..|schedule| - 1], numShips);
      YardsWantedStep(schedule, numShips);
    }
  }

  /** More ships never lower the number of yards wanted. */
  lemma {:induction false} YardsWantedMonotone(schedule: seq<int>, fewer: int, more: int)
    requires fewer <= more
    ensures YardsWanted(schedule, fewer) <= YardsWanted(schedule, more)
  {
    if |schedule| > 0 {
      YardsWantedMonotone(schedule[..|schedule| - 1], fewer, more);
    }
  }

  // ---------------------------------------------------------------------
  // The conversion decision
  // ---------------------------------------------------------------------

  /** What `max` ranks the pending ships by. */
  datatype Criterion = ByCargo | ByScore

  /** Pending ships are friendly ships. */
  predicate OwnShips(v: View, ships: seq<ShipId>) {
    forall id | id in ships :: id in v.myShips
  }

  function Key(v: View, s: Settings, c: Criterion, id: ShipId): int
    requires v.Valid() && id in v.myShips
  {
    match c
    case ByCargo => v.myShips[id].cargo
    case ByScore => Score(v, s, id)
  }

  function Keys(v: View, s: Settings, c: Criterion, ships: seq<ShipId>): seq<int>
    requires v.Valid() && OwnShips(v, ships)
  {
    seq(|ships|, i requires 0 <= i < |ships| => Key(v, s, c, ships[i]))
  }

  /** With friendly yards present: fewer working yards than wanted, not too
      late in the game, and some ship still pending. */
  predicate ShouldConvert(v: View, s: Settings, ships: seq<ShipId>)
    requires v.Valid()
  {
    && |WorkingYards(v)| < YardsWanted(s.yardSchedule, |v.myShips|)
    && v.step < s.yardMaxStep
    && |ships| > 0
  }

  /** The ship the decision step converts, if any. Without yards: the first
      ship of maximum cargo, if CONVERT is legal for it. With yards: when a
      conversion is wanted, the first ship of maximum score, if CONVERT is
      legal for it and its score is positive. */
  function ChosenShip(v: View, s: Settings, ships: seq<ShipId>): (r: Option<ShipId>)
    requires v.Valid() && OwnShips(v, ships)
    requires |v.myYardPos| == 0 ==> |ships| > 0
    ensures r.Some? ==> r.value in ships && Legal(v, r.value)
  {
    if |v.myYardPos| == 0 then
      var id := ships[FirstMaxIndex(Keys(v, s, ByCargo, ships))];
      if Legal(v, id) then Some(id) else None
    else if !ShouldConvert(v, s, ships) then None
    else
      var id := ships[FirstMaxIndex(Keys(v, s, ByScore, ships))];
      if Legal(v, id) && Score(v, s, id) > 0 then Some(id) else None
  }

  /** Without yards, the ship considered is the first of maximum cargo in
      pending order, and it is converted exactly when CONVERT is legal. */
  lemma ChosenWithoutYards(v: View, s: Settings, ships: seq<ShipId>, k: nat)
    requires v.Valid() && OwnShips(v, ships) && |v.myYardPos| == 0
    requires k < |ships|
    requires forall j | 0 <= j < |ships| :: v.myShips[ships[j]].cargo <= v.myShips[ships[k]].cargo
    requires forall j | 0 <= j < k :: v.myShips[ships[j]].cargo < v.myShips[ships[k]].cargo
    ensures ChosenShip(v, s, ships) == if Legal(v, ships[k]) then Some(ships[k]) else None
  {
    var keys := Keys(v, s, ByCargo, ships);
    assert IsFirstMax(keys, k);
    FirstMaxUnique(keys, k, FirstMaxIndex(keys));
  }

  /** With yards, the ship considered is the first of maximum score in
      pending order, and it is converted exactly when a conversion is
      wanted, CONVERT is legal and its score is positive. */
  lemma ChosenWithYards(v: View, s: Settings, ships: seq<ShipId>, k: nat)
    requires v.Valid() && OwnShips(v, ships) && |v.myYardPos| > 0
    requires k < |ships|
    requires forall j | 0 <= j < |ships| :: Score(v, s, ships[j]) <= Score(v, s, ships[k])
    requires forall j | 0 <= j < k :: Score(v, s, ships[j]) < Score(v, s, ships[k])
    ensures ChosenShip(v, s, ships) ==
      if ShouldConvert(v, s, ships) && Legal(v, ships[k]) && Score(v, s, ships[k]) > 0
      then Some(ships[k]) else None
  {
    var keys := Keys(v, s, ByScore, ships);
    assert IsFirstMax(keys, k);
    FirstMaxUnique(keys, k, FirstMaxIndex(keys));
  }

  /** A converted ship is pending, CONVERT is legal for it, and nothing
      pending beats it: by cargo without yards; with yards by score, which
      is positive, while fewer yards work than are wanted before the last
      conversion step. */
  lemma ChosenShipJustified(v: View, s: Settings, ships: seq<ShipId>)
    requires v.Valid() && OwnShips(v, ships)
    requires |v.myYardPos| == 0 ==> |ships| > 0
    ensures ChosenShip(v, s, ships).Some? ==>
      var id := ChosenShip(v, s, ships).value;
      && id in ships && Legal(v, id)
      && (|v.myYardPos| == 0 ==>
            forall j | 0 <= j < |ships| :: v.myShips[ships[j]].cargo <= v.myShips[id].cargo)
      && (|v.myYardPos| > 0 ==>
            && |WorkingYards(v)| < YardsWanted(s.yardSchedule, |v.myShips|)
            && v.step < s.yardMaxStep
            && Score(v, s, id) > 0
            && forall j | 0 <= j < |ships| :: Score(v, s, ships[j]) <= Score(v, s, id))
  {
    if ChosenShip(v, s, ships).Some? {
      var c := if |v.myYardPos| == 0 then ByCargo else ByScore;
      var keys := Keys(v, s, c, ships);
      var k := FirstMaxIndex(keys);
      assert ChosenShip(v, s, ships).value == ships[k];
      forall j | 0 <= j < |ships| ensures Key(v, s, c, ships[j]) <= Key(v, s, c, ships[k]) {
        assert keys[j] <= keys[k];
      }
    }
  }

  /** Dropping the converted ship from the pending list removes exactly the
      position `max` picked and keeps every other pending ship in order. */
  lemma ChosenShipLeavesOthersInOrder(v: View, s: Settings, ships: seq<ShipId>)
    requires v.Valid() && OwnShips(v, ships)
    requires |v.myYardPos| == 0 ==> |ships| > 0
    ensures ChosenShip(v, s, ships).Some? ==>
      var c := if |v.myYardPos| == 0 then ByCargo else ByScore;
      var k := FirstMaxIndex(Keys(v, s, c, ships));
      && ChosenShip(v, s, ships).value == ships[k]
      && RemoveFirst(ships, ships[k]) == ships[..k] + ships[k + 1..]
  {
    if ChosenShip(v, s, ships).Some? {
      var c := if |v.myYardPos| == 0 then ByCargo else ByScore;
      var keys := Keys(v, s, c, ships);
      var k := FirstMaxIndex(keys);
      FirstMaxIsFirstOccurrence(ships, keys, k);
      RemoveFirstAt(ships, k);
    }
  }

  // ---------------------------------------------------------------------
  // The imperative decision step
  // ---------------------------------------------------------------------

  /** The game state as the decision step sees it: a fixed view and the
      sequence of `update` calls made on it. What an update does to the
      state is outside this model; only the call is recorded. */
  class State {
    const view: View
    var updates: seq<(string, Action)>

    constructor (view: View)
      ensures this.view == view && updates == []
    {
      this.view := view;
      updates := [];
    }

    method Update(actor: string, action: Action)
      modifies this
      ensures updates == old(updates) + [(actor, action)]
    {
      updates := updates + [(actor, action)];
    }
  }

  /** The turn's decisions so far and the ships still awaiting one. */
  class Actions {
    var decided: map<ShipId, Action>
    var ships: seq<ShipId>

    constructor (ships: seq<ShipId>)
      ensures this.ships == ships && decided == map[]
    {
      this.ships := ships;
      decided := map[];
    }
  }

  /** Decides CONVERT for a pending ship, records the update and drops the
      ship from the pending list. */
  method RecordConversion(state: State, actions: Actions, ship: ShipId)
    requires ship in actions.ships
    modifies state, actions
    ensures actions.decided == old(actions.decided)[ship := Action.Convert]
    ensures actions.ships == RemoveFirst(old(actions.ships), ship)
    ensures state.updates == old(state.updates) + [(ship, Action.Convert)]
  {
    actions.decided := actions.decided[ship := Action.Convert];
    state.Update(ship, Action.Convert);
    actions.ships := RemoveFirst(actions.ships, ship);
  }

  /** One conversion step: returns the new protection memory and converts
      at most one pending ship, the one `ChosenShip` names, by deciding
      CONVERT for it, recording the update and dropping it from the
      pending ships. Nothing else changes. */
  method Convert(state: State, actions: Actions, settings: Settings, memory: set<Site>)
    returns (newMemory: set<Site>)
    requires state.view.Valid() && OwnShips(state.view, actions.ships)
    requires |state.view.myYardPos| == 0 ==> |actions.ships| > 0
    modifies state, actions
    ensures newMemory == ProtectionMemory(state.view, memory)
    ensures ChosenShip(state.view, settings, old(actions.ships)).None? ==>
      && actions.decided == old(actions.decided)
      && actions.ships == old(actions.ships)
      && state.updates == old(state.updates)
    ensures ChosenShip(state.view, settings, old(actions.ships)).Some? ==>
      var id := ChosenShip(state.view, settings, old(actions.ships)).value;
      && actions.decided == old(actions.decided)[id := Action.Convert]
      && actions.ships == RemoveFirst(old(actions.ships), id)
      && state.updates == old(state.updates) + [(id, Action.Convert)]
  {
    var v := state.view;

    // protect yards an opponent ship comes within distance 2 of
    newMemory := memory + Threatened(v);

    // stop protecting yards an opponent yard is too close to
    var working := WorkingYards(v);
    newMemory := newMemory * (set y | y in working);

    // without yards, convert the ship with the most cargo at once
    if |v.myYardPos| == 0 {
      var ship := actions.ships[FirstMaxIndex(Keys(v, settings, ByCargo, actions.ships))];
      if Legal(v, ship) {
        RecordConversion(state, actions, ship);
      }
      return;
    }

    // otherwise convert when too few yards work for the number of ships
    var numShips := |v.myShips|;
    var yardsWanted := YardsWanted(settings.yardSchedule, numShips);
    var shouldConvert := |working| < yardsWanted;
    shouldConvert := shouldConvert && v.step < settings.yardMaxStep;
    shouldConvert := shouldConvert && |actions.ships| > 0;
    if !shouldConvert {
      return;
    }

    var ship := actions.ships[FirstMaxIndex(Keys(v, settings, ByScore, actions.ships))];
    if Legal(v, ship) && Score(v, settings, ship) > 0 {
      RecordConversion(state, actions, ship);
    }
  }
}

# Shipyard conversion for a Halite bot

This project models the shipyard-conversion step of a Halite bot
(`src/convert.py`). Each turn the bot decides whether one of its ships
should become a shipyard. It also keeps a "protection memory": the set of
friendly yards it is currently guarding. The step has three parts:

- `legal` says whether CONVERT is affordable for a ship. The bank must cover
  the conversion cost minus the ship's cargo. For the last ship it must also
  cover a spawn. The ship must not already stand on a friendly yard.
- `score` rates a ship's site for a new yard. It counts the sites within
  `YARD_RADIUS` that hold halite. The score is 0 near a friendly yard, an
  opponent yard or an opponent ship, or when too few halite sites are near.
- `convert` updates the protection memory and reads the yard schedule. It
  converts at most one ship: the first ship of maximum cargo when there are
  no yards, otherwise the first ship of maximum score. It records the
  decision and removes the ship from the pending list.

Layout:

- `seqops.dfy` (module `SeqOps`): the Python builtins the step relies on.
  `FirstMaxIndex` is `max(xs, key=...)`, which returns the first of equal
  maxima. `RemoveFirst` is `list.remove`.
- `board.dfy` (module `Board`): sites, ships, the action vocabulary, the
  `View` of the state attributes the step reads, and `Nearest`. `Nearest`
  is numpy's `amin(dist[sources, target], initial=map_size)`, a minimum over
  a possibly empty list seeded with the board size.
- `conversion.dfy` (module `Conversion`): `Legal`, `Score`, the protection
  memory, `YardsWanted`, the decision function `ChosenShip`, and the
  imperative step `Convert`. `Convert` works on a `State` object (it records
  the `update` calls) and an `Actions` object (the `decided` map and the
  pending `ships` list). Its postcondition ties the new state to
  `ChosenShip`, and the lemmas beside `ChosenShip` say what that choice means.

The strategy constants imported from the `settings` module
(`YARD_SCHEDULE`, `YARD_MAX_STEP`, `YARD_RADIUS`, `YARD_DIST`,
`OPP_YARD_DIST`, `MIN_CELLS`) are the parameter record `Settings`. The
distance matrix, the halite map and the entity lists are inputs in `View`.
Distances are read in the orientation `convert.py` uses, `dist[source][target]`.

## Model

| member | source | states |
|---|---|---|
| `Board.Nearest` | src/convert.py:62-67 | the minimum over an empty or non-empty list seeded with `map_size`: at most the seed, at most every listed distance, and equal to the seed or to one of them |
| `Board.NearestBelow` | src/convert.py:62-67 | the nearest distance is below a bound exactly when the seed is or some listed source is that close |
| `SeqOps.FirstMaxIndex` | src/convert.py:46 | the index `max(..., key=...)` picks: no key beats it, and every earlier key is strictly smaller |
| `SeqOps.FirstMaxUnique` | src/convert.py:23 | those two properties determine the picked index uniquely |
| `SeqOps.FirstMaxIsFirstOccurrence` | src/convert.py:46 | when keys depend only on the ship, the picked index holds the first occurrence of that ship |
| `SeqOps.RemoveFirst` | src/convert.py:51 | `list.remove` drops exactly one copy of the element: the length falls by one and the multiset loses that element |
| `SeqOps.RemoveFirstAt` | src/convert.py:28 | removing an element whose first occurrence is at `k` cuts out position `k` and keeps the rest in order |
| `Conversion.LegalKeepsBankNonNegative` | src/convert.py:83-91 | under the engine's CONVERT accounting (`update` in `old state.py`, line 224, charges only the shortfall of cargo below the convert cost), a legal conversion leaves a non-negative bank non-negative, and converting the last ship with cargo at most the convert cost leaves at least the spawn cost in the bank |
| `Conversion.LegalMonotoneInBalance` | src/convert.py:88-91 | a larger bank never makes a legal conversion illegal |
| `Conversion.HaliteCells` | src/convert.py:70-71 | the masked count over a distance row is at most the number of sites counted |
| `Conversion.HaliteCellsCounts` | src/convert.py:69-71 | the masked count equals the size of the set of sites within the radius that hold halite |
| `Conversion.Score` | src/convert.py:73-80 | the score is 0 or the nearby halite-cell count; it never exceeds the number of sites; a non-zero score is at least `MIN_CELLS` |
| `Conversion.ScorePositiveExactly` | src/convert.py:56-80 | the score is positive exactly when every friendly yard is at least `YARD_DIST` away, every opponent yard at least `OPP_YARD_DIST`, every opponent ship at least 2, the `map_size` default clears the same bounds, and the nearby halite-cell count is positive and at least `MIN_CELLS` |
| `Conversion.FarFromOppYards` | src/convert.py:15-17 | the masked yard list keeps exactly the listed yards whose nearest opponent yard is farther than 3, each with exactly as many copies as the input list has, and drops every copy of the others |
| `Conversion.WorkingYardsExactly` | src/convert.py:14-17 | a yard is working exactly when it is a friendly yard, no opponent yard is within 3 of it, and `map_size` exceeds 3 |
| `Conversion.ProtectionMemoryWithinYards` | src/convert.py:12-18 | the new protection memory lies within the working yards, which lie within the friendly yards |
| `Conversion.ProtectionMemoryExactly` | src/convert.py:8-18 | a yard is remembered exactly when it is working and was remembered before or has an opponent ship within distance 2 |
| `Conversion.NoYardsNoMemory` | src/convert.py:20-30 | with no friendly yards the returned protection memory is empty |
| `Conversion.YardsWanted` | src/convert.py:34-35 | the number of yards wanted is at most the length of the schedule |
| `Conversion.YardsWantedCounts` | src/convert.py:35 | it equals the number of schedule positions whose entry is at most the ship count |
| `Conversion.YardsWantedMonotone` | src/convert.py:32-35 | more ships never lower the number of yards wanted |
| `Conversion.ChosenShip` | src/convert.py:20-51 | a converted ship is one of the pending ships and CONVERT is legal for it; at most one ship is chosen |
| `Conversion.ChosenWithoutYards` | src/convert.py:20-30 | without yards the ship considered is the first pending ship of maximum cargo, and it converts exactly when CONVERT is legal for it |
| `Conversion.ChosenWithYards` | src/convert.py:32-51 | with yards the ship considered is the first pending ship of maximum score, and it converts exactly when fewer yards work than are wanted, the step is before `YARD_MAX_STEP`, ships are pending, CONVERT is legal and its score is positive; otherwise nothing converts |
| `Conversion.ChosenShipJustified` | src/convert.py:22-48 | a converted ship is pending and legal, and no pending ship beats it: by cargo without yards; with yards by score, which is positive, while fewer yards work than are wanted before `YARD_MAX_STEP` |
| `Conversion.ChosenShipLeavesOthersInOrder` | src/convert.py:46-51 | removing the converted ship from the pending list cuts out exactly the position `max` picked and keeps every other pending ship in order |
| `Conversion.State.Update` | src/convert.py:27 | each `update` call is appended to the state's record of calls |
| `Conversion.RecordConversion` | src/convert.py:49-51 | the pending ship gets decision CONVERT, one `update` call is recorded, and the ship's first entry leaves the pending list; nothing else changes |
| `Conversion.Convert` | src/convert.py:7-53 | returns the new protection memory; when `ChosenShip` names a ship, decides CONVERT for it, records one `update` call and removes it from the pending ships; otherwise the decisions, the pending ships and the record are unchanged |

## Left out

- The body of `state.update` is not part of this model, except its bank
  charge for CONVERT (`BankAfterConvert`). `State.Update` only records the
  call; the view (balance, ships, yards, halite map) stays as it was. The step reads nothing from the state after its update call.
- The order and de-duplication of numpy's `union1d` and `intersect1d` are not
  modelled. The protection memory is a set of sites.
- The distance matrix and the torus topology come as an input. The model
  only requires one row of distances per site, each covering every site.
  Symmetry and the triangle inequality are not assumed.
- The halite map is modelled with integers. Only whether a site's value is
  above zero matters to the step.
- Integers are unbounded. The numpy integers of the Python code are 64-bit, and the
  game's values are far below that.
- Unknown ship ids and off-board sites raise errors in the Python code. Here the
  requires clauses exclude them: pending ships are friendly ships
  (`OwnShips`), and every site in the view is on the board (`View.Valid`).
- Without yards, the `max` call in `convert.py` fails on an empty pending list. This
  case is a precondition of `Convert` and `ChosenShip`, not a modelled error.
- `src/init.py` is not part of this model. It only sets tuning constants and
  creates strategy objects whose classes are not shown.
- Conversion.LegalKeepsBankNonNegative: proves the spawn-cost bound for the
  last ship only when its cargo is at most the conversion cost. `legal`
  counts the whole cargo as available, but the engine's `update` credits no
  surplus cargo within the turn, so with larger cargo the bank after the
  charge can stay below the spawn cost (one ship carrying 1000, both costs
  500, bank 0: CONVERT is legal and `BankAfterConvert` is 0).

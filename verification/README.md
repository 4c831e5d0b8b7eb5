# Verified models of the game server's algorithmic cores

The server is mostly scripting, database and network code, but it rests on a number of self-contained
algorithms that work step by step on mutable state. This project models them in Dafny, with the same
branches, constants, integer widths and error paths, and proves what they are for. Each file is one core:

- `WalkCache.dfy`: the 23 x 23 walkability window a creature shifts and patches at every step, against a full recompute.
- `DamageList.dfy`, `DamageSchedule.dfy`: how an amount of damage over time is split into hits, queued, and delivered by a clock.
- `SpellArea.dfy`: spell areas as sets of offsets; rotation, mirroring, the cone, and the list of tiles shown.
- `OtbFormat.dfy`: the binary node format, its parser and its unescaping.
- `Containers.dfy`, `CloneTree.dfy`, `ContainerWalk.dfy`, `MoveItem.dfy`, `Market.dfy`: a mutable forest of real item objects with parent
  pointers and cached weights; copying it, walking through it, moving items between its containers, and collecting and taking market wares.
- `DecayWheel.dfy`: the four-bucket timing wheel for decaying items.
- `Money.dfy`: coins created, and paid with change and from the bank.
- `Trade.dfy`: the two-player trade protocol over all interleavings of request, accept and close.
- `ConditionStream.dfy`, `ActiveConditions.dfy`: saving and loading conditions, and the list of active ones with the speed it gives.

`Arithmetic.dfy` holds four facts about products and quotients. Objects that the source updates in place are classes.
To reason about many objects at once, a snapshot function (`View`, `Values`, `Rows`) turns their fields into a value; the methods
are proved against functions of such snapshots, and the lemmas are about those functions.

## What turned out to be false

Where a property that the code is meant to have does not hold, the code is modelled as it is, the exact condition is proved, and a
concrete case that fails is given.

- Steps south-east and south-west can leave wrong answers in the walk cache, because `getDistanceY` is an absolute distance where
  the shifting code expects a signed one (`WalkCache.StepKeepsSync`, `WalkCache.SouthDiagonalCanFail`).
- The damage list adds up to the amount only if the amount is at least 1 + ... + start; with the default start that is up to 760,
  and 780 (`DamageList.GenerateDamageList`, `DamageList.DefaultStartExact`).
- Hits that are not whole seconds apart can be lost at the end (`DamageSchedule.RoundsDelivered`, `DamageSchedule.HalfSecondsLoseHits`).
- Mirrored and flipped areas, and with them the north-eastern, south-western and south-eastern areas of a combat, are true reflections
  only for areas with as many columns as rows (`SpellArea.MirrorExactlyForSquares`, `SpellArea.FlipExactlyForSquares`,
  `SpellArea.SouthEastExactlyForSquares`, `SpellArea.DisplacedExample`).
- An area listed in rows of different lengths can have covered cells for which its grid has no place
  (`SpellArea.CreateArea`, `SpellArea.RaggedOverruns`).
- The smallest tree, without properties and children, is written to a file that is refused as too short (`OtbFormat.LongEnough`).
- A move that ignores limits can lose units when it falls on a stack beyond the capacity of an overfull container
  (`MoveItem.NothingLost`, `MoveItem.OverfullLoses`).
- Paying with the bank enabled while the carried coins suffice charges the last covered part twice (`Money.ChargedExactly`, `Money.ChargedTwice`).
- Creating money is exact below 4294970000, not at that amount, and beyond it for some amounts only (`Money.MintedRightly`,
  `Money.MintedWrongly`, `Money.MintedRightlyAgain`).
- Coins put down can be destroyed when the first place found for them is a stack worn in a slot and all places together have too
  little room. No slot takes coins unless classic equipment slots are on, which they are not by default (config.lua.dist:105)
  (`Money.LostFromPlaces`, `Money.HandStackLoses`; for arbitrary answers of the queries `Money.LostNothing`).
- An item can get into the decay wheel twice, since what is added to a container or tile, and every clone, enters without a look at
  its mark, and a change of its type takes the mark of an item that is in the wheel (`DecayWheel.Game.Enter`, `DecayWheel.Game.Renew`,
  `DecayWheel.Game.StartDecay`, `DecayWheel.CloneAndAdd`, `DecayWheel.RenewAndStart`).
- A completed trade hands over only the first item if the player has room for the second on top of a stack only, or only inside the
  first: the test before counts that room and the move does not use it (`Trade.ExchangedBothOrNone`, `Trade.SwordForNothing`).
- Who accepts a trade before the partner has offered anything is bound to whatever the partner then offers (`Trade.AcceptedUnseen`).
- A loaded condition that deals damage lasts as long as its intervals, whatever was saved (`ConditionStream.TicksAreLength`).

## Model

| member | source | states |
|---|---|---|
| WalkCache.Creature.OnOwnMove | src/creature.cpp:491-571 | After a step, a floor change or a teleport every answer about every position is that of a full recompute, except on the southern diagonals, where it is exactly if the mixed-up tiles are equally walkable. |
| WalkCache.StepKeepsSync | src/creature.cpp:522-568 | The shifted and patched window agrees with the map after a step: always for the signed row difference, for the absolute one except on southern diagonals, and there exactly under the stated condition, at the edge of the map too. |
| WalkCache.SouthDiagonalSync | src/creature.cpp:526-532 | On a southern diagonal the window is right if and only if every tile of the two outer rows is as walkable as the answer its cell got: that of the tile one column over, or, where the window reaches across the edge of the map, the bit that was there. |
| WalkCache.SouthDiagonalCanFail | src/creature.cpp:549-555 | A concrete map and step for which that condition fails, whatever the window was. |
| WalkCache.Creature.UpdateMapCache | src/creature.cpp:294-308 | Filling the window asks the map for every tile of it, so all answers are fresh. |
| WalkCache.Creature.AnswersAreBits | src/creature.cpp:327-356 | The answers given to callers are right exactly when the cached bits are, the creature's own tile aside. |
| WalkCache.Creature.OnAppear | src/creature.cpp:392-408 | When the creature appears, its window is loaded and fresh. |
| WalkCache.Creature.OnOtherMove | src/creature.cpp:572-585 | When another creature moves, refreshing its two tiles keeps all answers fresh. |
| WalkCache.Creature.OnTileItem | src/creature.cpp:358-390 | When an item appears on, changes on or leaves a tile, all answers stay fresh if and only if the tile is looked at again, or its walkability did not change, or the tile lies outside the window or under the creature. |
| DamageList.GenerateDamageList | src/condition.cpp:1246-1264 | The list falls, holds every value from start down to 1 and no other, reaches the amount, and equals it if and only if the amount is at least 1 + ... + start, however rounding decides ties. |
| DamageList.DefaultStartExact | src/condition.cpp:1017-1029 | With the default start the list is exact for the amounts up to 760 and for 780, and for no others. |
| DamageList.DefaultStartIsTwentieth | src/condition.cpp:1021-1023 | The default start is the least number, of at least 1, of which twenty make the amount. |
| DamageSchedule.DeliveredExactly | src/condition.cpp:1054-1108 | What is delivered is a front part of the queue, in order; it is all of it if and only if the last think needed comes no later than one think after the end time. |
| DamageSchedule.EverythingDelivered | src/condition.cpp:976-1006 | With whole-second intervals every queued value is applied exactly once, in order, before the condition expires. |
| DamageSchedule.RoundsDelivered | src/condition.cpp:976-1006 | Of equal hits all are delivered if and only if a bound on their number, spacing and first think holds. |
| DamageSchedule.HalfSecondsLoseHits | src/condition.cpp:1054-1092 | Five hits 1.5 seconds apart are not all delivered. |
| DamageSchedule.ConditionDamage.AddDamage | src/condition.cpp:976-1006 | What is queued for a number of rounds, and how long the condition lasts then. |
| DamageSchedule.ConditionDamage.ExecuteCondition | src/condition.cpp:1054-1092 | One think applies the front value exactly when its time is up, takes it off the queue or starts it again, counts a fixed periodic damage, and tells whether the condition lives on, for conditions that end and for endless ones. |
| DamageSchedule.PeriodicExactly | src/condition.cpp:1054-1064 | A fixed periodic damage is applied once in every so many thinks as its interval holds seconds, rounded up. |
| DamageSchedule.ConditionDamage.ThinkTimes | src/creature.cpp:1321-1339 | An endless condition applies its fixed damage exactly that often in any number of thinks, and does not end. |
| DamageSchedule.ConditionDamage.ThinkUntilExpired | src/creature.cpp:1321-1339 | Thinking once a second until expiry applies exactly the values the schedule says. |
| DamageSchedule.ConditionDamage.Live | src/condition.cpp:1008-1052 | Over its whole life a condition applies its queue, in magnitude the total damage it started with, or, if it had to draw one up, at least the amount, and exactly it if and only if the amount is at least 1 + ... + start; if its first hit does not get through, or nothing was drawn up, it does not start. |
| DamageSchedule.SumOfValues | src/condition.cpp:1190-1202 | The sum the total damage is taken from is that of the queued values. |
| DamageSchedule.ChosenStartIs | src/condition.cpp:1019-1023 | A start that is given is used, but none above the greatest damage; else a twentieth of the amount. |
| SpellArea.RotationMatrix | src/combat.cpp:1255-1301 | The rotation with its sines and cosines, computed in integers, is the quarter turn for 90, 180 and 270 degrees. |
| SpellArea.TurnsStayInside | src/combat.cpp:1255-1301 | All three turns write inside the output if and only if the centre lies in the square of the greater side. |
| SpellArea.CopyArea | src/combat.cpp:1221-1301 | Every operation writes inside the output, and the output covers exactly the images of the covered offsets. |
| SpellArea.MirrorExactlyForSquares | src/combat.cpp:1236-1253 | Mirroring is a true reflection if and only if the area has as many columns as rows or covers nothing. |
| SpellArea.FlipExactlyForSquares | src/combat.cpp:1236-1253 | Flipping is a true reflection under the same condition. |
| SpellArea.NorthEastExactlyForSquares | src/combat.cpp:1443-1448 | The north-eastern area of a combat is the mirror image of the listed one if and only if that is square or covers nothing. |
| SpellArea.SouthWestExactlyForSquares | src/combat.cpp:1450-1453 | The south-western area is the flipped one under the same condition. |
| SpellArea.SouthEastExactlyForSquares | src/combat.cpp:1455-1458 | The south-eastern area, an image of an image, is the point reflection under the same condition. |
| SpellArea.DisplacedExample | src/combat.cpp:1431-1459 | Setting up one row of two cells gives a north-eastern area that does not cover the centre and covers a cell two columns off. |
| SpellArea.CreateArea | src/combat.cpp:1303-1334 | For any list and number of rows, no write leaves the grid if and only if no cell listed behind the last full one of the grid is covered; then the covered cells are those listed as such in row order, the centre is the last one listed, and it lies within the square the turns need exactly if it is listed there. |
| SpellArea.CentreApart | src/combat.cpp:1315-1322 | A centre that is not covered is possible; the area then covers the cell beside it. |
| SpellArea.RaggedOverruns | src/luascript.cpp:3439-3460 | Two rows, of two cells and of one, give a list for which the grid has no place. |
| SpellArea.AreaCombat.SetupArea | src/combat.cpp:1336-1359 | For any list, all writes stay inside if and only if the list fits its grid and its centre the square; then East, South and West are the exact quarter turns of the listed northern area. |
| SpellArea.AreaCombat.SetupExtArea | src/combat.cpp:1431-1459 | For any list, all writes stay inside if and only if the list fits its grid; then the three other diagonal areas are the reflections of the listed one, displaced by the difference of columns and rows. |
| SpellArea.AreaCombat.SetupCone | src/combat.cpp:1361-1394 | The four areas of a cone cover, each in its direction, exactly the offsets of the closed form. |
| SpellArea.ConeWidens | src/combat.cpp:1361-1394 | Every row of the cone covers the middle column, and what one row covers every row farther from the caster covers too. |
| SpellArea.ConeArea | src/combat.cpp:1361-1394 | The cone's list gives an area with one centre, in the middle of its last row, that covers exactly the cone. |
| SpellArea.AreaCombat.GetArea | src/combat.h:204-236 | Which of the areas is chosen for a caster and a target. |
| SpellArea.FacesTarget | src/combat.h:204-236 | The area chosen faces the target, diagonally if there are such areas, else east or west before north or south. |
| SpellArea.AreaCombat.GetList | src/combat.cpp:1190-1219 | The positions listed are exactly the covered ones in sight, each once, with 16-bit coordinates wrapping. |
| OtbFormat.RoundTrip | src/fileloader.cpp:55-107 | Parsing an encoded tree gives that tree, with every property range where it was written, for every file longer than the smallest. |
| OtbFormat.AcceptedExactly | src/fileloader.cpp:55-107 | A file is accepted if and only if it spells a tree, in any spelling: properties escaped at will, plain bytes behind children and behind the root, and nothing else. |
| OtbFormat.SpelledIsParsed | src/fileloader.cpp:55-107 | Whatever the spelling, the tree parsed is the one spelled, with the properties of a node ending at its first child or its end. |
| OtbFormat.CutIsRefused | src/fileloader.cpp:101-104 | A written file that is cut off anywhere behind the first bytes is refused. |
| OtbFormat.LongEnough | src/fileloader.cpp:32-36 | A written tree makes a file that is long enough if and only if it has properties or children. |
| OtbFormat.ParsedIsPlaced | src/fileloader.cpp:55-107 | Whatever the bytes, a parse that succeeds gives only nodes whose property range lies in order inside the file. |
| OtbFormat.UnescapedEscaped | src/fileloader.cpp:109-124 | Unescaping an escaped run of bytes gives it back. |
| OtbFormat.Loader.Open | src/fileloader.cpp:32-47 | A file is accepted exactly if it is longer than the smallest file and carries the identifier or none. |
| OtbFormat.Loader.ParseTree | src/fileloader.cpp:55-107 | The loop over the bytes accepts exactly the files that spell a tree and returns that tree; for every written tree it returns its meaning, and every cut off one it refuses. |
| OtbFormat.Loader.GetProps | src/fileloader.cpp:109-124 | The unescaped bytes of a node's range, or nothing for an empty one. |
| Containers.Item.UpdateItemWeight | src/container.cpp:168-175 | The loop up the parent chain adds the difference to this container and exactly those around it. |
| Containers.ReweighedAddsWeight | src/container.cpp:168-175 | The containers reached by the parent chain are exactly those the item lies in, each reweighed once. |
| Containers.ReweighedIsWeighed | src/container.cpp:168-180 | If one container was off by a difference, adding it up the chain makes every cached weight right. |
| Containers.Item.AddThing | src/container.cpp:535-554 | An item goes to the front whatever the index, or nowhere beyond the capacity; the forest and all weights stay right. |
| Containers.Item.InternalAddThing | src/container.cpp:730-740 | The same without the capacity check. |
| Containers.Item.AddItemBack | src/container.cpp:556-565 | An item goes to the back; the forest and all weights stay right. |
| Containers.Item.UpdateThing | src/container.cpp:567-588 | A listed item changes its kind and count; all weights follow. |
| Containers.Item.ReplaceThing | src/container.cpp:590-612 | An item takes the place of another; the forest and all weights stay right. |
| Containers.Item.RemoveThing | src/container.cpp:614-647 | A stack shrinks or an item leaves the list; the forest and all weights stay right. |
| Containers.CachedIsDeep | src/container.cpp:177-180 | In such a forest every item's weight is its own and, recursively, that of everything inside it. |
| Containers.OwnWeightIsProduct | src/item.h:1056-1068 | The weight of a stack is its base weight times its count, at least once. |
| CloneTree.Clone | src/container.cpp:73-81 | A copy of a container is a new tree, created kind by kind, alike at every depth in counts, order, attributes, base weights and what its kinds are made into, of the same weight with right weights throughout, and changes nothing that was there. |
| ContainerWalk.ContainerIterator.Advance | src/container.cpp:777-795 | One step takes the first item off what remains and appends what that item lists. |
| ContainerWalk.VisitsEverythingOnce | src/container.cpp:762-795 | Everything below the starting items is visited, exactly once, and nothing else. |
| ContainerWalk.VisitsByLevel | src/container.cpp:762-795 | The visits come level by level. |
| ContainerWalk.GetItemHoldingCount | src/container.cpp:222-229 | The count is the number of items inside the container at any depth. |
| ContainerWalk.GetContainerHoldingCount | src/container.cpp:231-240 | The count is the number of containers inside the container at any depth. |
| ContainerWalk.IsHoldingItem | src/container.cpp:242-250 | True exactly for what is inside the container at any depth. |
| MoveItem.Game.QueryAdd | src/container.cpp:300-352 | An item may be added exactly under the stated conditions; the walk up the ancestors refuses what would put a container into itself. |
| MoveItem.Game.QueryMaxCount | src/container.cpp:382-433 | How many units may come in, counted over the stack asked for or all stacks and free slots. |
| MoveItem.Game.QueryRemove | src/container.cpp:435-455 | When an item may be taken out. |
| MoveItem.Game.QueryDestination | src/container.cpp:457-528 | Which container, index and stack a drop ends at. |
| MoveItem.WhereDropped | src/container.cpp:457-528 | A drop goes up, into the container dropped on, onto a stack of its kind with room if it comes from elsewhere, and else where it was made. |
| MoveItem.SettledIn | src/game.cpp:1092-1110 | A drop ends where it was made or in one other container, there with all flags off. |
| MoveItem.Game.InternalMoveItem | src/game.cpp:1092-1294 | If something is in the way (a lock, a ban, a place inside itself, the trade item, or no room at all), nothing changes and nothing is given back. Else, with a free slot or free of limits, all that is asked for moves; without one, what the stack found has room for. All else is untouched, and the new stack, the whole item or, if all of it joined a stack, the old item is given back. What does not stack lies itself in the target; over all old items the units of every kind stay the same but for those lost behind the capacity, and the items that do not stack are the same; the forest, the weights and the stack sizes stay right. |
| MoveItem.AllMoves | src/container.cpp:382-433 | Where nothing is in the way and a slot is free, or no limits hold, a stack moves in exactly the number asked for, and anything else moves. |
| MoveItem.WhatFitsMoves | src/container.cpp:410-433 | Where no slot is free exactly what the stack found has room for moves. |
| MoveItem.RefusedMoves | src/container.cpp:300-352 | What is locked, not to be picked up, not moveable, not there, to go into itself or the trade item, or has no room, does not move. |
| MoveItem.NothingLost | src/game.cpp:1174-1229 | Nothing is lost if and only if the index lies within the capacity or the stack has room for all; always when limits are respected. |
| MoveItem.OverfullLoses | src/container.cpp:535-541 | Fifty units moved free of limits into a container of any size whose only stack of the kind, of sixty, lies just behind its capacity: the move is allowed and loses ten. |
| MoveItem.LedgerTotals | src/game.cpp:1174-1229 | When units leave one container and come into another, the units of every kind in all containers together change by what got lost only. |
| MoveItem.WholeStays | src/game.cpp:1174-1229 | The items that do not stack are the same before and after a move. |
| Market.GetMarketItemList | src/game.cpp:6339-6378 | Nothing if the depot does not hold enough; else different wares, the first ones in walking order that reach the amount, which would not without the last; the 16-bit counter never wraps. |
| Market.WaresExactly | src/game.cpp:6347-6365 | The wares are all items of the ware inside the depot, empty containers included, but for containers with something in them. |
| Market.CollectedSingly | src/game.cpp:6339-6378 | Of a ware that counts singly exactly the amount is collected. |
| Market.TakeStacks | src/game.cpp:5565-5575 | Every collected stack gives its share, and no other item changes. |
| Market.SharesAddUp | src/game.cpp:5762-5772 | The shares add up to exactly the amount. |
| Market.SharesInOrder | src/game.cpp:5762-5772 | A stack gives something only if all before it gave everything. |
| Market.TakeAll | src/game.cpp:5576-5580 | Of a ware that does not stack every collected item leaves the depot, and no other item changes. |
| Market.DepotLowered | src/game.cpp:5565-5580 | When collected wares give shares and no other item changes, what the depot holds of the ware at any depth falls by exactly the sum of the shares. |
| Market.Serve | src/game.cpp:5559-5581 | An order is served if and only if the depot holds enough; then the total of the ware in the depot falls by exactly the amount and no other item changes, else nothing does. |
| DecayWheel.DueWhenPlaced | src/game.cpp:5014-5022 | An item placed by cleanup is due after 1 tick below a second, else after four per second, and one more if the rest is 875 milliseconds or more. |
| DecayWheel.FiringError | src/game.h:74-75 | That is off by less than 875 milliseconds. |
| DecayWheel.Game.StartDecay | src/game.cpp:4706-4773 | An item that can decay and is not marked enters the wheel, or, without duration, decays at once, stage by stage, until a stage has one; every item stays in one place exactly if the one that enters was not there, which the marks ensure; nothing in the wheel moves. |
| DecayWheel.Game.InternalDecayItem | src/game.cpp:4726-4773 | An item becomes the first stage of its decay that lasts and waits with it, or leaves nothing that decays. |
| DecayWheel.LastingIsFirst | src/game.cpp:4726-4773 | Stages without duration are passed over, whatever comes behind the first that has one. |
| DecayWheel.Game.Enter | src/game.cpp:1377-1381 | What enters without a look at its mark is in one place only if and only if it was not in the wheel. |
| DecayWheel.Game.Renew | src/item.cpp:278-299 | A change of type that takes the mark leaves the wheel in order, and its marks right if and only if the item was not in it. |
| DecayWheel.CloneAndAdd | src/item.cpp:205-217 | A clone with a duration that is added to a container or tile waits twice. |
| DecayWheel.RenewAndStart | src/item.cpp:278-299 | An item that waits, changes its type and starts to decay waits twice. |
| DecayWheel.Game.Cleanup | src/game.cpp:5014-5022 | Everything that waits gets into its first bucket, nothing else enters, and every item is in one place only and marked. |
| DecayWheel.Game.CheckDecay | src/game.cpp:4775-4817 | At one tick what may decay and is due decays, and nothing else; what may not decay any more leaves the bucket looked at, unmarked and with its duration; the other buckets stay as they are; all else is due one tick earlier, what waited or came out of decay is due after its firing ticks, and what is in the wheel stays marked. |
| DecayWheel.FiresOnTime | src/game.cpp:4775-4817 | In every run of ticks an undisturbed item decays at exactly its firing tick and not before. |
| Money.MintedExactly | src/game.cpp:1578-1619 | Below 4294970000 the coins made are worth the money, with less than a hundred of gold and platinum each and none worth more than the money. |
| Money.MintedRightly | src/game.cpp:1584-1617 | The coins made are worth the money if and only if there are fewer than 2^32 crystals in it, the 32-bit product wraps a multiple of 25 times, and, when it wraps at all, the money is not a round number of hundreds. |
| Money.MintedWrongly | src/game.cpp:1584-1585 | At 4294970000, the least such amount, the 32-bit product wraps and the coins are not worth the money. |
| Money.MintedRightlyAgain | src/game.cpp:1584-1617 | An amount beyond the bound that comes out right. |
| Money.Player.AddMoney | src/game.cpp:1578-1619 | For any answers of the queries, the coins of each kind, with those destroyed on the way, grow by what is made of the money; with room in the possessions throughout it is the carried coins that grow by just that and the ground stays as it is, with none it is the ground; nothing is destroyed if the answers let everything in, and stacks stay within 1 to 100. |
| Money.Player.InternalAddItem | src/game.cpp:1306-1385 | For any answers of the queries, exactly which coins are destroyed and how many end up on the ground; all others are carried; without a stack to join there is one new stack, in the hand or on the ground as answered. |
| Money.LostNothing | src/game.cpp:1331-1361 | No coin is destroyed if and only if, for every stack named, the queries let in all that is left, and what the last one cannot take finds a place. |
| Money.LostFromPlaces | src/player.cpp:2588-2790 | From the places of a player: coins are destroyed exactly if the first place found is a stack worn in a slot and all places together have too little room, and then so many as have none. |
| Money.HandStackLoses | src/game.cpp:1331-1361 | Of fifty coins for a player whose only room is that on a stack of sixty in the hand ten are destroyed; the answers of the queries are those for that place. |
| Money.Player.RemoveMoney | src/game.cpp:1496-1576 | Nothing changes when there is not enough; else the carried coins lose the price or all they are worth, and coins, with those destroyed when change is given, and bank together lose what is charged; no stack is gone that was worth more than one still there; with room for the change the ground stays as it is. |
| Money.CheapestFirst | src/game.cpp:1503-1576 | When only the first stacks in order of worth are gone, nothing gone was worth more than what stays. |
| Money.Player.BreakStack | src/game.cpp:1558-1564 | Breaking a stack costs exactly what is due, and the change is in smaller coins only. |
| Money.ChargedExactly | src/game.cpp:1553-1573 | What is charged is the price if and only if the bank is not used, or the carried coins do not suffice, or the bank holds less than the part covered last; never less and at most twice. |
| Money.ChargedTwice | src/game.cpp:1571-1573 | With a hundred coins in hand and in the bank a price of 50 costs 100. |
| Money.WorthsAddUp | src/game.cpp:1503-1541 | The stacks as they are gone through are in order of worth and add up to the coins' worth. |
| Trade.RunKeepsOrder | src/game.cpp:2789-3062 | In every run of requests, acceptances, closings and clean-ups partnership is mutual, state None is that of players who are nobody's partner, and an item has one extra reference while offered and none after its release. |
| Trade.Exclusive | src/game.cpp:2789-2820 | Two players never have the same partner or offer the same item. |
| Trade.OfferedExactly | src/game.cpp:2799-2803 | The table of trade items holds exactly what the players offer. |
| Trade.EndedExactly | src/game.cpp:3020-3062 | When a trade ends both players are idle, their offers and only theirs are withdrawn, and nobody else is affected. |
| Trade.AcceptedUnseen | src/game.cpp:2791-2800 | Over any run in which a trade goes on, who accepted first stays bound; both items were on offer at both acceptances if and only if the partner had offered one by the first. |
| Trade.OfferAndCounterOffer | src/game.cpp:2789-2921 | Between two idle players an offer, an offer in return and an acceptance are a run after which both items are on offer and the other player may accept; its end leaves both idle and gives both references back. |
| Trade.Game.PlayerRequestTrade | src/game.cpp:2680-2787 | A trade starts if and only if it is allowed, the item neither is, holds nor lies in one on offer and holds fewer than a hundred, and both players are idle or the partner asked first; then the player stands as having offered it, the partner as asked or as before, and the item has one more reference. |
| Trade.Game.PlayerAcceptTrade | src/game.cpp:2822-2921 | The first acceptance only marks the player, whose offer and partner stay; the second ends the trade for both, whatever the outcome, who are idle then with nothing on offer, and items change hands only if there are two and the tests before the exchange allow it; who may not accept stays as is. |
| Trade.ExchangedBothOrNone | src/game.cpp:2870-2893 | Both items change hands or neither does, unless the first one goes and the player, even in the place it leaves, has room for the second on top of a stack only, or only inside the first; an item whose place lies inside what is offered for it does not move. |
| Trade.BothChangeHands | src/game.cpp:2862-2885 | With both sides willing and a free place on both, both items change hands. |
| Trade.NothingChangesHands | src/game.cpp:2845-2893 | Without one of the items, against a script or a holder, or without any place on a side, nothing does. |
| Trade.SwordForNothing | src/game.cpp:2870-2893 | A sword for twenty gold, offered by a player with a full backpack and fifty gold in it: the sword goes and the gold stays. |
| Trade.Game.TestAddItem | src/game.cpp:1306-1330 | The test before an exchange: a place, stacks included, and in a container room for all. |
| Trade.Game.QueryDestination | src/player.cpp:2687-2790 | The search through slots and containers finds the first place that takes the item, if any, and passes over what is offered, but for a stowed container when it does not look for stacks. |
| Trade.Game.QueryMaxCount | src/player.cpp:2588-2662 | The room counted is that of all free places and stacks. |
| Trade.Game.InternalCloseTrade | src/game.cpp:3020-3062 | Nothing happens during a transfer; else the trade is over for both. |
| Trade.Game.Cleanup | src/game.cpp:5009-5012 | Every pending release is carried out once, and what is then not offered has no extra reference. |
| ConditionStream.RoundTrip | src/condition.cpp:51-127 | For every kind of condition, creating and reading one from what was written, an end marker and any further bytes stops right behind the marker with all saved fields restored. |
| ConditionStream.TicksAreLength | src/condition.cpp:917-944 | The ticks of a loaded condition that deals damage are the sum of its intervals. |
| ConditionStream.CreatedFromSaved | src/condition.cpp:204-253 | The five common fields are read back in their order, with signed and narrow fields keeping their values. |
| ConditionStream.FoldOwn | src/condition.cpp:369-392 | The fields of every kind are restored by its own records; skills and stats land in their places inside their arrays. |
| ConditionStream.CutInsideRecord | src/condition.cpp:51-109 | A stream that ends inside a record is refused there. |
| ConditionStream.CutBetweenRecords | src/condition.cpp:51-60 | A stream that ends between two records, without the end marker, is accepted as far as it goes. |
| ConditionStream.KindsKnowTheirOwn | src/condition.cpp:62-109 | No kind reads the records of another, and all read the common ones. |
| ConditionStream.LoadsWhatWasSaved | src/iologindata.cpp:409-422 | All persistent conditions of a player come back from what was saved, in reverse order. |
| ConditionStream.DropsWhatItRefuses | src/iologindata.cpp:409-422 | A condition with a record its kind does not know is dropped, and all that were saved behind it are loaded. |
| ConditionStream.Condition.Serialize | src/condition.cpp:111-127 | What is appended to the stream is the specified record sequence of the condition. |
| ConditionStream.Condition.UnserializeProp | src/condition.cpp:62-109 | One record is decoded as the specification says for the kind, or refused without moving on, and whether an array has a place for it is told; what the records mean is stated by RoundTrip and FoldOwn. |
| ConditionStream.Condition.Unserialize | src/condition.cpp:51-60 | Reading record by record does what the specification says for arbitrary bytes. |
| ConditionStream.SaveConditions | src/iologindata.cpp:880-887 | Exactly the persistent conditions are written, each closed by an end marker. |
| ConditionStream.LoadConditions | src/iologindata.cpp:409-422 | The loading loop returns what the specification says for arbitrary bytes, dropping refused conditions and going on. |
| ActiveConditions.AddedKeys | src/creature.cpp:1020-1027 | A condition that starts joins the others under a key of its own; those lost are all of the opposite type, and exactly when haste meets active paralysis of a creature that is not walking, or paralysis active haste, and not for monsters; the sum of the speeds changes by its own less theirs. |
| ActiveConditions.RefreshedKeys | src/creature.cpp:1180-1186 | A condition that refreshes another changes that one alone, and the speeds by the difference. |
| ActiveConditions.RefreshedLasts | src/condition.cpp:281-320 | A refreshed condition is never shortened to an end by a finite one if it is endless; one of speed gets the new time and speed, any other lasts as long as the longer of the two. |
| ActiveConditions.DrivesExactly | src/creature.cpp:1020-1027 | When haste and paralysis end each other, spelled out. |
| ActiveConditions.ParalysisEndsHaste | src/creature.cpp:1020-1027 | A hasted player who is paralysed loses the haste; a monster keeps both. |
| ActiveConditions.Creature.AddCondition | src/creature.cpp:1167-1195 | When a condition waits, refreshes another, starts or is refused, and the list there is then, without those of the opposite type that it ends; the creature's speed stays the sum of its active conditions. |
| ActiveConditions.Creature.OnAddCondition | src/creature.cpp:1020-1027 | Haste and paralysis end each other, for creatures that are not monsters. |
| ActiveConditions.Creature.RemoveCondition | src/creature.cpp:1211-1263 | All conditions of a type, or of a type and id, end and take their speed with them, unless paralysis must wait. |
| ActiveConditions.RemovedExactly | src/creature.cpp:1211-1263 | What is left is exactly what was not of the removed type and id. |
| ActiveConditions.Creature.ExecuteConditions | src/creature.cpp:1321-1339 | Every condition is shortened once, or prolonged if it is damage on a field of its own kind; exactly those whose time is over end and take their speed with them. |
| ActiveConditions.ExecutedExactly | src/creature.cpp:1321-1339 | What is left after a think is exactly what lives on, each shortened by the interval or, held on a field of its kind, prolonged by it. |
| ActiveConditions.ThinkOfOne | src/condition.cpp:136-146 | When a condition lives on after a think, and with what time left. |
| ActiveConditions.Creature.ChangeSpeed | src/game.cpp:3874-3879 | The variable speed changes by exactly the difference. |

## Left out

- WalkCache.Creature.OnTileItem: which item types are blocking, and so whether the refresh is skipped, is a parameter.
- DamageList.GenerateDamageList: floating-point ratios are exact ratios, with ties decided either way; products are required to fit 32 bits.
- DamageSchedule.ConditionDamage.Live: the creature thinks exactly once a second and never stands on a field of the same kind; whether the first hit gets through is a parameter; conditions with a fixed periodic damage keep no queue and are treated in ThinkTimes; resistances and death are not modelled.
- DamageSchedule.ConditionDamage.ExecuteCondition: what the field on the tile does to the condition (src/creature.cpp, onTickCondition) is a parameter.
- SpellArea.RotationMatrix: sine and cosine are their exact values at quarter turns.
- SpellArea.CreateArea: where a write would leave a grid the source has no defined behaviour; the model reports it and stops.
- SpellArea: the circular area of a radius (src/combat.cpp:1396-1429) is a fixed table and left out.
- OtbFormat.Loader.ParseTree: nodes are values on the parse stack, and a child is attached to its parent when it ends instead of when it starts; pointers into the tree are not modelled. The file mapping is a byte sequence.
- Containers.Item.AddThing: weights are unbounded integers, so 32-bit wrap-around is not modelled; notifications to players, and depot chests, lockers, inboxes and browse-field containers, which override parents or share items, are left out.
- CloneTree.Clone: attributes are part of an item's kind; what is created for a kind (src/item.cpp:43-95 gives another identifier for some) is an arbitrary table that keeps attributes, base weights and stacking; that a clone with a duration starts to decay is modelled in the decay wheel only.
- MoveItem.Game.InternalMoveItem: both sides are unlocked or locked plain containers without pagination; the holding limits, and whether a carrier can bear the weight, are an oracle; players' slots and the exchange of slots, the flag for a child as owner, looting and decay of the moved item are left out.
- MoveItem.Game.QueryAdd: the flag for a child as owner and the test for an inbox are left out; the holding limits of depots and what a carrier can bear are an arbitrary answer.
- MoveItem.NothingLost: that a container never exceeds its capacity is not what the code enforces and is not claimed.
- Market.GetMarketItemList: whether an item is of the ware, has market attributes and, as a container, its usual size is one predicate.
- Market.TakeStacks: offers, fees and the store currency, which are database calls, are left out.
- DecayWheel.Game.CheckDecay: an item that decays stays the same object with a new duration, or none; what players gain or lose by its decay is left out.
- DecayWheel.Game.StartDecay: whether an item can decay, and the durations of the stages of its decay, are parameters; what becomes of a wheel that an item has entered twice is not followed further.
- Money.Player.RemoveMoney: the carried stacks are given in the order in which the search through the possessions meets them; every coin can be removed; sums of worth and balance are below 64 bits.
- Money.Player.AddMoney: the answers of the queries for a destination and for the room there are arbitrary, for each item put down; an answer that names no stack of the kind with room is taken as one for a new stack or the ground.
- Money.LostFromPlaces: which slots take coins, and which containers, is given with the places; the refusal of coins by a container sends them to the ground at first and destroys them when they are a rest.
- Trade.Game.PlayerRequestTrade: distance, sight, the item's kind and place, and scripts are one answer; what an offered item holds does not change while it is offered, since moving it closes the trade in src/player.cpp.
- Trade.Game.PlayerAcceptTrade: the places a player has are one list in the order in which the search meets them, and which of them are of use for an item (slots, weight, scripts) is given with them, for the setting without classic equipment slots; whether an item may be removed is an arbitrary answer; the house transfer, which starts trades from a script without the request's checks, is left out.
- ConditionStream.Condition.Unserialize: a record for which an array of skills or stats has no place left is undefined in the source; the model reports it and stops. Saved streams never contain one.
- ConditionStream.RoundTrip: fields that are never written (percentages, internal counters, the tick interval, the owner) are not part of a saved state; formula variables are the bits of floating-point numbers.
- ActiveConditions.Creature.AddCondition: the conditions are values owned by the list, not objects; conditions with a refresh of their own (damage, regeneration, soul, light, attributes, outfits) refresh like generic ones, which does not touch keys or speed; random speeds are arbitrary; the walk delay is one number before the condition starts and one after; that a player dismounts when an outfit condition starts (src/player.cpp:3467), which changes the speed from elsewhere, is left out.
- ActiveConditions.Creature.ExecuteConditions: for conditions other than those of speed an arbitrary predicate decides whether they live on, and which of them are held on a field of their kind; scripts that change the list while it is walked through are left out.
- Messages, magic effects, spectators, scripts, database, sockets and timers are left out throughout; the clock is a parameter.

# Divitae core: models and proofs

A Dafny model of the stateful and arithmetic core of a proof-of-stake wallet and node, with proofs of what that core
is relied on for. Each module follows one component of the program. State that the program updates in place is a class
or a method with loops here; each of those is proved equal to a function on values, and the promises are proved about
the functions, over all inputs and all runs.

- **Address manager** (`AddrTables`, `AddrInvariant`, `AddrOperations`, `AddrMan`, `AddrTheorems`, `AddrFields`,
  `AddrRuns`, `AddrSerialize`, `AddrStream`): known peers in five cross-linked indexes and two bucket tables. Every run keeps the invariant, and
  passes the program's own check as long as its clocks are not at or before zero; marking an address good and adding one do what they are for and lose nothing but what they must;
  writing to disk and reading back gives the same manager up to numbering. Bucket hashes are an arbitrary function,
  random draws and clocks are parameters.
- **Zerocoin selection** (`Denominations`, `Spending`, `ZerocoinChange`, `ZerocoinExample`, `MintSelection`): choosing mints for a spend.
  The greedy choice is complete and uses the fewest coins because each denomination divides the next; the choice with
  change is sound for every target the coins cover; mint selection stays within the limit on spends whenever it can, and
  gives up on a whole-coin target only when it must.
- **UTXO cache** (`Coins`, `CoinsViews`, `CoinsCache`): a stack of write-back caches over a database, with dirty and
  fresh flags, refines a stack of plain maps with their best blocks, for every sequence of operations and any number of layers.
- **Coin records** (`Bits`, `CoinsCodec`, `CoinsBytes`, `CoinsExample`, `CoinsUndo`): the bit-mask codec is exact in both directions,
  and so, with the codecs of numbers and outputs put in, is the record as bytes, under a stated condition; undoing
  spends restores the record exactly when a stated condition holds.
- **Check queue** (`CheckQueueProtocol`, `CheckQueue`): master and workers as atomic critical sections, in any
  interleaving and with spurious wakeups. The queue's answer is right, and it cannot get stuck.
- **Base58** (`Radix`, `Base58`): in-place base conversion in fixed buffers, with both logarithm bounds proved.
- **Accumulator checkpoints** (`Accumulators`): once the second protocol version has started, what
  the tip commits to over any run of connected blocks.
- **Stake modifier** (`StakeModifier`), **block index and chain** (`Blocks`, `ChainIndex`), **variable-length integers
  and transaction output compression** (`VarInt`, `Compressor`), **Bloom filter** (`Bloom`), **page locks**
  (`LockedPages`): each with a property of a whole loop or a whole run.

`Wrappers` and `Radix` hold what several modules use. `dafny verify dfyconfig.toml` checks everything.

Where the model found the code to differ from what one would expect of it, the code is modelled as it is:

- Adding an address may report that a new address was added although it has been dropped again
  (`AddrTheorems.AddMayForget`; the exact condition is in `AddrTheorems.AddOutcome`).
- A repeated announcement with a negative time penalty may set an entry's time back, as the time wraps at 32 bits
  (`AddrTheorems.RefreshMayWrap`). Exactly when it does is `AddrTheorems.RefreshSetsBackIff` for one entry and
  `AddrTheorems.RefreshIsSafeIff` for all. This is about the parameter, a signed 64-bit number: every caller in the
  program passes a penalty of 0 or two hours (`src/main.cpp:5998`, `src/main.cpp:6101`, `src/net.cpp:1262`,
  `src/net.cpp:1337`, `src/masternodeman.cpp:763`, `src/prosperitynodeman.cpp:765`,
  `src/prosperitynodeman.cpp:1031`, `src/activeprosperitynode.cpp:273`), and then no time is ever set back.
- Disconnecting a block does not restore the coinstake flag of a record all of whose outputs had been spent, the empty
  one that marks it included (`CoinsUndo.StakeFlagIsLost`; the exact condition is in `CoinsUndo.UndoIsExact`), although
  the undo record has it (`src/undo.h:23-26`). As long as the marker output stays unspent, everything is restored
  (`CoinsUndo.MarkerKeepsStake`).
- Flushing a cache whose best block was neither read nor set may overwrite the parent's (`CoinsViews.FlushMayLoseBest`;
  the exact condition is in `CoinsViews.FlushBestBlock`). The program sets it before it flushes a cache that blocks were
  connected or disconnected in (`src/main.cpp:2763`, `src/main.cpp:3399`).
- Not all bytes that are read as a coin record are the ones that would be written for it: an output script that has a
  special form is also read from its plain bytes (`Compressor.RawFormIsRead`), and numbers that are too long lose bits.
  There are no other cases (`CoinsBytes.RecordIsExact`, `Compressor.ScriptReadIsExact`).
- An empty Bloom filter without hash functions denies what the plain bit test would affirm (`Bloom.EmptyDeniesAll`; the
  exact condition is in `Bloom.ContainsIsPlain`), and clearing a filter without bytes makes it unusable
  (`Bloom.CBloomFilter.Clear`), though nothing in the program clears a received filter.
- A selection is meant to stay within the limit on spends (`src/denomination_functions.cpp:406-409`) but may exceed it,
  exactly if no coins within the limit cover the target (`MintSelection.WithinLimitIff`). It can also come back empty
  although the coins cover the target (`MintSelection.TenMintsSevenSpends`). Then no coins within the limit cover it,
  unless the target is not of whole coins and was rounded up (`MintSelection.SelectsNothingIff`,
  `MintSelection.GivesUpRightly`); every such target has a case in which some coins within the limit do cover it
  (`MintSelection.FractionGivesUp`). The wallet rounds up to whole coins first (`src/wallet.cpp:4692-4697`). The comment
  at `src/denomination_functions.cpp:312-314` gives "no change" as a case that should not happen; it does happen when an
  exact payment exists but needs too many coins.
- Refusing a block at the height at which accumulators are recalculated leaves checksums erased, although nothing should
  have been stored by then (`src/main.cpp:3317`), if that height is not below the start of the second protocol version.
  If the last good checkpoint's own checksums are among them, no later block is accepted at that height
  (`Accumulators.RefusalAtRecalculation`, with the exact condition; `Accumulators.RecalculationMayBeLost` has such a
  chain); so it is whenever the last good height plus one is no multiple of ten (`Accumulators.RecalculationIsLost`).
  No network of the program has such parameters: all recalculate at 908000 or 9908000 and start the second version at
  999999999 (`src/chainparams.cpp:141-146`, `src/chainparams.cpp:297-302`; the regression and unit test networks inherit
  these), and below that start no block is refused for its checkpoint and nothing is erased or written
  (`Accumulators.NothingStoredBelowV2`).

## Model

| member | source | states |
|---|---|---|
| AddrOperations.AddKeepsConsistent | src/addrman.cpp:248-314 | Adding keeps the whole invariant (five indexes, reference counts, both counters), whatever the hashes, clock and draw |
| AddrOperations.GoodKeepsConsistent | src/addrman.cpp:199-246 | Marking an address good keeps the invariant, through eviction back to the new table and deletion of a third entry |
| AddrOperations.AttemptKeepsConsistent | src/addrman.cpp:316-333 | Noting an attempt keeps the invariant |
| AddrOperations.ConnectedKeepsConsistent | src/addrman.cpp:473-491 | Noting a connection keeps the invariant |
| AddrOperations.MakeTriedKeepsInv | src/addrman.cpp:151-197 | A known entry of the new table ends up in the tried table, with the invariant kept |
| AddrOperations.EvictKeepsInv | src/addrman.cpp:169-192 | Making room in the tried table leaves the slot free and the invariant intact while the entry to be moved is in neither table |
| AddrOperations.PlaceKeepsInv | src/addrman.cpp:292-312 | Storing, replacing or refusing a reference keeps the invariant; an unreferenced new entry does not survive a refusal |
| AddrOperations.ClearNewEffect | src/addrman.cpp:136-149 | Clearing a slot costs its entry one reference, and its life exactly if that was the last; nothing else changes but random positions |
| AddrOperations.ShuffleKeepsConsistent | src/addrman.cpp:463-465 | One round of the partial shuffle keeps the random order and the stored positions inverse to each other |
| AddrTheorems.ConsistentPassesCheck | src/addrman.cpp:375-449 | Under the invariant the program's own check returns 0 exactly if the key is not null and no entry has a time that the check rejects: every other condition of it follows |
| AddrRuns.EveryRunIsConsistent | src/addrman.cpp:90-471 | After any sequence of add, good, attempt, connected and get-addresses calls on the empty manager, with any clocks, the invariant holds |
| AddrRuns.EveryRunPassesCheck | src/addrman.cpp:375-449 | After any such sequence with sound clocks the program's own check passes, and after one more call it passes exactly if that call's clock is sound |
| AddrRuns.GoodIsTried | src/addrman.cpp:199-246 | Marking a known address good leaves its entry tried, with that time as its last success and last attempt, and brings no new times to other entries |
| AddrRuns.GoodIsTimelyIff | src/addrman.cpp:386-406 | Marking an address good keeps all times such that the check accepts them exactly if the clock is after zero or the address is unknown |
| AddrRuns.AttemptIsTimelyIff | src/addrman.cpp:403-406 | Noting an attempt does so exactly if the clock is not before zero or the address is unknown |
| AddrTheorems.RandomIsPermutation | src/addrman.cpp:380-402 | The random order lists every known id exactly once |
| AddrTheorems.GoodOutcome | src/addrman.cpp:199-246 | The entry moves to its own tried slot, what was there returns to the new table, at most the entry whose only reference was in the slot needed for that is lost, no other entry changes tables |
| AddrTheorems.AddOutcome | src/addrman.cpp:248-314 | Success is reported exactly for unknown routable addresses; such an address is known afterwards exactly if its one slot was free or held an entry that gives way |
| AddrTheorems.AddMayForget | src/addrman.cpp:308-313 | A concrete pair of additions of which the second reports success and is forgotten |
| AddrTheorems.AddIsLocal | src/addrman.cpp:292-312 | Whatever is announced, the tried table stays, at most one slot of the new table changes, and no entry is forgotten but the one whose only reference was there |
| AddrTheorems.RefreshMovesForward | src/addrman.cpp:257-265 | For any penalty, a repeated announcement takes no services away and keeps the entry's place; if the time announced, less the penalty, fits into 32 bits, the entry's time is not set back, nor set beyond that |
| AddrTheorems.RefreshSetsBackIff | src/addrman.cpp:257-262 | An entry's time is set back if and only if the time announced, less the penalty, does not fit into 32 bits, wraps to before the entry's, and is later than that by more than the update interval |
| AddrTheorems.RefreshIsSafeIff | src/addrman.cpp:257-262 | No entry at all is set back by an announcement if and only if it has no time, or its time less the penalty fits into 32 bits, or that wraps to the latest time of 32 bits |
| AddrTheorems.RefreshMayWrap | src/addrman.cpp:261-262 | A negative penalty with which an entry's time is set back to zero |
| AddrTheorems.GetAddrCorrect | src/addrman.cpp:452-471 | The ids returned are distinct, known and not terrible, at most 23 percent of all and at most 2500; if fewer, every non-terrible one is among them |
| AddrFields.TerribleIsStale | src/addrman.cpp:35-55 | Which entries are of no use, with all limits spelled out: not tried within a minute, and never seen, ten minutes in the future, not seen for 30 days, three attempts without a success, or ten and none for a week |
| AddrFields.HandedOut | src/addrman.cpp:452-471 | Only entries that are not stale are handed out, at most 2500 and 23 percent; below that, all of them |
| AddrFields.ShufflePicks | src/addrman.cpp:463-464 | The draw decides which of the ids not yet looked at comes next, and any of them can |
| AddrFields.AddStores | src/addrman.cpp:285-312 | An unknown routable address is stored exactly if its slot is free or its occupant has another reference or is stale; then it is in that slot, with the announced fields, one reference and no history; otherwise the occupant keeps the slot unchanged |
| AddrFields.DeadGivesWay | src/addrman.cpp:298-307 | An address seen forty days ago gives its slot to a new one |
| AddrFields.AddRefreshes | src/addrman.cpp:255-312 | What announcing a known address again does to its entry, field by field; exactly when it gets another reference, which only a free slot or a stale occupant allows; and that nothing else changes |
| AddrFields.GoodNotes | src/addrman.cpp:199-223 | Marking an address good notes the success, clears its attempts and references, and leaves its entry tried |
| AddrFields.GoodDisplaces | src/addrman.cpp:169-192 | The entry displaced has one reference afterwards, in the slot that its own source gives |
| AddrFields.AttemptNotes | src/addrman.cpp:316-333 | Noting an attempt counts it in the entry with that address and port, and changes nothing else |
| AddrFields.ConnectedNotes | src/addrman.cpp:473-491 | Noting a connection updates the time of the entry with that address and port if it is older than 20 minutes, and nothing else |
| AddrFields.NewBucketsOfGroup | src/addrman.cpp:22-28 | What the sources of one group announce reaches at most 64 of the 1024 new buckets |
| AddrFields.TriedBucketsOfGroup | src/addrman.cpp:15-20 | The addresses of one group reach at most 8 of the 256 tried buckets |
| AddrMan.CAddrMan.Find | src/addrman.cpp:77-88 | Finds exactly what the value-level lookup finds |
| AddrMan.CAddrMan.Create | src/addrman.cpp:90-100 | The new tables are the old ones with a fresh entry at the end of the random order |
| AddrMan.CAddrMan.SwapRandom | src/addrman.cpp:102-120 | Exchanges two positions in the random order and in the entries; its assertions hold |
| AddrMan.CAddrMan.Delete | src/addrman.cpp:122-134 | Removes an unreferenced entry from all indexes; its assertions hold |
| AddrMan.CAddrMan.ClearNew | src/addrman.cpp:136-149 | Empties the slot and drops the reference; the count asserted positive is |
| AddrMan.CAddrMan.MakeTried | src/addrman.cpp:151-197 | Does to the tables what `AddrTables.MakeTried` does; all its assertions hold |
| AddrMan.CAddrMan.EvictSlot | src/addrman.cpp:169-192 | Moves the entry in the way back to the new table; its assertions hold |
| AddrMan.CAddrMan.FindReference | src/addrman.cpp:225-240 | The search always finds a bucket, so that the exit for finding none is not taken |
| AddrMan.CAddrMan.Good_ | src/addrman.cpp:199-246 | Does to the tables what `AddrTables.Good` does, for every start of the search; keeps the manager valid |
| AddrMan.CAddrMan.Add_ | src/addrman.cpp:248-314 | Does to the tables what `AddrTables.Add` does, with the same result; keeps the manager valid |
| AddrMan.CAddrMan.Place | src/addrman.cpp:292-312 | Stores the reference, or deletes the entry if it has none and the slot is not given up |
| AddrMan.CAddrMan.MayRefer | src/addrman.cpp:267-284 | The loop's factor is a power of two for the entry's references; another reference is wanted exactly as the value-level addition says |
| AddrMan.CAddrMan.Attempt_ | src/addrman.cpp:316-333 | Updates the last attempt and the count of attempts of the entry with that address and port, and nothing else |
| AddrMan.CAddrMan.Connected_ | src/addrman.cpp:473-491 | Updates the time of the entry with that address and port if it is older than 20 minutes, and nothing else |
| AddrMan.CAddrMan.GetAddr_ | src/addrman.cpp:452-471 | Returns the addresses of the ids that `GetAddrCorrect` is about; keeps the manager valid |
| AddrMan.CAddrMan.constructor | src/addrman.h:449-452 | A new manager is empty and valid |
| AddrMan.CAddrMan.Clear | src/addrman.h:429-447 | Empties buckets, random order and counters and draws a key, but leaves the entry maps as they are |
| AddrMan.CAddrMan.Serialize | src/addrman.h:276-324 | Writes the stream that the format prescribes; its two assertions hold |
| AddrMan.CAddrMan.Unserialize | src/addrman.h:326-422 | Reading any stream into a fresh manager, well-formed or not, fails or yields exactly what `AddrSerialize.Unserialized` says |
| AddrMan.CAddrMan.ReferFromPrimary | src/addrman.h:354-363 | Gives the entry a reference in the slot of its own source if that is free, and changes nothing otherwise |
| AddrMan.CAddrMan.PruneLost | src/addrman.h:406-416 | Deletes exactly the entries that are in no table |
| AddrSerialize.RoundTrip | src/addrman.h:276-422 | Reading what a consistent manager wrote succeeds, whatever key had been drawn, and gives it back renumbered, consistent and with nothing lost |
| AddrSerialize.RoundTripPassesCheck | src/addrman.h:276-422 | What passed the program's own check when written passes it when read back |
| AddrSerialize.RenumberedEntries | src/addrman.h:292-311 | The entries read back are the entries written, except for random order and the time of the last attempt, with equal reference counts |
| AddrSerialize.RenumberedSlots | src/addrman.h:312-323 | The same slots of both tables are occupied, by the same entries under their new numbers |
| AddrSerialize.NumberIsIdx | src/addrman.h:292-301 | The number written for an entry in the bucket lists is its place among the entries written |
| AddrSerialize.FlipTwice | src/addrman.h:288-345 | Flipping bit 30 of the bucket count twice gives it back, for negative numbers too |
| AddrStream.Layout | src/addrman.h:247-258 | The order of what is written: version 1, key size, key, both counts, 1024 buckets with bit 30, the entries of the new table, those of the tried table |
| AddrStream.Fallback | src/addrman.h:343-416 | From a stream whose bucket lists cannot be used, exactly those entries of the new table stay that are the first to hash to their slot by their own source, each with one reference there |
| AddrStream.ReadIsInOrder | src/addrman.h:326-422 | Whatever stream is read: all slots and entries agree, reference counts are exact and at most eight, and no entry is left that is in no table |
| Denominations.GreedyIsComplete | src/denomination_functions.cpp:46-68 | Largest-first pays an amount exactly if and only if some choice of the coins held does |
| Denominations.GreedyIsFewest | src/denomination_functions.cpp:46-68 | No exact payment with the coins held uses fewer coins |
| Denominations.ChangePays | src/denomination_functions.cpp:73-93 | Change pays the whole-coin part of any amount exactly, and no coins worth that are fewer |
| Denominations.WorthIs | src/libzerocoin/Denominations.h:19-29 | What coins of the eight denominations are worth |
| Spending.GetSpendCoins | src/denomination_functions.cpp:46-68 | Returns the greedy choice from the coins held, for any target |
| Spending.GetChange | src/denomination_functions.cpp:73-93 | Returns the greedy choice from unlimited coins, for any amount |
| Spending.GetIdealSpends | src/denomination_functions.cpp:99-123 | Succeeds exactly if the unused mints can pay the target, and returns the greedy choice |
| Spending.SpendFromList | src/denomination_functions.cpp:112-121 | One pass takes as many unused mints of a denomination as fit and are there |
| Spending.GetSpends | src/denomination_functions.cpp:128-148 | Collects for each denomination the first unused mints of the list, with the right total; the counts end at zero after one pass each |
| Spending.PickMints | src/denomination_functions.cpp:136-145 | One pass uses up the count whenever enough unused mints are there, so that the enclosing loop ends |
| Spending.SelectionIsFromList | src/denomination_functions.cpp:128-148 | The selected mints are unused entries of the list, none taken twice, as many as were asked for |
| Spending.SelectionWorth | src/denomination_functions.cpp:128-148 | The selected mints are worth what the counts are worth |
| ZerocoinChange.GetNumberOfCoinsUsed | src/denomination_functions.cpp:18-26 | Counts all coins |
| ZerocoinChange.GetMaxDenomHeld | src/denomination_functions.cpp:31-42 | The highest denomination held, or the error denomination |
| ZerocoinChange.GetNextLowerDenomHeld | src/denomination_functions.cpp:206-217 | The highest denomination held below the given one, or the error denomination |
| ZerocoinChange.StayBelow | src/denomination_functions.cpp:240-252 | Takes coins largest first while they stay below the target, with their total |
| ZerocoinChange.GoOver | src/denomination_functions.cpp:257-266 | Adds one coin at most, the smallest left that exceeds what remains |
| ZerocoinChange.RemoveOverlap | src/denomination_functions.cpp:274-289 | Removes the coins that would come back as change, and lowers the total accordingly |
| ZerocoinChange.MinimizeChange | src/denomination_functions.cpp:219-308 | Returns the alternative with its number of coins of change if that is smaller and it is within the limit, and the saved choice otherwise, so never more change than either |
| ZerocoinChange.CoverTarget | src/denomination_functions.cpp:363-380 | Takes the largest coins until the target is covered, with their total and number |
| ZerocoinChange.FindMinOver | src/denomination_functions.cpp:329-334 | The smallest denomination held that exceeds the target on its own, or the error denomination |
| ZerocoinChange.CalculateChange | src/denomination_functions.cpp:316-405 | For every positive target that the coins cover, the coins chosen are held, cover the target, and the number returned is that of the coins of change |
| ZerocoinChange.OverCovers | src/denomination_functions.cpp:363-380 | The largest-first choice covers every target that all coins together cover |
| ZerocoinChange.FilledExceeds | src/denomination_functions.cpp:238-266 | When the largest coins overshoot, the fill-up finds a coin that takes the coins below the target over it |
| ZerocoinChange.FilledExceedsBelow | src/denomination_functions.cpp:238-266 | When a single coin held exceeds the target, the coins below it and the fill-up exceed it too |
| ZerocoinChange.AltIsPayable | src/denomination_functions.cpp:274-293 | The amount left after removing the overlap is hit exactly by re-solving for it, and is not below the target |
| ZerocoinChange.MinimizedIsSound | src/denomination_functions.cpp:219-308 | Minimizing keeps a sound choice sound and never returns more coins of change |
| ZerocoinChange.AlternativeIs | src/denomination_functions.cpp:227-289 | The alternative is worth the largest coins strictly below the target plus at most one, the smallest that exceeds the rest, without the coins that would come back as change; none that is kept comes back |
| ZerocoinChange.CalculatedOutcome | src/denomination_functions.cpp:316-405 | Exactly what is chosen: the smallest single coin above the target, or the largest that cover it, unless the alternative has fewer coins of change, is within the limit, and is asked for or takes no more coins |
| ZerocoinChange.OverIsLargest | src/denomination_functions.cpp:363-380 | The largest coins are taken until the target is covered, and none after |
| ZerocoinExample.MinimizingPays | src/denomination_functions.cpp:219-308 | 26 coins, with one 5, four 10s and one 50: three 10s and four coins of change when minimizing, the 50 and six otherwise |
| ZerocoinChange.CalculatedIsSound | src/denomination_functions.cpp:316-405 | The same soundness, about the function that the method is proved equal to |
| ZerocoinChange.ChangeIsDue | src/denomination_functions.cpp:273-298 | Change is due, in one coin at least, exactly if the difference is a whole coin or more |
| MintSelection.SelectMintsFromList | src/denomination_functions.cpp:411-443 | For any list of mints, and any coins said to be held from which coins in the list are chosen: distinct unused mints of the list; exact within the limit on spends if possible, without change; otherwise above the target with a positive, right number of coins of change, or nothing |
| MintSelection.ChosenIsListed | src/denomination_functions.cpp:411-443 | The coins chosen are in the list whenever those said to be held are |
| MintSelection.ChosenIsCorrect | src/denomination_functions.cpp:411-443 | The same for the choice of coins as a function of the target, the limit and the coins held |
| MintSelection.SelectsNothingIff | src/denomination_functions.cpp:420-441 | For any positive target, nothing is selected exactly if the coins do not cover it, or there is no exact payment within the limit and the coins to overpay with exceed it by less than a coin; for whole-coin targets the latter is when no single coin held exceeds the target and the largest coins hit it |
| MintSelection.GivesUpRightly | src/denomination_functions.cpp:432-442 | When nothing is selected although the coins cover the target, no coins within the limit cover it, except for targets that are not of whole coins, and then the coins to overpay with are worth the target rounded up |
| MintSelection.WithinLimitIff | src/denomination_functions.cpp:406-443 | For every positive target, mints that are selected are within the limit on spends if and only if some coins held cover the target within it |
| MintSelection.TenMintsSevenSpends | src/denomination_functions.cpp:432-437 | Ten mints of one coin, a target of ten coins and a limit of seven: nothing is selected |
| MintSelection.OnesBeyondLimit | src/denomination_functions.cpp:432-437 | The same for any number of one-coin mints that exceeds the limit |
| MintSelection.FractionGivesUp | src/denomination_functions.cpp:432-437 | For every target that is not of whole coins, some mints cover it within the limit and yet nothing is selected |
| MintSelection.OverIsFewest | src/denomination_functions.cpp:363-380 | No coins that cover the target are fewer than the largest-first ones that do |
| MintSelection.BeyondLimit | src/denomination_functions.cpp:425-430 | An exact choice that is refused has more coins than the limit |
| MintSelection.NegativeLimit | src/denomination_functions.cpp:425-427 | A negative limit, converted to a size, allows every exact payment |
| Coins.TrimKeeps | src/coins.h:119-126 | Cleaning up is idempotent, loses no unspent output, and leaves pruned coins empty |
| Coins.Cleanup | src/coins.h:119-126 | Removes exactly the spent outputs at the end |
| CoinsViews.FetchIsRight | src/coins.cpp:86-102 | Reading through any number of layers finds what the top layer stands for, changes no layer's view and keeps the flag invariant |
| CoinsViews.HaveCoinsIsRight | src/coins.cpp:143-151 | Testing for no outputs at all agrees with testing for unspent ones |
| CoinsViews.OpenIsRight | src/coins.cpp:114-131 | Opening an entry for modification changes no layer's view |
| CoinsViews.CloseIsRight | src/coins.cpp:267-281 | Ending a modification changes what the layer has for its own transaction and nothing else |
| CoinsViews.ModifyIsRight | src/coins.cpp:114-281 | A modification as a whole changes one transaction in one layer |
| CoinsViews.FlushMayWrite | src/coins.cpp:172-180 | The assertion that an entry new to the parent is fresh holds in every flush |
| CoinsViews.MergeIsRight | src/coins.cpp:169-194 | Writing one entry into the parent makes the parent's view of it the child's, in all combinations of flags |
| CoinsViews.BatchWriteIsRight | src/coins.cpp:165-200 | Writing all entries makes the parent's view the child's and keeps the parent in order |
| CoinsViews.FlushIsRight | src/coins.cpp:202-207 | Flushing makes the parent's view the child's, keeps the child's, and touches no deeper layer |
| CoinsViews.FlushBestBlock | src/coins.cpp:198-207 | The best block is handed on exactly if it was set or read, or would be found below the parent anyway |
| CoinsViews.FlushMayLoseBest | src/coins.cpp:198-207 | A stack in good order whose best block changes by flushing a cache that never asked for it |
| CoinsViews.ReadBestIsRight | src/coins.cpp:153-158 | Reading the best block changes no layer's view, nor which transactions a layer holds |
| CoinsViews.ReadIsFreshIff | src/coins.cpp:86-102 | What is read into a cache is fresh exactly if the parent has no unspent outputs for it |
| CoinsViews.NewIsFresh | src/coins.cpp:114-131 | A transaction new to the parent is entered as fresh and dirty |
| CoinsViews.SpentIsForgotten | src/coins.cpp:267-281 | If it is spent again in the cache, nothing of it is left there |
| CoinsViews.OpRefines | src/coins.cpp:86-207 | Each operation does to the layers' coins what it does to a stack of plain maps, and to their best blocks exactly if it is no flush that fails to hand its best block on; reads return the maps' entries, and the nearest best block |
| CoinsViews.RunRefines | src/coins.cpp:86-207 | The same for every sequence of operations: pushing layers, reading, modifying, flushing, reading and setting best blocks |
| CoinsCache.CCoinsViewDB.BatchWrite | src/txdb.cpp:58-77 | Stores dirty entries, erases pruned ones, and takes the best block if there is one |
| CoinsCache.CCoinsViewCache.constructor | src/coins.cpp:79 | A new cache is an empty layer on its base |
| CoinsCache.CCoinsViewCache.FetchCoins | src/coins.cpp:86-102 | Result and new state of all layers are those of the value-level read |
| CoinsCache.CCoinsViewCache.GetCoins | src/coins.cpp:104-112 | Returns what the view stands for, and changes no layer's view |
| CoinsCache.CCoinsViewCache.HaveCoins | src/coins.cpp:143-151 | True exactly if the view has unspent outputs for the transaction |
| CoinsCache.CCoinsViewCache.ModifyCoins | src/coins.cpp:114-131 | Opens the entry, dirty, with the coins that the view stands for; only one modification at a time |
| CoinsCache.CCoinsViewCache.EndModify | src/coins.cpp:273-281 | Stores the coins cleaned up, or drops the entry if it is fresh and pruned |
| CoinsCache.CCoinsViewCache.SetBestBlock | src/coins.cpp:160-163 | Changes the layer's best block only |
| CoinsCache.CCoinsViewCache.GetBestBlock | src/coins.cpp:153-158 | Returns the nearest best block that is set, and remembers it in the layers above |
| CoinsCache.CCoinsViewCache.BatchWrite | src/coins.cpp:165-200 | Merges the child's entries into the cache; the assertion on fresh entries holds |
| CoinsCache.CCoinsViewCache.Flush | src/coins.cpp:202-207 | The base's view becomes the cache's, the cache's view stays, and the cache is empty |
| CoinsCodec.HasUnspent | src/coins.h:204-206 | The assertion in serializing holds if and only if the coins are not pruned |
| CoinsCodec.MaskCodeOfCode | src/coins.h:207-242 | The header code gives back the number of nonzero mask bytes, in spite of the one that is not counted, and all four flags |
| CoinsCodec.ReadWrittenMasks | src/coins.h:212-253 | Counting nonzero bytes reads exactly the mask that was written, whatever follows |
| CoinsCodec.DecodeEncoded | src/coins.h:199-263 | Any coins that are not pruned are read back, cleaned up |
| CoinsCodec.EncodeDecoded | src/coins.h:199-263 | What is read is clean, not pruned, and encodes to exactly the items read, of any items that reading outputs can yield |
| CoinsCodec.DecodingIsExact | src/coins.h:199-263 | Of streams of items that reading can yield, exactly those that start with the encoding of clean coins that are not pruned are accepted, and those coins are read |
| CoinsBytes.RecordRoundTrip | src/coins.h:199-263 | The bytes of any record with payable outputs are read back as the record, cleaned up, whatever follows them |
| CoinsBytes.RecordIsExact | src/coins.h:199-263 | The bytes of a clean record are exactly those that are read as it without losing bits of a number and without a script in a form in which it would not be written |
| CoinsBytes.RecordIsClean | src/coins.h:230-263 | Whatever bytes are read as a record, it is clean and not pruned, and if it is worth money it could be written |
| CoinsExample.FirstExample | src/coins.h:41-53 | The bytes of the first record of the documentation, with 8 for the code of a second output |
| CoinsExample.SecondExample | src/coins.h:56-72 | The bytes of the second one, with two mask bytes and 17 for the code |
| Bits.ByteIsSum | src/coins.h:214-217 | A byte is the sum of its bits' weights, 1 to 128 |
| Bits.BitIsQuotient | src/bloom.cpp:85 | Bit i of a byte is set exactly if dividing the byte by 2^i leaves an odd number |
| CoinsBytes.RecordFollows | src/coins.h:230-263 | Reading the bytes of any items gives what reading the items gives |
| CoinsBytes.RecordWasRead | src/coins.h:230-263 | Whatever is read from bytes is read from some items, whose bytes those are if nothing is lost |
| CoinsBytes.OutputWasRead | src/compressor.h:114-127 | An output that is read has a script short enough to be written, an amount that reading can yield, and is written as it was read if nothing is lost |
| CoinsCodec.CalcMaskSize | src/coins.cpp:17-34 | The number of bytes up to the last nonzero one, and the number of nonzero ones |
| CoinsCodec.Serialize | src/coins.h:200-227 | Writes the encoding; its assertion holds |
| CoinsCodec.WriteMask | src/coins.h:212-219 | Writes the mask bytes, which are what `MaskIsSum` says |
| CoinsCodec.MaskIsQuotient | src/coins.h:212-219 | Dividing a mask byte by 2^p leaves an odd number exactly if its p-th output is there and unspent |
| CoinsCodec.MaskIsSum | src/coins.h:212-219 | A mask byte is the sum of 2^p over its unspent outputs |
| CoinsCodec.WriteOutputs | src/coins.h:220-224 | Writes the unspent outputs in order |
| CoinsCodec.Unserialize | src/coins.h:230-263 | Reads what `Decode` reads, or fails where it does, on any stream |
| CoinsCodec.UnserializeMask | src/coins.h:243-253 | Reads mask bytes until the announced number of nonzero ones, as flags |
| CoinsCodec.UnserializeOutputs | src/coins.h:254-259 | Reads one output for each flag that is set |
| CoinsUndo.Spend | src/coins.cpp:36-52 | Fails for outputs that are not there; otherwise marks the output spent, with undo data that has the metadata if it was the last |
| CoinsUndo.UndoSpend | src/main.cpp:2736-2754 | Restores one output as disconnecting a block does, and reports whether it found the coins in order |
| CoinsUndo.UndoOne | src/main.cpp:2736-2754 | Undoing a spend brings its output back whether or not the emptied record was kept; exactly when it is reported as clean |
| CoinsUndo.UndoAll | src/main.cpp:2734-2758 | The same for any series of spends of a transaction's outputs, undone in reverse order |
| CoinsUndo.UndoIsExact | src/main.cpp:2734-2758 | The whole record comes back if and only if something was left unspent, or the record is none of a coinstake with a height, or had nothing to lose |
| CoinsUndo.StakeFlagIsLost | src/main.cpp:2738-2745 | A coinstake record, with its empty first output, that comes back without its flag, reported as clean, after both outputs were spent |
| CoinsUndo.MarkerKeepsStake | src/primitives/transaction.cpp:144-155 | Undoing any spends of a coinstake record but that of the empty output that marks it restores the record |
| CheckQueueProtocol.EveryRunIsOk | src/checkqueue.h:69-158 | For any number of workers, any checks added and any interleaving, the invariant holds: the counters are exact, every check is in the queue, in one batch or done |
| CheckQueueProtocol.StepKeeps | src/checkqueue.h:69-127 | Every critical section of every thread keeps it, after a notification or without one |
| CheckQueueProtocol.AddKeeps | src/checkqueue.h:146-158 | Adding checks keeps it |
| CheckQueueProtocol.WaitIsRight | src/checkqueue.h:92-100 | Waiting returns true exactly if every check added since the last time succeeded; each has then been done exactly once, and the queue is idle |
| CheckQueueProtocol.IdleBetweenWaits | src/checkqueue.h:164-190 | Between waiting and adding again the queue is idle, so that the controller's assertion holds |
| CheckQueueProtocol.WaitProgresses | src/checkqueue.h:83-103 | While the master waits, some thread that can run makes it return or leaves less work; a master not notified implies a worker that holds a batch |
| CheckQueueProtocol.BatchFits | src/checkqueue.h:105-117 | A batch has a check at least, and no more than the queue has or the batch size allows |
| CheckQueueProtocol.BatchIsShare | src/checkqueue.h:105-111 | A batch is the largest within the batch size of which as many as there are threads, and one more, fit into the queue, or one check |
| CheckQueueProtocol.AddWakes | src/checkqueue.h:154-157 | Adding one check wakes one waiting worker, adding more wakes all, and the master is not woken |
| CheckQueueProtocol.NothingLeft | src/checkqueue.h:92-100 | When nothing is left to do, no thread holds a check and the running result is that of all checks |
| CheckQueue.CCheckQueue.constructor | src/checkqueue.h:131 | A new queue is in the initial state of the protocol |
| CheckQueue.CCheckQueue.Add | src/checkqueue.h:146-158 | Appends the checks, counts them, and wakes one worker or all |
| CheckQueue.CCheckQueue.Loop | src/checkqueue.h:69-127 | One round is one step of the protocol; what the master returns is right and the queue is idle then |
| CheckQueue.CCheckQueue.Account | src/checkqueue.h:79-86 | Accounts for a finished batch, and tells the master after the last one |
| CheckQueue.CCheckQueue.Stop | src/checkqueue.h:91-104 | Leaves with the result if nothing is left to do, or waits |
| CheckQueue.CCheckQueue.TakeBatch | src/checkqueue.h:105-119 | Takes a batch of the right size off the back of the queue |
| CheckQueue.CCheckQueue.PopChecks | src/checkqueue.h:110-117 | Moves checks one by one; queue and batch together stay what the queue was |
| CheckQueue.CCheckQueue.IsIdle | src/checkqueue.h:164-168 | True exactly in an idle state of the protocol |
| Base58.ReadingOfEncoding | src/base58.cpp:84-117 | Reading back the encoding of any byte string gives it, leading zeros included |
| Base58.EncodingOfReading | src/base58.cpp:23-67 | Encoding what any string over the alphabet stands for gives that string |
| Base58.DecodingExact | src/base58.cpp:23-67 | The decoder accepts exactly the encodings, up to white space at both ends, and returns what they encode |
| Base58.DecodingOfEncoding | src/base58.cpp:23-117 | Decoding undoes encoding |
| Base58.EncoderBufferSuffices | src/base58.cpp:92-93 | The buffer of the encoder holds every input of its length (138/100 exceeds log 256 / log 58) |
| Base58.DecoderBufferSuffices | src/base58.cpp:37-38 | The buffer of the decoder holds every input of its length (733/1000 exceeds log 58 / log 256) |
| Base58.MultiplyAdd | src/base58.cpp:47-52 | The in-place carry loop multiplies the number in the buffer and adds to it, except for the carry that is left |
| Base58.AbsorbDigit | src/base58.cpp:46-53 | No carry is left, so that the assertion holds, as long as the buffer has the computed size |
| Base58.Encode | src/base58.cpp:84-117 | Produces the encoding |
| Base58.Decode | src/base58.cpp:23-67 | Accepts and returns what `Decoding` does, on any string without an embedded end |
| Base58.EncodeCheck | src/base58.cpp:129-136 | Appends four bytes of checksum before encoding |
| Base58.DecodeCheck | src/base58.cpp:138-153 | Accepts exactly the checksummed encodings, for every hash, and returns their data |
| Base58.Base58IsAlphabet | src/base58.cpp:20-21 | The program's 58 symbols are different and none is white space |
| Base58.SymbolAt | src/base58.cpp:20-21 | The symbols in order: digits but 0, capitals but I and O, small letters but l |
| Base58.EncodingIsNumber | src/base58.cpp:84-117 | The symbols make the same number as the bytes, with one zero symbol for each leading zero byte |
| Base58.ThreeBytes | src/test/data/base58_encode_decode.json:4 | Three bytes of 0x62 are written as a3gV |
| VarInt.ReadWritten | src/serialize.h:401-468 | Reading what was written gives the number and what follows it |
| VarInt.ReadIsExact | src/serialize.h:411-416 | Whatever can be read is the encoding of what is read: every number has exactly one |
| VarInt.ReadSucceeds | src/serialize.h:411-416 | Every string with a byte below 128 starts with an encoded number: none is redundant |
| VarInt.EncodedIsSum | src/serialize.h:401-424 | The encoding of a number is the one byte string, all but its last byte having the high bit, whose digits times powers of 128, one more for all but the last, add up to it |
| VarInt.BufferSuffices | src/serialize.h:441 | The writer's buffer has room for every number of its width |
| VarInt.WriteVarInt | src/serialize.h:438-453 | Writes the encoding, digits being stored last first and written in reverse |
| VarInt.ReadVarInt | src/serialize.h:455-468 | Reads a number, or fails where the bytes end before it does |
| Compressor.DecompressCompressed | src/compressor.cpp:138-180 | Every amount is restored from its compressed form |
| Compressor.CompressDecompressed | src/compressor.cpp:138-180 | Every number is the compressed form of the amount it stands for, so the two are inverse bijections |
| Compressor.CompressedBound | src/compressor.cpp:138-155 | A compressed amount is at most ten times the amount, so that nothing wraps below a tenth of the 64-bit range |
| Compressor.CompressedIs | src/compressor.cpp:128-153 | The code of an amount whose digits end with d and then e zeroes, fewer than nine, in terms of these |
| Compressor.CompressedOfLarge | src/compressor.cpp:151-153 | The code of an amount with nine zeroes at the end or more, and of zero |
| Compressor.DecimalForm | src/compressor.cpp:138-155 | Every amount is of one of these forms |
| Compressor.AmountPairs | src/test/compress_tests.cpp:41-46 | The codes of the amounts that the program's tests list |
| Compressor.NeverNull | src/compressor.cpp:157-180 | No compressed amount is read as the amount of -1 that marks a null output |
| Compressor.CompressAmount | src/compressor.cpp:138-155 | Computes the compressed amount modulo 2^64 |
| Compressor.DecompressAmount | src/compressor.cpp:157-180 | Computes the amount modulo 2^64 |
| Compressor.SpecialIsExact | src/compressor.cpp:44-120 | A script has a special form exactly if that form expands to it, for all six tags |
| Compressor.FormsOfScripts | src/compressor.cpp:44-73 | The forms of the four special kinds of scripts, byte by byte |
| Compressor.OthersArePlain | src/compressor.h:76-80 | All other scripts are written as they are after their length plus six |
| Compressor.Compress | src/compressor.cpp:44-73 | Returns the special form, if there is one |
| Compressor.ScriptRoundTrip | src/compressor.h:70-97 | Every script is read back; it was written with a tag below 6 exactly if it has a special form |
| Compressor.ScriptReadIsExact | src/compressor.h:70-97 | The bytes read are those that would be written for the script if and only if the length fits, a special form is a valid key, and a script read from plain bytes has no special form |
| Compressor.RawFormIsRead | src/compressor.h:92-96 | Every script with a special form is read from its plain bytes too, which are not what would be written |
| Compressor.Serialize | src/compressor.h:70-81 | Writes the special form, or the length plus 6 and the script |
| Compressor.Unserialize | src/compressor.h:83-97 | Reads what `Decoding` reads, or fails where the bytes end; invalid keys leave the script as it was |
| Compressor.SerializeOutput | src/compressor.h:114-127 | Writes amount and script |
| Compressor.UnserializeOutput | src/compressor.h:114-127 | Reads amount and script |
| Compressor.OutputRoundTrip | src/chainparams.cpp:133 | Every output worth up to all the money there may be is read back as written |
| Blocks.Extend | src/main.cpp:4806-4810 | A block added with its skip pointer keeps the index linked: skip pointers lead to true ancestors |
| Blocks.SkipIs | src/main.cpp:4764-4776 | An even height skips to the height without its lowest bit, an odd one to one above that without its two lowest bits |
| Blocks.GetAncestor | src/main.cpp:4778-4799 | Skipping finds the same ancestor as following parents one by one, and none at heights there is none |
| Blocks.LastCommonAncestor | src/main.cpp:397-413 | The highest common ancestor, or none for blocks with different roots |
| Blocks.LastCommonIsUnique | src/main.cpp:395-413 | There is only one |
| Blocks.CommonAncestors | src/main.cpp:395-413 | The common ancestors are exactly its ancestors |
| ChainIndex.CChain.SetTip | src/chain.cpp:13-24 | The chain is the path of the new tip at every height, in spite of the early stop |
| ChainIndex.CChain.FindFork | src/chain.cpp:55-62 | The highest common ancestor of a block and the tip |
| ChainIndex.CChain.GetLocator | src/chain.cpp:26-53 | The same locator whether ancestors are looked up in the chain or by following pointers |
| ChainIndex.CChain.ContainsAncestors | src/chain.h:556-560 | A chain contains exactly the ancestors of its tip |
| ChainIndex.CChain.NextIsChild | src/chain.h:562-569 | The next block is the one whose parent a block is |
| ChainIndex.LocatorFalls | src/chain.cpp:26-53 | A locator lists ancestors of its start at strictly falling heights, from itself to the genesis block |
| ChainIndex.LocatorLength | src/chain.cpp:26-53 | Its exact length: one entry for each height up to 10, then 11 plus the logarithm of the height less 9, rounded up |
| ChainIndex.FindForkInGlobalIndex | src/main.cpp:535-547 | The first entry of a locator that is in the chain, or the genesis block |
| ChainIndex.SyncPoint | src/main.cpp:535-547 | For the locator of any block with a common ancestor with the tip it is the highest entry at or below the fork |
| StakeModifier.GetLastStakeModifier | src/kernel.cpp:45-56 | Modifier and time of the nearest block, going back, that one was generated at |
| StakeModifier.LastGeneratedIs | src/kernel.cpp:45-56 | That is the first one going back, if there is any |
| StakeModifier.GetStakeModifierSelectionInterval | src/kernel.cpp:67-74 | The sum of all 64 sections |
| StakeModifier.SectionsGrow | src/kernel.cpp:59-64 | No section is shorter than the one before, and the last is three times the first |
| StakeModifier.SectionIs | src/kernel.cpp:59-64 | Section n has 3780 seconds divided by 189 less 2n, rounded down |
| StakeModifier.SelectBlockFromCandidates | src/kernel.cpp:79-137 | Picks the first of those not taken and not after the stop that has the least hash, or the first not taken; fails on indexed blocks only if all are taken |
| StakeModifier.StakeIsFavoured | src/kernel.cpp:109-134 | In every round of a generated modifier: a proof-of-work block is picked only if every eligible proof-of-stake block has a hash at least 2^32 times as large; hashes are of the blocks' own, or for proof-of-stake blocks of zero below the upgrade height; of equally good blocks the first is picked |
| StakeModifier.SelectionIs | src/kernel.cpp:109-124 | By what a block is selected: its hash, or that divided by 2^32 for proof-of-stake |
| StakeModifier.PickIsUnique | src/kernel.cpp:79-137 | That determines the pick |
| StakeModifier.CollectCandidates | src/kernel.cpp:179-193 | Collects the blocks of the interval and sorts them by time |
| StakeModifier.RecentAre | src/kernel.cpp:185-188 | Going back, exactly the blocks before the first one that is too early are candidates |
| StakeModifier.SortedCandidates | src/kernel.cpp:179-193 | The candidates are sorted, and are different indexed blocks |
| StakeModifier.RunRounds | src/kernel.cpp:195-215 | No round fails; as many picks as candidates, up to 64, and their entropy bits as the modifier |
| StakeModifier.RunIsDistinct | src/kernel.cpp:199-211 | No block is picked twice |
| StakeModifier.RunIsUnique | src/kernel.cpp:199-211 | The picks are determined by candidates, interval and hashes |
| StakeModifier.SomeFree | src/kernel.cpp:203-205 | As long as rounds remain, a candidate is free |
| StakeModifier.ModifierBits | src/kernel.cpp:207-208 | Bit r of the modifier is the bit of round r |
| StakeModifier.LastStop | src/kernel.cpp:182-201 | In a run of 64 rounds the last pick is made with the block's time, rounded down to the modifier interval, as its stop |
| StakeModifier.LateOnlyIfNoneEarlier | src/kernel.cpp:91-137 | In every round of a generated modifier, the pick is later than the round's stop if and only if no block at or before the stop was left to take |
| StakeModifier.IsDueIff | src/kernel.cpp:175-176 | A new modifier is due exactly if a multiple of 60 seconds lies after the last one and not after the block |
| StakeModifier.ComputeNextStakeModifier | src/kernel.cpp:152-243 | On indexed ancestors it fails only if no modifier was ever generated; keeps the last one when none is due; otherwise generates one from the rounds |
| StakeModifier.GeneratedModifier | src/kernel.cpp:195-241 | A generated modifier is a 64-bit number, bit by bit the entropy bits of different blocks, and no other picks satisfy the rounds |
| Accumulators.ParseOfCheckpoint | src/accumulators.cpp:20-26 | Each checksum can be read back from the packed checkpoint |
| Accumulators.CheckpointDigits | src/accumulatormap.cpp:88-101 | The checksum of the first denomination is the most significant 32 bits of the checkpoint, and so on |
| Accumulators.CheckpointFits | src/accumulatormap.cpp:88-101 | Eight 32-bit checksums fit into 256 bits |
| Accumulators.AccumulatorMap.Reset | src/accumulatormap.cpp:28-41 | Back to the initial values |
| Accumulators.AccumulatorMap.Load | src/accumulatormap.cpp:44-56 | Loads the values that the checksums stand for, or fails if one is not in the database |
| Accumulators.AccumulatorMap.Accumulate | src/accumulatormap.cpp:66-77 | Adds a coin to the accumulator of its denomination only, or fails for the error denomination |
| Accumulators.AccumulatorMap.GetCheckpoint | src/accumulatormap.cpp:88-101 | The checksums of all values, packed in order |
| Accumulators.GetChecksumHeight | src/accumulators.cpp:38-61 | Over any chain, the first of the heights looked at whose checkpoint has the checksum; where checkpoints change at multiples of ten only, the first of all heights, though nine of ten are skipped |
| Accumulators.Node.EraseCheckpoints | src/accumulators.cpp:149-182 | Erases the checksums of a range of blocks, sparing only what the code spares |
| Accumulators.Node.InitializeAccumulators | src/accumulators.cpp:184-229 | Where to start accumulating and from which values, in all four cases, and what is erased |
| Accumulators.Node.CalculateAccumulatorCheckpoint | src/accumulators.cpp:232-297 | The checkpoint that is due at a height and the values it commits to, or failure |
| Accumulators.Node.AccumulateMints | src/accumulators.cpp:254-287 | Adds every mint of the blocks in the window once, and counts them |
| Accumulators.Node.ValidateAccumulatorCheckpoint | src/accumulators.cpp:304-329 | Accepts exactly the checkpoint that is calculated, and no change between multiples of ten |
| Accumulators.Node.DatabaseChecksums | src/accumulators.cpp:86-104 | Writes all eight values under their checksums from the second protocol version on |
| Accumulators.Node.ConnectBlock | src/main.cpp:3306-3371 | Validates, databases and appends a block, or leaves the chain as it was |
| Accumulators.RefusedElsewhere | src/accumulators.cpp:304-329 | At any height but that of the recalculation, validating a block leaves the database as it was |
| Accumulators.RefusalAtRecalculation | src/accumulators.cpp:149-202 | If the recalculation can be done, it can no longer be done after validating one block if and only if the second version has started, the height is a multiple of ten, and erasing a checkpoint since the last good one takes one of the good checksums; no block is connected then |
| Accumulators.SameCheckpointIsTaken | src/accumulators.cpp:163-173 | A checkpoint equal to the one to be spared is erased unless, as a whole, it equals one of its own checksums |
| Accumulators.RecalculationIsLost | src/accumulators.cpp:149-202 | So if the height after the last good one is no multiple of ten, no second block can be connected at the recalculation height, or else no block erases anything there |
| Accumulators.RecalculationMayBeLost | src/accumulators.cpp:149-202 | A chain at which a block is accepted, but not after another has been refused |
| Accumulators.NothingStoredBelowV2 | src/accumulators.cpp:86-93 | Below the start of the second version no run of blocks is refused for a checkpoint, and none erases or writes a checksum |
| Accumulators.MintsSplit | src/accumulators.cpp:254-287 | The mints of adjoining windows make up those of the window that they cover |
| Accumulators.MintsOfBlock | src/accumulators.cpp:262-283 | The mints of one block: none before the zerocoin protocol starts |
| Accumulators.FoldAt | src/accumulatormap.cpp:66-77 | Each accumulator takes the coins of its own denomination, in order, and no others |
| Accumulators.CalculatedFrom | src/accumulators.cpp:253-296 | The mints that are accumulated are those from twenty blocks before the start up to eleven before the height; without any the checkpoint stays |
| Accumulators.HardStart | src/accumulators.cpp:204-218 | In the first twenty blocks of the second version accumulating starts from hard-coded values |
| Accumulators.AcceptedIff | src/accumulators.cpp:304-329 | Exactly which blocks are accepted |
| Accumulators.SteadyStart | src/accumulators.cpp:220-228 | In the steady state accumulating starts from exactly the values the previous block commits to |
| Accumulators.NextWindow | src/accumulators.cpp:254-287 | Ten blocks on, the values have grown by the mints of one more window |
| Accumulators.ConnectTenth | src/accumulators.cpp:311-323 | Connecting a multiple of ten keeps what the tip commits to in step |
| Accumulators.ConnectPlain | src/accumulators.cpp:325-328 | So does connecting any other block, in spite of what it writes to the database |
| Accumulators.RunCommits | src/accumulators.cpp:184-329 | Over any run of connected blocks without a recalculation the tip commits to the first checkpoint's values plus every mint since, from ten blocks before, each exactly once |
| Bloom.CBloomFilter.Insert | src/bloom.cpp:50-60 | Sets the bits of the key, unless the filter is full |
| Bloom.CBloomFilter.Contains | src/bloom.cpp:76-89 | Answers with the shortcuts, or by the bits |
| Bloom.CBloomFilter.constructor | src/bloom.cpp:24-43 | A new filter of any size is all zeros with no shortcut set, and is valid exactly if it has a byte |
| Bloom.CBloomFilter.Received | src/bloom.h:67-78 | A received filter is marked full until its shortcuts are set, and is valid exactly if it is full |
| Bloom.CBloomFilter.Clear | src/bloom.cpp:105-110 | All bits zero, marked empty; valid afterwards exactly if the filter has a byte |
| Bloom.CBloomFilter.UpdateEmptyFull | src/bloom.cpp:181-191 | Marks the filter full or empty exactly when it is; makes any filter valid |
| Bloom.CBloomFilter.IsRelevantAndUpdate | src/bloom.cpp:117-179 | The answer and the filter afterwards, as `Matched` says |
| Bloom.CBloomFilter.MatchOutputs | src/bloom.cpp:130-156 | Outputs are matched in order, each against the filter that those before have left |
| Bloom.CBloomFilter.MatchInputs | src/bloom.cpp:161-176 | Finds whether an input's outpoint or a data element of its script matches |
| Bloom.InsertedBits | src/bloom.cpp:50-60 | Inserting sets exactly the bits of the key |
| Bloom.WithHas | src/bloom.cpp:50-60 | After inserting, the filter has the key and everything it had before |
| Bloom.ContainsIsPlain | src/bloom.cpp:76-89 | The shortcuts agree with the plain bit test if and only if not an empty filter without hash functions is asked |
| Bloom.AnswersByBytes | src/bloom.cpp:76-89 | A filter answers yes exactly if the bit that each hash comes to, modulo the number of bits, is one in the bytes received |
| Bloom.InsertSetsBytes | src/bloom.cpp:50-60 | Inserting a key sets those bits in the bytes and no others |
| Bloom.EmptyDeniesAll | src/bloom.cpp:76-89 | A valid filter of one zero byte without hash functions, marked empty, denies every key, each of which it has by the bit test |
| Bloom.MatchedOutput | src/bloom.cpp:130-156 | A filter that has a data element of an output reports the transaction and then has the output's outpoint, if it is to be updated with it |
| Bloom.MatchedBits | src/bloom.cpp:130-156 | After matching the filter has its bits and those of the outpoints of matching outputs that the flags ask for, and no others |
| Bloom.ReportedIff | src/bloom.cpp:117-179 | Exactly which transactions are reported: by their hash, a data element of an output at its turn, or an outpoint or data element of an input |
| Bloom.SpendIsReported | src/bloom.cpp:161-164 | A transaction that spends an outpoint in the filter is reported |
| Bloom.NoKeyIsMissed | src/bloom.cpp:50-191 | Over any run of inserting, matching and marking, every key inserted is found at the end |
| LockedPages.PagesOfRange | src/allocators.h:52-55 | The page loop visits exactly the pages that a byte of the range lies on |
| LockedPages.LockedPageManager.LockRange | src/allocators.h:47-66 | Afterwards every counter is the number of live ranges on its page; the calls made are one lock for each page of the range that no live range was on, in order, and nothing else |
| LockedPages.LockedPageManager.UnlockRange | src/allocators.h:69-89 | The same after unlocking a live range: one unlock for each of its pages that no other live range is on, in order, and nothing else; the assertion holds |
| LockedPages.LockedPageManager.LockPage | src/allocators.h:56-64 | Adds one lock call if the counter leaves zero and no call otherwise |
| LockedPages.LockedPageManager.UnlockPage | src/allocators.h:78-87 | Adds one unlock call if the counter reaches zero and no call otherwise |
| LockedPages.LockedPageManager.GetLockedPageCount | src/allocators.h:92-96 | The number of pages locked, which are exactly those that a live range lies on |
| LockedPages.CountWithout | src/allocators.h:69-89 | Taking a range out lowers the count of the pages it lies on by one, and no other |

## Left out

- The network, RPC, user interface, startup and database code, logging, and requests to shut down.
- Cryptography and hashing: bucket hashes, block hashes, checksums, accumulator increments and MurmurHash3 are arbitrary functions. Of secp256k1 the model assumes only that decompressing inverts compressing for valid keys (`Compressor.IsCurve`).
- Probabilities and floating point: `Select_`, `GetChance`, the sizing of Bloom filters, coin priorities.
- C++ references: an entry of the address manager, a coin record and a block index entry are values in a map or a field, so aliasing between pointers is not modelled. A block index entry is identified with its hash, height, parent and skip pointer.
- Integer widths, except where they matter: amounts are compressed modulo 2^64, address times and limits on spends have 32 bits, address arithmetic of page locks is modular. The doubling step of a locator, entry ids and counters are unbounded.
- The loops that read and write a coin record work on a sequence of numbers, mask bytes and outputs; `CoinsBytes` has their bytes as functions, from the codecs of `VarInt` and `Compressor`. Negative version numbers and the in-memory round count of an output are not modelled.
- `CCoins::GetSerializeSize`, which weighs the mask count by 8 where serializing uses 16 (`src/coins.h:183`), and the bytes of undo records (`src/undo.h:38-58`).
- `GetClosestCheckpoint`: hard-coded checkpoints are a parameter. `GenerateAccumulatorWitness`, `ComputeAccumulatedCoins` and the memory cache of accumulator values; the flag that skips validation while blocks are verified at startup.
- The stake modifier of the block after genesis is the address of a string constant in the program (`src/kernel.cpp:163`); it is a parameter. Kernel hashes and stake checks are not modelled, and the library's sort is a sorting function.
- Parsing of scripts in the Bloom filter: a script is the list of its data elements, and whether it is a pay-to-pubkey or multisig script.
- Block trust, the proof-of-stake variant of `CChain::Tip`, and comparing chains.
- `ParseScript` and `FormatScript`.
- AddrMan.CAddrMan.Unserialize: only into a manager without entries, as at its one call, at startup (`src/net.cpp:1713-1715`). `Clear` leaves the entry maps as they are, so that positions of old entries would lie outside the random order.
- MintSelection.SelectMintsFromList: the coins chosen are in the list, as they are for the held map that its one caller in the program builds (`src/wallet.cpp:1715-1727`, `src/wallet.cpp:4700-4704`); otherwise the loop that collects the mints goes over the list again and takes the same ones twice, or does not end.
- CoinsBytes.RecordIsExact: for outputs worth no more than all the money there may be, scripts whose length plus 6 fits into 32 bits, and numbers of 32 bits.
- CoinsCache.CCoinsViewCache.BatchWrite: the parent changes only through flushes of the cache above it and its own operations, one modification at a time.
- Compressor.ScriptRoundTrip: for scripts whose length plus 6 fits into 32 bits, the width in which it is written.
- Accumulators.RunCommits: checksums of the values in the run do not collide, no checkpoint in it is zero by accident, and no recalculation height is in it.
- Base58.Decode: for strings without an embedded null character, as C strings are.
- ChainIndex.SyncPoint: no two blocks have the same hash.
- LockedPages.LockedPageManager.LockRange: the page after the range's last one is still an address. If the range ends on the top page of memory, the program's loop does not end; if it runs past the top, its last page wraps to one below its first and the loop does nothing.

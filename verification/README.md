# Sequentia, modelled and proved in Dafny

A model of the parts of the Sequentia node whose correctness is hardest to see from the code, and
proofs of what they promise. The files follow the program's components:

| file | component |
|---|---|
| Coins.dfy | the stack of coin caches over the coin database, with DIRTY/FRESH flags and peg-in entries |
| CheckQueue.dfy | the parallel script-check queue: one master, any number of workers, every interleaving |
| Chain.dfy | the block index with skip pointers, the active chain, forks and locators |
| AnchorCache.dfy | the verdict caches about anchors on the parent (Bitcoin) chain, under parent reorganizations |
| AnchorWatch.dfy | the watcher tick that invalidates blocks whose anchor left the parent's best chain |
| Finality.dfy | the checkpoint finality floor |
| AddrMan.dfy, AddrManCheck.dfy, AddrManFile.dfy | the address manager, its own consistency check, its file format |
| Arith.dfy, Compact.dfy | 256-bit arithmetic on 32-bit limbs, compact targets, proof of work |
| Base58.dfy, Bech32.dfy, Bech32Field.dfy | the address codecs: base 58, bech32(m) and blech32(m), and what their checksum is |
| Blind.dfy | the scalar bookkeeping when several parties blind one transaction |
| CanonicalJson.dfy | canonical JSON of asset contracts |
| CompactBlocks.dfy | reconstruction of a block from a compact announcement |
| Power.dfy | powers and the few facts of arithmetic that the others share |

Code that changes things step by step is imperative here too: the coin stack, the anchor state, the
watcher, the address manager, the 256-bit number, the partial block and the partially signed
transaction are classes; loops are loops. Each method is tied to a specification on values, and the
main results are about those specifications, over every input, every run or every reachable state.

The main results, in short:

- Every legal run of requests against any stack of coin caches, with flushes at any level, shows at
  every level what a plain coin database shows, answers what it answers, and keeps the memory count
  right (`Coins.CoinsViewStack.Run`). So every question is answered with what was last done to the coin
  (`Coins.AnswersAreLastWrites`), a dropped cache leaves no trace (`Coins.DropDiscards`), and a flushed
  one counts as if it had been done below (`Coins.FlushCommits`).
- In every interleaving of the check queue no check that was handed over is lost or handled twice, every
  `Wait` returns true exactly if all checks handed over since the last one are good, no state is a dead
  end, and a `Wait` ends after a bounded number of steps (`CheckQueue.WaitsAnswer`, `NoneLostNoneTwice`,
  `NoDeadEnd`, `WaitEnds`).
- Skip-list ancestor search is the walk along parents; forks and common ancestors are the highest
  common blocks; a locator has the documented shape (`Chain`).
- The parent may move its tip to any block at any time. Whatever is asked in between, every tick that
  reached the daemon leaves true anchor verdicts, if and only if at every such tick the tips since the
  last record agree with the best chain at the heights whose verdicts the tick keeps
  (`AnchorCache.AlwaysTrueIff`). Plain extensions always agree (`AnchorCache.ExtensionsAgree`). A tick
  that judged everything leaves an active chain whose anchors are all canonical, having invalidated only
  blocks with a bad anchor (`AnchorWatch.Watcher.Tick`).
- The finality floor is the highest buried checkpoint of our active chain whose commitment is on the
  parent's best chain, and it retreats only when every commitment to it was judged and none holds it
  (`Finality.FinalityState.UpdatePosFinality`).
- An address that worked in the last four hours keeps its cell of the tried table against every waiting
  one (`AddrMan.AddrManImpl.ResolveCollisions`). No sequence of address manager operations makes its consistency check fail
  (`AddrManCheck.Reachable`), starting from any file that was accepted too (`AddrManFile.LoadAndRun`), and
  saving and loading gives a mirror image (`AddrManFile.SaveAndLoad`).
- The limb algorithms compute modulo 2^256; compact targets round-trip up to the bytes they drop;
  the work of a block is 2^256 / (target + 1).
- The codecs are inverse to each other, in place conversion included, and the bech32 families detect
  every burst of errors as long as their checksum. That checksum is the remainder of division by the
  generator polynomial over the field with 32 elements (`Bech32Field.PolyModIsTheRemainder`).
- A jointly blinded transaction balances if every party that does not complete it passes on a new offset
  (`Blind.GuardedBalances`), and exactly if the losses, which are known before each call, cancel out
  (`Blind.JointlyBalanced`).
- Two contracts have the same canonical text exactly if they are equal up to the order of keys.
- A compact block is rebuilt exactly, and a node asks for exactly the transactions it does not have.

## Where the code and its documentation differ

The model follows the code. Each difference is stated by the member named.

- `CCoinsViewCache::SpendCoin` reports success for a coin that is cached as spent, and for a spent coin
  that the database holds (`Coins.CoinsViewStack.SpendCoin`, with `Coins.SpendCoinSucceedsTwice`).
- `CCoinsViewCache::Flush` of a cache whose best block was never asked for hands the null hash to its
  parent; the best block survives exactly under the condition in `Coins.CoinsViewStack.Flush`, and
  `Coins.FlushLosesBestBlock` is an instance where it does not.
- `CCoinsViewCache::AddCoin` without `possible_overwrite` only looks at the cache it is called on. It
  keeps the invariant exactly if no unspent coin is visible below (`Coins.AddCoinFreshness`), and
  `Coins.MisusedAddCoinRevivesCoin` is the failing case. When it throws, the memory of the cached
  coin was already taken off the count.
- A tip that moves away from the recorded one and back between two ticks goes unnoticed. Verdicts
  taken meanwhile survive, and may be false: `AnchorCache.FlapLeavesFalseVerdict` is a run, and
  `AnchorCache.AlwaysTrueIff` says exactly which behaviour of the parent is harmless.
- `AddrManImpl::CheckAddrman` sees neither stale addresses in the address map nor ids outside the range
  given out; `AddrManCheck.SoundIsAgreement` is the exact gap to the invariant that the operations keep,
  and `AddrManCheck.StaleAddressPasses` an instance.
- `BlindPSBT` stores passed-on offsets in a set and passes nothing on when the output scalar is zero. A
  repeated or missing offset is dropped, and the transaction then need not balance:
  `Blind.RepeatedOffsetIsLost` is a run in every group of five elements or more, and
  `Blind.JointlyBalanced` states the exact condition.

## Model

| member | source | states |
|---|---|---|
| Coins.WriteEntryOk | src/coins.cpp:251-320 | merging one consistent child entry never meets the misapplied-FRESH error, keeps flags, peg-in marks and memory count consistent, and shows through the parent what was seen through the child |
| Coins.WriteToDiskOk | src/txdb.cpp:122-194 | one entry written to the database makes it show what the cache over it showed |
| Coins.AddCoinFreshness | src/coins.cpp:79-118 | the FRESH/DIRTY flags that AddCoin leaves are valid if and only if overwriting was allowed or the view shows no unspent coin |
| Coins.MisusedAddCoinRevivesCoin | src/coins.cpp:79-158 | a run: a coin is added over an unspent coin of the view below and spent again, and the lower coin shows |
| Coins.SpendCoinSucceedsTwice | src/coins.cpp:139-158 | a run: spending a coin a second time reports success and moves nothing |
| Coins.BestFilled | src/coins.cpp:241-245 | remembering the best block of the view below changes the best block of no view |
| Coins.CoinsViewStack.Push | src/coins.cpp:39-39 | a new cache shows what the view below shows and changes nothing else |
| Coins.CoinsViewStack.Drop | src/coins.cpp:27-39 | discarding the top cache leaves all other views |
| Coins.CoinsViewStack.FetchCoin | src/coins.cpp:51-68 | bringing a coin into a cache keeps the invariant and every view; when it finds an entry |
| Coins.CoinsViewStack.GetCoin | src/coins.cpp:70-77 | the coin that the plain database would show, unspent exactly on success, no view changed |
| Coins.CoinsViewStack.AddCoin | src/coins.cpp:79-118 | afterwards the top view shows the coin at its outpoint, unless it is unspendable, and everything else as before; an unspendable coin changes nothing at all; exactly when it throws; exactly when the invariant survives |
| Coins.CoinsViewStack.SpendCoin | src/coins.cpp:139-158 | the top view shows no coin at the outpoint and everything else as before, the caller gets the coin, no other view changes; exactly when it reports success; what it does to a cached coin even in an inconsistent stack |
| Coins.CoinsViewStack.Uncache | src/coins.cpp:330-343 | exactly an unmodified entry is dropped, and no view changes |
| Coins.CoinsViewStack.IsPeginSpent | src/coins.cpp:194-209 | whether the plain database has the peg-in as spent; no view changes |
| Coins.CoinsViewStack.SetPeginSpent | src/coins.cpp:211-236 | the top view has exactly this peg-in set as asked, no other view changes, the invariant is kept |
| Coins.CoinsViewStack.GetBestBlock | src/coins.cpp:241-245 | the best block that the stack defines, remembered on the way without changing any view |
| Coins.CoinsViewStack.SetBestBlock | src/coins.cpp:247-249 | only the best block of the top cache changes, and the stack reports it |
| Coins.CoinsViewStack.BatchWrite | src/coins.cpp:251-321 | for any child, exactly when it throws, what every slot of the parent is then and otherwise, and that no other level changes; a consistent child never makes it throw, and the parent shows the child's view afterwards, in whatever order the entries come |
| Coins.CoinsViewStack.WriteToDb | src/txdb.cpp:122-194 | the database shows the child's view afterwards and has the new best block |
| Coins.CoinsViewStack.Flush | src/coins.cpp:323-328 | the view below becomes the top view, the cache is empty, nothing throws; exactly when the best block is carried over |
| Coins.CoinsViewStack.FlushLevel | src/coins.cpp:323-328 | flushing an inner cache changes only the view below it; the caches above show what they showed |
| Coins.Reattached | src/coins.cpp:27-39 | the upper part of a stack works on any lower part that shows the same |
| Coins.FlushLosesBestBlock | src/coins.cpp:323-328 | a cache that was never asked for its best block makes its parent forget the one it had |
| Coins.CoinsViewStack.Do | src/coins.cpp:51-343 | each request changes the views, and replies, as one step of the plain coin database |
| Coins.CoinsViewStack.Run | src/coins.cpp:51-343 | whole runs of pushes, flushes at any level, drops, additions, spends and peg-ins refine the plain coin database, replies included |
| Coins.ViewIsNearest | src/coins.cpp:51-77 | a view shows the entry of the nearest cache that has one, or else the database |
| Coins.LastWriteWins | src/coins.cpp:51-236 | after any run without a drop every outpoint and peg-in shows what was last done to it; unspendable coins are never added |
| Coins.AnswersAreLastWrites | src/coins.cpp:51-236 | so every question in a run is answered |
| Coins.DropDiscards | src/coins.cpp:27-39 | whatever is done in a new cache that is then dropped has no effect |
| Coins.FlushCommits | src/coins.cpp:323-328 | whatever is done in a new cache that is then flushed and dropped is done to the cache below |
| CheckQueue.CleanUpKeeps | src/checkqueue.h:78-103 | reporting the last batch, or waking up, keeps every count, every check and every verdict |
| CheckQueue.ProceedKeeps | src/checkqueue.h:91-119 | returning, waiting or taking a batch keeps the invariant |
| CheckQueue.StepKeeps | src/checkqueue.h:69-185 | every step of every thread keeps conservation of checks, the counters and the meaning of the verdicts |
| CheckQueue.RunKeeps | src/checkqueue.h:69-185 | the invariant holds in every state of every run |
| CheckQueue.RunsAreCorrect | src/checkqueue.h:69-185 | from the start: nothing lost or duplicated, nTodo/nIdle/nTotal exact, and every Wait returned true if and only if all checks added for it are good |
| CheckQueue.StepHistory | src/checkqueue.h:69-185 | one step notes what is handed over; exactly a return from Wait, which only a called Wait makes, settles it with the right answer |
| CheckQueue.WaitsAnswer | src/checkqueue.h:69-185 | read off the steps of any run: each Wait that returns answers whether all checks handed over since the Wait before are good; there is one answer per call; the checks answered for and those still open are, in order, those handed over |
| CheckQueue.NoneLostNoneTwice | src/checkqueue.h:105-130 | in any run the checks handed over are, as a multiset, those handled so far and those still queued or in a batch |
| CheckQueue.ReturnsWhenAllHandled | src/checkqueue.h:91-103 | when a Wait returns every check was handled as often as it was handed over |
| CheckQueue.MasterNeverStuck | src/checkqueue.h:91-103 | a master blocked in Wait always has a worker that holds a batch and can go on |
| CheckQueue.NoDeadEnd | src/checkqueue.h:69-185 | in every state of every run the master can go on, or it is in Wait and some thread can |
| CheckQueue.StepMakesProgress | src/checkqueue.h:69-130 | while the master waits, every step but a spurious wake-up lowers a measure |
| CheckQueue.WaitEnds | src/checkqueue.h:162-166 | a Wait ends after a number of steps bounded by the work queued and the spurious wake-ups |
| Chain.BlockIndex.constructor | src/chain.cpp:145-149 | a new block's skip pointer is its ancestor at the skip height, and the index stays well formed |
| Chain.LowestOneIsOff | src/chain.cpp:100-100 | n & (n - 1) takes off the largest power of two that divides n |
| Chain.BlockIndex.GetAncestor | src/chain.cpp:99-138 | the skip-list search gives the ancestor that the walk along parents gives, or null outside the range |
| Chain.AncestorTransitive | src/chain.cpp:113-138 | an ancestor of an ancestor is the ancestor |
| Chain.PathAt | src/chain.cpp:19-29 | the path to a block holds its ancestors in order, and its prefixes are their paths |
| Chain.CChain.SetTip | src/chain.cpp:19-29 | the chain vector is the whole path to the new tip, whatever it held before |
| Chain.CChain.ContainsIsAncestor | src/chain.h:688-700 | a block is in the chain if and only if it is the tip or one of its ancestors |
| Chain.CChain.FindFork | src/chain.cpp:80-89 | the highest block of the chain that is an ancestor of the given one, null exactly if there is none |
| Chain.CChain.GetLocator | src/chain.cpp:31-57 | the locator by vector and skip list is the one that walks along parents |
| Chain.LocatorShape | src/chain.cpp:31-57 | it starts at the block, ends at genesis, has ancestors only, and its steps are one eleven times and then double |
| Chain.LastCommonAncestor | src/chain.cpp:190-205 | the highest block that both descend from, null exactly if there is none |
| AnchorCache.ForkHeightIsExact | src/anchor.cpp:296-327 | the two parent chains agree at every height up to the fork height and differ at every one above |
| AnchorCache.MainchainUnchangedHeight | src/anchor.cpp:328-362 | the bounded walk back finds the fork height, or reports that nothing is known if an answer is missing or the walk is too long |
| AnchorCache.InterpretIsTruthful | src/anchor.cpp:616-640 | a definitive verdict on an honest reply is the truth about the parent's best chain, and a canonical anchor gets OK |
| AnchorCache.AnchorState.CacheAnchorVerdict | src/anchor.cpp:588-613 | which verdicts are remembered where, with the bound on the OK cache |
| AnchorCache.AnchorState.DropAnchorCachesAbove | src/anchor.cpp:364-382 | exactly the verdicts up to the unchanged height stay |
| AnchorCache.AnchorState.CheckMainchainAnchor | src/anchor.cpp:695-743 | the verdict and the new caches in every case: cached, recently unknown, unreachable, not synced, answered; with true caches and an honest reply a positive verdict means the anchor is canonical and a negative one that it is not |
| AnchorCache.AnchorState.NoticeTip | src/anchor.cpp:1057-1094 | what a tick keeps and what it records |
| AnchorCache.TickKeeps | src/anchor.cpp:1057-1094 | if the tips where verdicts were cached agree with the best chain at the kept heights, a tick that reached the daemon leaves true verdicts |
| AnchorCache.MoveKeeps | src/anchor.cpp:296-382 | any growth or move of the parent keeps every verdict true of the recorded chain or of a tip where it was cached |
| AnchorCache.AskKeeps | src/anchor.cpp:695-743 | a question keeps that too, with the best tip added if it cached a verdict |
| AnchorCache.RunsAreSound | src/anchor.cpp:1057-1094 | in every run, with the parent moving at any time, ticks that find agreeing tips leave verdicts that are all true of the best chain |
| AnchorCache.AlwaysTrueIff | src/anchor.cpp:1057-1094 | a behaviour of the parent and of the ticks leaves true verdicts whatever is asked, if and only if all tips since the last record agree with the best chain at the heights each tick keeps |
| AnchorCache.DetourLeavesFalsehood | src/anchor.cpp:1057-1094 | a tip that disagrees at a kept height: one honest answer taken there is enough for a false verdict |
| AnchorCache.ExtensionsAgree | src/anchor.cpp:296-327 | tips that extend the recorded chain always agree |
| AnchorCache.CheckIsTruthful | src/anchor.cpp:695-743 | with such caches a definitive verdict of a check is the truth, and the caches stay true |
| AnchorCache.FlapLeavesFalseVerdict | src/anchor.cpp:1057-1094 | a run in which the tip flaps between two ticks and a false verdict stays |
| AnchorWatch.WalkIsAncestry | src/anchor.cpp:1304-1330 | the blocks walked are ancestors of the tip above genesis |
| AnchorWatch.WalkIsComplete | src/anchor.cpp:1304-1330 | the walk visits exactly the blocks of the chain above genesis from which all blocks up to the tip carry an anchor, each one height below the one before |
| AnchorWatch.LastIsLowest | src/anchor.cpp:1336-1394 | the last bad block of the walk is the lowest bad one of those blocks |
| AnchorWatch.LastBadFacts | src/anchor.cpp:1336-1394 | what is reported is the lowest block with a bad anchor, or there is none |
| AnchorWatch.CoversMore | src/anchor.cpp:1309-1329 | blocks that share an anchor are gathered into consecutive runs named by their lowest block |
| AnchorWatch.JudgeRun | src/anchor.cpp:1311-1394 | one verdict settles a whole run of blocks |
| AnchorWatch.Watcher.Snapshot | src/anchor.cpp:1304-1330 | the runs cover exactly the anchored blocks of the active chain |
| AnchorWatch.Watcher.FetchBatch | src/anchor.cpp:667-689 | a batch that fails leaves the caches as they were; one that is answered with headers decides each of its anchors, unless the cache is full |
| AnchorWatch.Watcher.Prefetch | src/anchor.cpp:642-693 | whatever fails, the caches only gain verdicts, and only true ones; if every call is answered with a header and two anchors are open, every anchor is decided, unless the cache is full |
| AnchorWatch.Watcher.Check | src/anchor.cpp:695-743 | OK means canonical, another definitive verdict means not, and no verdict means that the daemon said nothing |
| AnchorWatch.Watcher.FindLowestBad | src/anchor.cpp:1304-1394 | if complete, the lowest anchored block of the active chain whose anchor is not canonical, or none if all are; what it names is such a block in any case; it is complete unless the daemon fell silent or the tick was given up |
| AnchorWatch.Watcher.InvalidateBlock | src/anchor.cpp:1399-1415 | exactly the block and the blocks above it on any chain fail |
| AnchorWatch.Watcher.Watch | src/anchor.cpp:1284-1452 | a quiet end means that every anchored block of the active chain, down to the first without an anchor, is anchored canonically; only blocks that are not are condemned, and exactly they and their descendants fail; when it ends otherwise; the loop ends |
| AnchorWatch.Watcher.Tick | src/anchor.cpp:1046-1452 | a whole tick: from caches as any run leaves them to true caches, and the same about the active chain |
| AnchorWatch.ParentSurvives | src/anchor.cpp:1409-1452 | below a condemned block there is always a block to fall back to |
| AnchorWatch.FailMore | src/anchor.cpp:1409-1415 | failing a block with its descendants keeps failure closed under descent |
| Finality.HighestIsUnique | src/anchor.cpp:1763-1814 | the highest qualifying checkpoint depends neither on the order nor on repetitions of the commitments |
| Finality.OneMoreJudged | src/anchor.cpp:1768-1814 | each commitment updates the highest one and the undecided mark exactly |
| Finality.HeldMeansLower | src/anchor.cpp:1838-1847 | the floor is held exactly if it would retreat while a commitment to it is undecided |
| Finality.FinalityState.UpdatePosFinality | src/anchor.cpp:1745-1860 | with a daemon that answers, the floor is the highest checkpoint that is deep enough, whose parent block is on the best chain and whose block is ours, or none, and the conflicts are exactly the committed blocks that contradict our chain; what is left of that when it does not answer; a retreat means that every deep enough commitment to the old floor was judged and none holds it |
| Finality.RetreatWasJudged | src/anchor.cpp:1838-1858 | if the floor would retreat and is not held, every deep enough commitment to it was judged, and its parent block left the best chain or its block left our chain |
| Finality.HighestIsFinal | src/anchor.cpp:1768-1814 | the highest qualifying judgement is a buried checkpoint of our chain whose commitment is canonical, and nothing higher that was judged is |
| Finality.ConflictsAreReal | src/anchor.cpp:1800-1813 | every conflict is a committed block that contradicts our chain, and none of those that was judged is missed |
| AddrMan.DropRefKeeps | src/addrman.cpp:469-485 | clearing one cell keeps all structures in agreement, up to an entry that lost its last cell |
| AddrMan.AddRefKeeps | src/addrman.cpp:602-605 | filling one cell of the new table keeps all structures in agreement |
| AddrMan.LeaveTriedKeeps | src/addrman.cpp:517-520 | taking an entry out of tried keeps all structures in agreement |
| AddrMan.EnterTriedKeeps | src/addrman.cpp:535-539 | putting an entry into its tried cell keeps all structures in agreement |
| AddrMan.SwapKeeps | src/addrman.cpp:429-451 | swapping two random positions keeps all structures in agreement |
| AddrMan.DeleteKeeps | src/addrman.cpp:453-467 | deleting an entry that is in no table keeps all structures in agreement |
| AddrMan.CreateKeeps | src/addrman.cpp:415-427 | a new record gets an id never used before and keeps all structures in agreement |
| AddrMan.AddrManImpl.constructor | src/addrman.cpp:102-118 | an empty address manager satisfies the invariant |
| AddrMan.AddrManImpl.CreateEntry | src/addrman.cpp:415-427 | the record is appended under the next id |
| AddrMan.AddrManImpl.SwapRandomPositions | src/addrman.cpp:429-451 | exactly the two ids and their positions are exchanged |
| AddrMan.AddrManImpl.DeleteEntry | src/addrman.cpp:453-467 | exactly that record goes; the others keep everything but their random position |
| AddrMan.AddrManImpl.ClearNew | src/addrman.cpp:469-485 | the cell is free, and its entry is forgotten exactly if it was its last cell |
| AddrMan.AddrManImpl.LeaveNew | src/addrman.cpp:491-504 | the entry leaves exactly the cells it had, although the scan stops early |
| AddrMan.AddrManImpl.Evict | src/addrman.cpp:510-534 | the displaced entry of a tried cell goes to its own cell of the new table |
| AddrMan.AddrManImpl.MakeTried | src/addrman.cpp:487-540 | tried cell, new table, forgotten entries and statistics after the move |
| AddrMan.AddrManImpl.Place | src/addrman.cpp:591-614 | an occupied cell is overwritten exactly under the stated rule; an entry without any cell is forgotten |
| AddrMan.AddrManImpl.Claim | src/addrman.cpp:549-589 | the record an announced address has before it gets a cell, and that all tables agree then |
| AddrMan.AddrManImpl.AddSingle | src/addrman.cpp:542-615 | exactly when an announced address is accepted, and the tables, records and forgotten entries after it |
| AddrMan.AnnouncedMeans | src/addrman.cpp:542-615 | an announced address entry by entry and cell by cell: the recorded time and services, exactly when it gets its cell, who is forgotten, and that nobody else changes |
| AddrMan.AddrManImpl.Add | src/addrman.cpp:671-681 | the addresses are handled one after the other, and it reports whether any was accepted |
| AddrMan.AddrManImpl.Good | src/addrman.cpp:617-669 | exactly when an entry moves to tried, waits for its cell or stays, and all tables after it |
| AddrMan.MarkedGoodMeans | src/addrman.cpp:617-669 | a success entry by entry and cell by cell: who waits, who moves, who goes back to new, who is forgotten, and that nobody else changes |
| AddrMan.AddrManImpl.Attempt | src/addrman.cpp:683-701 | only the record of that address changes; failures count once between successes |
| AddrMan.AddrManImpl.Connected | src/addrman.cpp:810-826 | only the time of that address changes, at most once per interval |
| AddrMan.AddrManImpl.SetServices | src/addrman.cpp:828-842 | only the services of that address change |
| AddrMan.AddrManImpl.ResolveOne | src/addrman.cpp:850-902 | by times: an occupant that worked in the last four hours keeps the cell and the entry stops waiting; one that failed a test more than a minute ago loses it; within the minute the entry waits on; without a test it loses the cell exactly if the entry worked more than forty minutes ago |
| AddrMan.AddrManImpl.Promote | src/addrman.cpp:874-894 | the waiting entry has the cell, and no entry that worked recently loses its own |
| AddrMan.AddrManImpl.ResolveCollisions | src/addrman.cpp:844-903 | every tried entry that worked in the last four hours still has its cell; exactly those wait on that the times say; who wins a cell still has it at the end |
| AddrMan.AddrManImpl.SelectTriedCollision | src/addrman.cpp:905-931 | the record that a waiting entry competes with is in tried; a forgotten one stops waiting |
| AddrMan.AddrManImpl.GetAddr | src/addrman.cpp:772-808 | distinct qualifying addresses up to the limit, and all of them if fewer; only random positions change |
| AddrMan.TerribleMeans | src/addrman.cpp:67-85 | who is terrible, in seconds |
| AddrMan.LimitMeans | src/addrman.cpp:776-782 | how many addresses are given at most |
| AddrMan.LaterKeeps | src/addrman.cpp:844-903 | entries that wait for a tried cell stay consistent over any operation, since ids are never reused and tried cells never emptied |
| AddrMan.ChosenFacts | src/addrman.cpp:772-808 | the shuffled prefix gives no address twice and misses none in the end |
| AddrManCheck.SoundIsAgreement | src/addrman.cpp:971-1057 | what the consistency check sees is the invariant, but for stale map entries and the range of ids |
| AddrManCheck.StaleAddressPasses | src/addrman.cpp:1000-1003 | a map entry that leads to no record is not seen by the consistency check |
| AddrManCheck.CheckRecords | src/addrman.cpp:984-1010 | code 0 if and only if every record is sound |
| AddrManCheck.CheckTried | src/addrman.cpp:1017-1050 | passes if and only if the tried table is sound |
| AddrManCheck.CheckNew | src/addrman.cpp:1034-1052 | passes if and only if the new table and all reference counts are sound |
| AddrManCheck.RandomFull | src/addrman.cpp:981-1005 | positions that lead back to every record make the random vector a permutation of the records |
| AddrManCheck.CheckAddrman | src/addrman.cpp:971-1057 | code 0 if and only if all structures agree and the key is set |
| AddrManCheck.InvPasses | src/addrman.cpp:971-1057 | the invariant implies that the consistency check passes |
| AddrManCheck.Do | src/addrman.cpp:617-931 | every operation keeps the invariant, never reuses an id and never empties a tried cell |
| AddrManCheck.Run | src/addrman.cpp:617-931 | so does every sequence of operations |
| AddrManCheck.StaysSound | src/addrman.cpp:971-1057 | after any operations on a consistent address manager the consistency check gives 0 |
| AddrManCheck.Reachable | src/addrman.cpp:971-1057 | whatever is done to a fresh address manager, the consistency check gives 0 |
| AddrManFile.CounterAhead | src/addrman.cpp:185-204 | the assertions about the number of records hold, whatever order they are visited in |
| AddrManFile.Serialize | src/addrman.cpp:126-226 | the file has every record, numbered, and every cell of the new table |
| AddrManFile.NewPhase | src/addrman.cpp:280-288 | loading the new records gives a consistent copy of them |
| AddrManFile.TriedPhase | src/addrman.cpp:290-310 | loading the tried records puts each into the cell it had |
| AddrManFile.RowsPhase | src/addrman.cpp:317-375 | restoring the buckets gives every entry the cells it had |
| AddrManFile.NamesAreNumbers | src/addrman.cpp:185-218 | the numbers in the buckets are the ids under which the records are loaded |
| AddrManFile.RoundTrip | src/addrman.cpp:126-398 | loading what was saved gives a consistent mirror image, cell by cell, and nothing to prune |
| AddrManFile.Prune | src/addrman.cpp:377-387 | exactly the entries without any cell are deleted |
| AddrManFile.Unserialize | src/addrman.cpp:229-398 | too many records are refused; otherwise a file is accepted if and only if what survives pruning fits together; what is accepted satisfies the invariant |
| AddrManFile.CountsFit | src/addrman.cpp:266-278 | a consistent address manager never has too many records for its own file |
| AddrManFile.SaveAndLoad | src/addrman.cpp:126-398 | saving and loading under the same bucketing succeeds and loses nothing that the format carries |
| AddrManFile.LoadAndRun | src/addrman.cpp:229-398 | whatever file is accepted and whatever is done then, the consistency check gives 0 |
| Arith.ArithUint256.constructor | src/arith_uint256.h:54-62 | the number is the 64-bit argument |
| Arith.ArithUint256.Add | src/arith_uint256.h:132-142 | the sum modulo 2^256, also for a number added to itself |
| Arith.ArithUint256.Not | src/arith_uint256.h:66-72 | 2^256 - 1 minus the number |
| Arith.ArithUint256.Negate | src/arith_uint256.h:74-81 | the negative modulo 2^256 |
| Arith.ArithUint256.Subtract | src/arith_uint256.h:144-148 | the difference modulo 2^256 |
| Arith.ArithUint256.Increment | src/arith_uint256.h:170-177 | plus one modulo 2^256, although it stops at the first limb without carry |
| Arith.ArithUint256.Decrement | src/arith_uint256.h:187-194 | minus one modulo 2^256 |
| Arith.ArithUint256.GetLow64 | src/arith_uint256.h:242-246 | the number modulo 2^64 |
| Arith.ArithUint256.ShiftLeft | src/arith_uint256.cpp:20-35 | times a power of two modulo 2^256, for any shift |
| Arith.ArithUint256.ShiftRight | src/arith_uint256.cpp:37-52 | divided by a power of two, for any shift |
| Arith.ArithUint256.MultiplySmall | src/arith_uint256.cpp:54-64 | the product with one limb modulo 2^256 |
| Arith.ArithUint256.AddRow | src/arith_uint256.cpp:66-80 | one row of the schoolbook product, the carry accounted for |
| Arith.ArithUint256.Multiply | src/arith_uint256.cpp:66-80 | the product modulo 2^256, also of a number with itself |
| Arith.ArithUint256.SetBit | src/arith_uint256.cpp:96-103 | the next quotient bit is added and touches no other |
| Arith.ArithUint256.Divide | src/arith_uint256.cpp:82-106 | the quotient for every divisor but zero, which is refused |
| Arith.ArithUint256.CompareTo | src/arith_uint256.cpp:108-118 | the order of the numbers |
| Arith.ArithUint256.EqualTo | src/arith_uint256.cpp:120-132 | equality with a 64-bit number |
| Arith.ArithUint256.Bits | src/arith_uint256.cpp:170-183 | the position of the highest bit set plus one |
| Arith.TopDecides | src/arith_uint256.cpp:108-118 | the most significant limb that differs decides |
| Arith.OrDisjoint | src/arith_uint256.cpp:20-35 | setting bits that are not set is adding them |
| Compact.OverflowIsExact | src/arith_uint256.cpp:216-219 | the three tests on size and mantissa are exactly that the number is 2^256 or more |
| Compact.SetCompact | src/arith_uint256.cpp:203-221 | mantissa times power of 256 modulo 2^256, with exact sign and overflow |
| Compact.LeadingBytes | src/arith_uint256.cpp:225-232 | the number of bytes and the leading three |
| Compact.GetCompact | src/arith_uint256.cpp:223-244 | size, mantissa and sign fields of the number |
| Compact.DroppedBound | src/arith_uint256.cpp:223-244 | two or three leading bytes survive, or all |
| Compact.RoundTrip | src/arith_uint256.cpp:203-244 | decoding the encoding gives the number with its low bytes cleared, never overflows, keeps the sign, and encodes to the same bits |
| Compact.TargetBelowTop | src/chain.cpp:151-169 | a target that does not overflow leaves room for the plus one |
| Compact.WorkIs | src/chain.cpp:164-168 | the division of the complement plus one is 2^256 / (target + 1) |
| Compact.GetBlockProof | src/chain.cpp:151-169 | the work of a block: zero for a bad target, otherwise 2^256 / (target + 1); one for signed blocks |
| Base58.EncodeSize | src/base58.cpp:96-98 | the buffer of the encoder is large enough for every input |
| Base58.DecodeSize | src/base58.cpp:51-53 | the buffer of the decoder is large enough for every input |
| Base58.PushDigit | src/base58.cpp:103-111 | the in-place carry loop multiplies by the base and adds the digit, and never drops a carry |
| Base58.AlphabetIsInverse | src/base58.cpp:17-36 | the table of digits inverts the alphabet |
| Base58.AlphabetIs | src/base58.cpp:18-18 | the digits are written with the base-58 alphabet |
| Base58.ToBase58 | src/base58.cpp:96-117 | the buffer holds the digits of the number without leading zeros |
| Base58.EncodeBase58 | src/base58.cpp:87-125 | leading zero bytes as ones, then the digits of the number |
| Base58.ReadDigits | src/base58.cpp:51-71 | the word as a number in bytes; it gives up exactly if no result is possible |
| Base58.DecodeBase58 | src/base58.cpp:38-85 | exactly one word of the alphabet with spaces around it is decoded, if not too long |
| Base58.DecodeEncode | src/base58.cpp:38-133 | decoding an encoding gives the bytes back |
| Base58.EncodeDecode | src/base58.cpp:38-133 | encoding a decoding gives the string back |
| Bech32.StepLinear | src/bech32.cpp:127-213 | one step of the checksum is linear |
| Bech32.PolyLinear | src/bech32.cpp:127-213 | so is the whole remainder |
| Bech32.StepInjective | src/bech32.cpp:127-213 | a step by a zero value loses nothing |
| Bech32.PolyInjective | src/bech32.cpp:127-213 | nor do any number of them |
| Bech32.BurstDetected | src/bech32.cpp:127-213 | two value lists that differ only inside a window as long as the checksum have different remainders |
| Bech32.BurstNeverVerifies | src/bech32.cpp:324-335 | such a change is never accepted as the same encoding |
| Bech32.ChecksumIs | src/bech32.cpp:338-349 | the checksum is the one and only that makes the values verify |
| Bech32.Verified | src/bech32.cpp:324-349 | values with their checksum verify as the encoding they were made for |
| Bech32.ComputePolyMod | src/bech32.cpp:127-213 | the loop on the packed integer computes the remainder, group by group, for either family |
| Bech32.PackedStepIs | src/bech32.cpp:185-209 | one step of shifts, masks and exclusive ors on the packed remainder is one step on its groups, and stays in range |
| Bech32.SameGroups | src/bech32.cpp:324-335 | packed remainders are equal exactly if their groups are |
| Bech32.CheckChecksum | src/bech32.cpp:324-335 | comparing packed remainder and packed constants tells which encoding verifies |
| Bech32.Expand | src/bech32.cpp:309-321 | the expansion of the human-readable part |
| Bech32.CreateChecksum | src/bech32.cpp:338-349 | the loop computes the checksum, for either family |
| Bech32.Encode | src/bech32.cpp:352-365 | the text of human-readable part, payload and checksum |
| Bech32.CheckCharacters | src/bech32.cpp:283-306 | printable characters of one case only |
| Bech32.CharsetIs | src/bech32.cpp:20-20 | the values are written with the character set |
| Bech32.Decode | src/bech32.cpp:368-392 | exactly the well-formed strings with a valid checksum are decoded |
| Bech32.DecodeEncode | src/bech32.cpp:352-392 | decoding an encoding gives encoding, human-readable part and payload back, for bech32(m) and blech32(m) |
| Bech32.EncodeDecode | src/blech32.cpp:170-216 | encoding a decoding gives the string back in lower case |
| Bech32Field.GeneratorIs | src/blech32.cpp:110-116 | the packed constants of either family are the coefficients of its generator times 1, 2, 4, 8 and 16 in the field |
| Bech32Field.PolyModDivides | src/bech32.cpp:127-213 | a one and the values, as a polynomial, are the generator times some polynomial plus the computed remainder |
| Bech32Field.PolyModIsTheRemainder | src/bech32.cpp:127-213 | and no other remainder will do |
| Bech32Field.ModifiedConstants | src/blech32.cpp:47-50 | the constants of the modified encodings as values |
| Bech32Field.KnownStrings | src/test/bech32_tests.cpp:17-44 | the shortest valid strings of BIP 173 and BIP 350 are what is encoded |
| Blind.SubtractScalars | src/blindpsbt.cpp:305-325 | the difference modulo the group order, and exactly when it is refused |
| Blind.CalculateScalarOffset | src/blindpsbt.cpp:327-362 | value times asset blinder plus value blinder modulo the group order, and exactly when it is refused |
| Blind.ComputeAndAddToScalarOffset | src/blindpsbt.cpp:364-390 | the sum with that offset, and exactly when it is refused |
| Blind.InputScalar | src/blindpsbt.cpp:408-442 | the sum over the inputs the party knows, congruent to their offsets, and exactly when it is refused |
| Blind.SubtractAll | src/blindpsbt.cpp:556-559 | everything passed on is subtracted in order, and exactly when that is refused |
| Blind.LastBlinder | src/blindpsbt.cpp:545-565 | the last value blinder makes up for everything blinded before, and exactly when it is refused |
| Blind.OutScalarCong | src/blindpsbt.cpp:508-541 | the running output scalar is congruent to the offsets drawn so far |
| Blind.ThroughNext | src/blindpsbt.cpp:508-620 | the transaction after one more output that is due |
| Blind.ThroughFails | src/blindpsbt.cpp:508-620 | a failure at one output fails the call |
| Blind.Psbt.BlindOne | src/blindpsbt.cpp:516-620 | one output is blinded with the drawn blinders, the last one with the balancing one; which error in which case |
| Blind.Psbt.BlindOutputs | src/blindpsbt.cpp:505-621 | the loop succeeds exactly if every output that is due can be blinded, and leaves exactly those blinded |
| Blind.Psbt.BlindPsbt | src/blindpsbt.cpp:392-637 | exactly when a call succeeds, and the outputs and passed-on offsets it leaves |
| Blind.CallBlinds | src/blindpsbt.cpp:505-620 | a successful call blinds exactly the outputs of the party, with the blinders it drew; only the last value blinder may differ, and only if nothing is left to blind |
| Blind.CompletingCall | src/blindpsbt.cpp:543-569 | a call that leaves nothing to blind settles the account of the whole transaction |
| Blind.PartialCall | src/blindpsbt.cpp:623-629 | a call that leaves something to blind passes on its imbalance, or loses it exactly if its scalar is zero or its offset was passed on already |
| Blind.CallBalances | src/blindpsbt.cpp:505-637 | outputs less passed-on offsets grow by what the party brings in plus what it loses, both known before the call |
| Blind.JointBalances | src/blindpsbt.cpp:392-637 | so they do over any number of parties, and a complete transaction passes nothing on |
| Blind.JointlyBalanced | src/blindpsbt.cpp:392-637 | a fully blinded transaction balances if and only if the losses cancel out |
| Blind.GuardedBalances | src/blindpsbt.cpp:392-637 | it balances if every party that does not complete it has a non-zero scalar and an offset not passed on yet |
| Blind.RepeatedOffsetIsLost | src/blindpsbt.cpp:623-629 | in every group of at least five elements a run with a repeated offset succeeds, blinds everything and does not balance |
| Blind.BlindTogether | src/blindpsbt.cpp:392-637 | exactly when several parties succeed one after the other, what they leave, and when value times asset blinder plus value blinder has the same total over outputs and inputs |
| CanonicalJson.EscapeUnique | src/assetcontract.cpp:30-51 | an escaped string and where it ends can be read off the text |
| CanonicalJson.UnescapeEscape | src/assetcontract.cpp:30-51 | a reader of JSON strings gets back what was escaped |
| CanonicalJson.FirstDifferenceDecides | src/assetcontract.cpp:57-61 | keys are ordered by the first character in which they differ |
| CanonicalJson.SortCanonical | src/assetcontract.cpp:53-98 | the same distinct keys sort to the same list |
| CanonicalJson.Unique | src/assetcontract.cpp:53-98 | a text starts with at most one canonical value |
| CanonicalJson.SameText | src/assetcontract.cpp:53-98 | values equal up to the order of keys have the same text |
| CanonicalJson.CanonicalIffSame | src/assetcontract.cpp:175-180 | same text if and only if equal up to the order of keys, at every level |
| CanonicalJson.AppendEscapedString | src/assetcontract.cpp:30-51 | the loop appends the quoted string |
| CanonicalJson.AppendObject | src/assetcontract.cpp:56-73 | the members in sorted order are appended |
| CanonicalJson.AppendArray | src/assetcontract.cpp:74-82 | the elements are appended in order |
| CanonicalJson.AppendCanonical | src/assetcontract.cpp:53-98 | the canonical text is appended and nothing else changes |
| CanonicalJson.CanonicalText | src/assetcontract.cpp:175-180 | the canonical text of a value |
| CompactBlocks.PlacePrefilled | src/blockencodings.cpp:65-81 | accepted if and only if every differential index is in range, and then exactly the prefilled slots are filled |
| CompactBlocks.SlotsArePositions | src/blockencodings.cpp:65-76 | positions sent as differences are found again |
| CompactBlocks.CoverExactlyOnce | src/blockencodings.cpp:65-109 | every slot is that of exactly one prefilled transaction or of exactly one short id |
| CompactBlocks.OnlyBase | src/blockencodings.cpp:65-81 | a message leaves no choice where its prefilled transactions go |
| CompactBlocks.AssignSlots | src/blockencodings.cpp:87-109 | it succeeds if and only if the short ids are distinct and none was entered into an overfull bucket of the table so far, and sends each id to the empty slot with its number |
| CompactBlocks.PartiallyDownloadedBlock.MatchPool | src/blockencodings.cpp:111-137 | each slot holds its only candidate of the scanned pool and nothing if there are two; where the scan stops |
| CompactBlocks.PartiallyDownloadedBlock.MatchExtra | src/blockencodings.cpp:140-169 | each slot holds its candidate unless another transaction has the same short id; where the scan stops |
| CompactBlocks.PartiallyDownloadedBlock.InitData | src/blockencodings.cpp:55-174 | the status in every case, and what every slot holds |
| CompactBlocks.PartiallyDownloadedBlock.FillBlock | src/blockencodings.cpp:182-215 | the missing transactions go into the empty slots in order; the status, that of the block check included, and the object's state in every case |
| CompactBlocks.ShownIsRight | src/blockencodings.cpp:111-169 | without misleading short ids every filled slot has the block's transaction |
| CompactBlocks.AsksOnlyForUnknown | src/blockencodings.cpp:111-180 | although the scans stop early, a slot stays empty if and only if its transaction is neither in the pool nor in the extra ones |
| CompactBlocks.FilledIsBlock | src/blockencodings.cpp:182-203 | right slots and the missing transactions in order are the block |
| CompactBlocks.Rebuild | src/blockencodings.cpp:55-215 | from an honest message the block is rebuilt exactly; exactly when it succeeds |
| CompactBlocks.AnnounceDescribes | src/blockencodings.cpp:19-29 | the message a node makes of a block is honest and acceptable |

## Left out

- Coins.CoinsViewStack.Flush: for the bottom cache a best block must be set, as CCoinsViewDB::BatchWrite asserts; crash recovery by head blocks and write batches of limited size are not modelled.
- EmplaceCoinInternalDANGER, AccessByTxid, ReallocateCache and the error-catching view: they add no new behaviour to the stack.
- CheckQueue: thread start and stop, and the control object with its lock; a thread's critical section is one step, as the mutex makes it.
- Chain: block work, time and status fields; heights are unbounded.
- AnchorCache.AnchorState.NoticeTip: a tick sees one best tip; a parent that moves between the calls of one tick is not modelled.
- AnchorWatch.Watcher.Prefetch: what is gained before a failing batch is not counted, since the source makes it best effort.
- AnchorWatch.Watcher.Watch: a shutdown that interrupts InvalidateBlock half-way, and its undoing, count as giving up before it.
- AnchorWatch.Watcher.ActivateBestChain: any block that has not failed may become the tip; fork choice by work is not modelled.
- The rest of AnchorWatchTask: reconsidering blocks that are canonical again, certified siblings, MaybeReconcileFinality, scanning parent blocks for checkpoints.
- GetAnchorForNewBlock, AnchorUncontestedHeight, the escaping-stall rules and the checkpoint payload: each is a short calculation.
- Finality: persisting checkpoints, and reading them from parent blocks; the commitments of a pass and our own chain are parameters.
- AddrMan.AddrManImpl.Good: the clock is positive, as it is in AddrMan.AddrManImpl.ResolveCollisions; AddrMan.AddrManImpl.Attempt takes a clock that is not negative.
- Select_ and GetChance: random retries with floating-point weights; randomness elsewhere is a parameter.
- The keyed hashes of buckets and positions, asmap and address classes: arbitrary functions.
- AddrManFile.Unserialize: formats before V4 and checksum streams; last tries and waiting entries are not in the file, so they are not in the mirror image either.
- AddrManFile.Serialize: the order of the hash map is a parameter, and the bytes of the fields are not modelled.
- Hexadecimal and floating-point conversions of arith_uint256.
- Base58.DecodeBase58: the maximal length is not negative; the checksum of base58check is not modelled.
- Error location in bech32 strings.
- Blind.Psbt.BlindPsbt: commitments, range and surjection proofs, issuances, missing UTXOs and invalid blinding keys, with their own error returns, are not modelled.
- Blind.CalculateScalarOffset: for a negative value only the value blinder is returned, as in the source, so the congruence is stated for the others.
- CanonicalJson: strings are sequences of characters compared by code, numbers are given by their text; parsing, hashing and contract validation are not modelled.
- CompactBlocks.AssignSlots: when a table has an overfull hash bucket for an id is a parameter.
- CompactBlocks.PartiallyDownloadedBlock.InitData: used once per object and for at most 65535 transactions, as the deserializer enforces; extra_count only feeds a log line and has no contract.
- CompactBlocks.PartiallyDownloadedBlock.FillBlock: what CheckBlock says about a block is a parameter.
- RPC transport, logging, files, locks and atomics everywhere else; heights, times and sizes are unbounded integers.

# Protocols of a blink-battle platform

The system lets two people stare at each other over video; whoever blinks first loses. Small Go
services share the work: *signaling* keeps the rooms and decides who lost, *matchmaking* pairs
waiting players, *store* keeps points, purchases and inventory, *ratings* keeps ELO, *koth* runs the
king-of-the-hill crown, *media* keeps the king's clips; the browser detects blinks and holds the
peer connection. This project models the parts that hold protocol state and proves what they
guarantee for every input, every run and every interleaving.

`dafny verify dfyconfig.toml` checks all of it.

## How it is built

Each component has two forms, tied to each other.

* A **transition system** on values: a state, a datatype of events, and a total `Step`. An event is
  one critical section, timer firing, Redis script, SQL transaction, or the stretch of an async
  function up to its next await; `Run` folds `Step` over any sequence of events, so a sequence is an
  interleaving. Results about `Run` are results about every interleaving. What the environment
  decides (clocks, random ids, map order, failures, payment events) is carried by the event.
* A **class** in the program's own imperative form, with the program's fields, loops and branches.
  Its methods are proved to take exactly the step of the transition system
  (`View() == Step(old(View()), event)`), or to compute the function the system is written with.

| files | component |
|---|---|
| `SignalingHub`, `SignalingSafety`, `SignalingEpochs`, `SignalingRooms`, `SignalingPrivate`, `SignalingReports`, `SignalingSteps`, `SignalingService` | room registry and blink arbitration |
| `MatchPlayer`, `MatchQueue`, `Matchmaking` | choice of opponent, queue, tick |
| `PointsLedger`, `PointsDelivery`, `BalanceCache`, `ShopInventory`, `RewardedLimiter`, `StorePurchases`, `StoreDatabase`, `StoreServices` | points, purchases, inventory, cache, limiter |
| `RatingMath`, `RatingTransactions`, `RatingHistory` | ELO, row locks, history |
| `KothHill`, `KothRank`, `KothServices` | crown, reset, rank |
| `KingClips`, `KingClipService` | concurrent uploads and supersession |
| `BlinkEngine`, `CvEngine` | per-frame blink detection |
| `RtcPeer`, `RtcPeerImpl` | outgoing frames and incoming candidates |
| `Options` | an optional value |

Beside the theorems, every step is stated in the state's own fields and in literal numbers and
names: the lemmas called `...Effect` and their like say it of the transition system, the `ensures`
clauses of the classes say it of the methods. So what a step does is fixed apart from the functions
that define it, and the theorems about runs are about these steps.

Assumptions, all explicit: user ids are positive; CreateRoom draws an unused room id that nobody
else knows before it returns (`Env`); where a result needs it, a room id is not used again after its
leave and a connection leaves only a room that admitted it (`EnvNoReuse`); private rooms only need
that nobody opens one again as a ranked room by its id (`EnvPrivate`). Deletes in Redis may fail. A
SQL transaction or one Redis command is a single step under a monotone clock, except that rating
transactions take every insert and every row lock as a step of its own.

## Where the code and its comments differ

The model follows the code.

* The winner's ELO delta is documented as positive and the loser's as negative. Each is 0 exactly
  when less than half a point is at stake by that player's K-factor
  (`RatingMath.DeltasHaveTheRightSign`), as for a heavy favourite (`RatingMath.HeavyFavouriteWinsNothing`).
* A failed CreateRoom is meant to leave no residue. The hub keeps none in any legal run, although the
  rollback names only three of its maps; Redis keeps the member set exactly when deleting it fails,
  which is only logged (`SignalingSafety.RollbackResidue`, `SignalingSafety.RollbackResidueHappens`).
  The same goes for a leave (`SignalingSafety.LeaveResidue`).
* A hill is meant to have exactly one king clip. Two can stay for good when a row with a lower id
  becomes visible after a higher one has superseded (`KingClips.TwoClipsCanRemain`); the exact
  condition is `KingClips.OneClipRemainsIff`.
* A candidate is handed to the peer connection twice when a second description is set while the
  first one's queue is unfinished, and only then (`RtcPeer.HandedOnceIff`, `RtcPeer.OverlapHappens`).
* Deleting the cached balance on every write does not keep the cache current under concurrency: with
  all deletes done it is out of date exactly when a reader's read-to-store interval straddles the
  last write and its delete (`BalanceCache.StaleIffStraddles`, `BalanceCache.StaleAfterRace`).
* When setting the expiry of a rewarded-grant counter fails, the increment stays without an end: the
  user gets what is left of one window's cap and then nothing for good
  (`RewardedLimiter.LockedForeverIff`, `RewardedLimiter.FailedExpiryIsForever`).

## Model

| member | source | states |
|---|---|---|
| `SignalingSafety.OneOutcomeOneCallPerEpoch` | services/signaling/internal/api/service/signaling_service.go:233-526 | over every interleaving of joins, reports, timer firings, leaves and ratings calls, each epoch of a room has at most one outcome and at most one ratings call, every call is for a decided outcome, and the winner is never the loser; room ids may be reused |
| `SignalingRooms.OutcomeNamesTheMembers` | services/signaling/internal/api/service/signaling_service.go:233-491 | without reuse of ids a room is decided at most once in its life; with two members the outcome names exactly those two, otherwise a lone member loses to the zero id |
| `SignalingPrivate.PrivateRoomsAreNeverRated` | services/signaling/internal/api/service/signaling_service.go:115-189 | no interleaving makes a ratings call for a room made by CreateRoom, even when a code resolved before a leave revives the room, as long as nobody opens it again as a ranked room by its id |
| `SignalingSafety.RegistryAgrees` | services/signaling/internal/api/service/signaling_service.go:91-189 | in every reachable state rooms and modes have the same keys, arbitrations exist only for live rooms, a battle start exists exactly for rooms of two, a live room's one or two members are in its Redis set, which has at most two, and hub and Redis agree on every room whose delete has not failed |
| `SignalingEpochs.WholeEpochKeeps` | services/signaling/internal/api/service/signaling_service.go:439-457 | from any moment of an epoch to any later one of it, over every interleaving: the mode does not change, the battle start once set does not, nobody is dropped from the room, and a decided arbitration stays decided |
| `SignalingEpochs.EpochKeeps` | services/signaling/internal/api/service/signaling_service.go:439-457 | the same across one step, from any state at all |
| `SignalingSafety.CallsMeasureTheBattle` | services/signaling/internal/api/service/signaling_service.go:400-526 | ratings are called only by a forfeit or after a decision, only for a live ranked room, with the time since that room got its second member |
| `SignalingSafety.AdmissionGate` | services/signaling/internal/api/repository/room_repository.go:28-46 | the join script never lets a set grow past two, refuses exactly a third user, is idempotent for a member and touches no other room |
| `SignalingSafety.LeaveResidue` | services/signaling/internal/api/service/signaling_service.go:354-431 | a leave clears every map of the hub; the hub and Redis agree on the room again if and only if the delete works or there was no set, and a set that stays is unchanged |
| `SignalingSafety.RollbackResidue` | services/signaling/internal/api/service/signaling_service.go:134-151 | in every legal run the rollback of CreateRoom leaves nothing of the room in the hub, and the hub and Redis agree on it if and only if the delete works; otherwise exactly its creator stays in Redis |
| `SignalingSafety.RollbackResidueHappens` | services/signaling/internal/api/service/signaling_service.go:134-151 | a legal run that leaves a member set in Redis for a room the hub does not have |
| `SignalingReports.ReportsDecide` | services/signaling/internal/api/service/signaling_service.go:233-298 | for any sequence of reports by the two members nothing is decided before both have reported, and then exactly one outcome is: the earlier stamp of the two first reports loses, on a tie the one that took the lock first |
| `SignalingReports.LockOrderDoesNotMatter` | services/signaling/internal/api/service/signaling_service.go:233-298 | with different stamps every lock order, repeats included, decides the same loser |
| `SignalingReports.SecondReporterDecides` | services/signaling/internal/api/service/signaling_service.go:264-287 | while one report waits, repeats by its author change nothing and the other member's first report decides |
| `SignalingReports.DecidedForGood` | services/signaling/internal/api/service/signaling_service.go:246-252 | no sequence of reports changes a decided room |
| `SignalingReports.ReporterLoses` | services/signaling/internal/api/service/signaling_service.go:264-287 | a report decides only as the second of two reporters, between those two, and loses exactly when its stamp is earlier |
| `SignalingReports.LoneReporterLoses` | services/signaling/internal/api/service/signaling_service.go:461-491 | the timer decides only an undecided room with a report, against the reporter and for another member if there is one |
| `SignalingReports.LeaverLoses` | services/signaling/internal/api/service/signaling_service.go:303-432 | whatever a leave decides, it decides for an undecided room, against the leaver and for a member left behind, closes the room, and calls ratings exactly when the room is ranked |
| `SignalingSteps.LeavingForfeits` | services/signaling/internal/api/service/signaling_service.go:331-352 | leaving somebody behind in a room that is not decided, whether or not anybody has reported, decides exactly one outcome against the leaver and makes exactly one ratings call if the mode is "ranked", else none |
| `SignalingSteps.OtherLeavesDecideNothing` | services/signaling/internal/api/service/signaling_service.go:303-352 | every other leave, without a room, alone, or after the decision, decides nothing and calls nobody |
| `SignalingSteps.LeavingCloses` | services/signaling/internal/api/service/signaling_service.go:354-431 | every leave with a room removes it from all five maps, and from Redis unless the delete fails |
| `SignalingSteps.FirstJoinFixesTheMode` | services/signaling/internal/api/service/signaling_service.go:439-457 | the first accepted join of a room stores exactly its mode, and no later one changes whether the room is rated |
| `SignalingSteps.SecondReportDecides` | services/signaling/internal/api/service/signaling_service.go:264-287 | the other member's report decides exactly one outcome, against itself exactly when its stamp is earlier, and leaves the ratings call pending |
| `SignalingSteps.FirstReportWaits` | services/signaling/internal/api/service/signaling_service.go:254-262 | the first report of a member only waits, with its stamp |
| `SignalingSteps.OtherReportsChangeNothing` | services/signaling/internal/api/service/signaling_service.go:233-262 | a report by an outsider, into a decided room, or by the first reporter again changes nothing |
| `SignalingSteps.ScriptEffect` | services/signaling/internal/api/repository/room_repository.go:28-46 | the script refuses exactly a third user, and otherwise adds the user and nothing else |
| `SignalingSteps.AdmitEffect` | services/signaling/internal/api/service/signaling_service.go:439-457 | an admitted user is in the room with his connection, the first one fixes its mode, the battle starts with the second, and nothing else changes |
| `SignalingSteps.JoinEffect` | services/signaling/internal/api/service/signaling_service.go:91-189 | joining by id takes ids of 1 to 128 characters; joining by code and creating are unranked |
| `SignalingSteps.RollbackEffect` | services/signaling/internal/api/service/signaling_service.go:134-158 | the rollback clears the room from the maps it names and from Redis if that works; a minted code is stored |
| `SignalingSteps.TimeoutEffect` | services/signaling/internal/api/service/signaling_service.go:461-491 | the timer decides exactly an undecided room with a report: the reporter loses to another member, or to id 0 when alone |
| `SignalingSteps.EnvironmentAsksNoMore` | services/signaling/internal/api/service/signaling_service.go:91-189 | the runs these results are about are all those with positive ids, in which CreateRoom draws an id never used and nobody but it uses a room before it returns |
| `SignalingSteps.FiringEffect` | services/signaling/internal/api/service/signaling_service.go:495-526 | a pending outcome makes one ratings call if the room's mode is "ranked" by then, with the time since its second member, and none otherwise |
| `SignalingService.RoomRepository.Join` | services/signaling/internal/api/repository/room_repository.go:28-79 | the script's answer and the new member sets |
| `SignalingService.RoomRepository.RemoveRoom` | services/signaling/internal/api/repository/room_repository.go:93-101 | deletes the set of the room, or fails and leaves it |
| `SignalingService.Service.RegisterConn` | services/signaling/internal/api/service/signaling_service.go:439-457 | takes the registration step: mode with the first connection, battle start with the second |
| `SignalingService.Service.JoinRoom` | services/signaling/internal/api/service/signaling_service.go:91-110 | takes the join step; rejects exactly an id that is empty or longer than 128 and a full room, without effect; otherwise the connection is in the room, a new room has exactly the mode of this join, and the battle starts with the second member |
| `SignalingService.Service.CreateRoom` | services/signaling/internal/api/service/signaling_service.go:115-131 | takes the create step up to minting the code; refused exactly when the room is full; a new room is "unranked" and holds its creator |
| `SignalingService.Service.FinishCreate` | services/signaling/internal/api/service/signaling_service.go:133-158 | stores the code, or rolls the room back when there is none, whether or not the delete in Redis works |
| `SignalingService.Service.JoinByCode` | services/signaling/internal/api/service/signaling_service.go:164-189 | an unresolved code changes nothing, a resolved one takes the join step |
| `SignalingService.Service.ReportEvent` | services/signaling/internal/api/service/signaling_service.go:233-298 | takes the report step; NotMember and MatchFinished exactly when they apply; a first report waits, a repeat changes nothing, and the other member's decides one outcome against the earlier stamp |
| `SignalingService.Service.ResolveTimeout` | services/signaling/internal/api/service/signaling_service.go:461-491 | the loop over the member map, in any order, decides exactly an undecided room with a report, once, against the reporter and for another member, or id 0 when there is none |
| `SignalingService.Service.LeaveRoom` | services/signaling/internal/api/service/signaling_service.go:303-432 | with somebody left behind in a room that is not decided, reported in or not, exactly one outcome against the leaver and exactly one ratings call if the room's mode is "ranked"; otherwise neither; no trace of the room in the hub, nor in Redis unless its delete fails |
| `SignalingService.Service.Forget` | services/signaling/internal/api/service/signaling_service.go:354-431 | closes the room in every map, then in Redis if that works |
| `SignalingService.Service.FireRatingsCall` | services/signaling/internal/api/service/signaling_service.go:495-526 | adds exactly one call, with the battle's duration, for a room that is "ranked" when the mode is read, and none otherwise |
| `MatchPlayer.IsBetterIsStrictTotal` | services/matchmaking/internal/api/domain/player.go:146-159 | for a fixed candidate the order is irreflexive, transitive, asymmetric and total on distinct users |
| `MatchPlayer.NearestSpelledOut` | services/matchmaking/internal/api/domain/player.go:95-159 | the chosen one is somebody else within the bound and none within it is nearer; among equally near players he has the earliest enqueue time, then the lowest id; nobody is chosen exactly when nobody else is within the bound |
| `MatchPlayer.NearestWithinDistance` | services/matchmaking/internal/api/domain/player.go:95-115 | nobody exactly when everybody else is farther than the distance; otherwise the nearest, then the one who came earliest, then the lowest id |
| `MatchPlayer.NearestRegardless` | services/matchmaking/internal/api/domain/player.go:120-135 | the same without the bound: nobody exactly when nobody else waits |
| `MatchPlayer.NearestIsUnique` | services/matchmaking/internal/api/domain/player.go:90-135 | at most one result satisfies the specification |
| `MatchPlayer.ListOrderDoesNotMatter` | services/matchmaking/internal/api/domain/player.go:90-135 | every permutation of the waiting list gives the same opponent |
| `MatchPlayer.RegardlessIsWithinNine` | services/matchmaking/internal/api/domain/player.go:120-135 | between valid levels the search regardless of level is the search within nine |
| `MatchQueue.EntriesAreConserved` | services/matchmaking/internal/api/repository/queue_repository.go:45-158 | over every interleaving of enqueue, remove and pair, per user and mode, entries created are entries matched plus entries removed plus the one still waiting |
| `MatchQueue.PairConserves` | services/matchmaking/internal/api/repository/queue_repository.go:120-130 | a pair attempt keeps that balance if and only if it fails or names two different entries |
| `MatchQueue.OpsEffect` | services/matchmaking/internal/api/repository/queue_repository.go:43-158 | an enqueue creates an entry exactly where there was none, a remove takes exactly the one it finds, a pair takes both entries if both are there and nothing otherwise, and each is counted as such |
| `MatchQueue.PairIsTwoSided` | services/matchmaking/internal/api/repository/queue_repository.go:116-158 | a pair takes both entries and no other, or nobody; whoever tries for a taken player changes nothing |
| `MatchQueue.ListFollowsTheOps` | services/matchmaking/internal/api/repository/queue_repository.go:43-158 | a later snapshot lists an enqueued player with its level and time, not a removed or paired one, and nobody else differs |
| `MatchQueue.AnyListingChoosesTheSame` | services/matchmaking/internal/api/repository/queue_repository.go:72-101 | every listing of the hash, in any order, gives a candidate the same opponent |
| `MatchQueue.QueueRepository.Enqueue` | services/matchmaking/internal/api/repository/queue_repository.go:45-69 | sets the user's field in the hash of his mode, new or not |
| `MatchQueue.QueueRepository.Remove` | services/matchmaking/internal/api/repository/queue_repository.go:105-114 | deletes that field and says whether it was there |
| `MatchQueue.QueueRepository.Pair` | services/matchmaking/internal/api/repository/queue_repository.go:120-158 | succeeds exactly when both fields are there, and then deletes both |
| `MatchQueue.QueueRepository.ListWaiting` | services/matchmaking/internal/api/repository/queue_repository.go:72-101 | exactly the players of the mode with their stored level and time, each once, in any order |
| `Matchmaking.PairsAreDisjoint` | services/matchmaking/internal/api/service/matchmaking_service.go:160-209 | the pairs of a tick come from the snapshot and share no user |
| `Matchmaking.PairsAreClose` | services/matchmaking/internal/api/service/matchmaking_service.go:196-206 | each pair is within the level distance, or its candidate was past the deadline and nobody free was within it; nobody free was nearer, nor as near and earlier, nor as early with a lower id |
| `Matchmaking.LeftoversCannotMatch` | services/matchmaking/internal/api/service/matchmaking_service.go:160-209 | two players in no successful claim, one of whom lost no claim of his own: their levels differ by more than the distance and that one is not past the deadline |
| `Matchmaking.NoFailedClaimIsMaximal` | services/matchmaking/internal/api/service/matchmaking_service.go:160-209 | after a tick in which no claim failed, for any stale snapshot and any interference, any two left over differ by more than the distance and none is past the deadline |
| `Matchmaking.UndisturbedClaimsSucceed` | services/matchmaking/internal/api/service/matchmaking_service.go:232-253 | on a snapshot that is not stale, with nobody interfering, no claim fails |
| `Matchmaking.EachClaimIsDecided` | services/matchmaking/internal/api/service/matchmaking_service.go:232-248 | each claim succeeds exactly when both entries are in the queue at that moment |
| `Matchmaking.OthersTakeEffect` | services/matchmaking/internal/api/service/matchmaking_service.go:160-253 | before each claim others have done all they were to do, in order, to the queue and to the connections, in the world the earlier claims left |
| `Matchmaking.AttemptsAreGreedy` | services/matchmaking/internal/api/service/matchmaking_service.go:168-209 | the successful claims are greedy pairs: each the choice among those the earlier ones left free |
| `Matchmaking.TakenByAClaim` | services/matchmaking/internal/api/service/matchmaking_service.go:250-253 | a user counts as paired exactly when some successful claim names him |
| `Matchmaking.TickTellsBothSides` | services/matchmaking/internal/api/service/matchmaking_service.go:233-288 | whatever others do to queue and connections meanwhile, the frames of a tick are those of its pairs, in order, and each pair takes the next new room |
| `Matchmaking.KthClaimTells` | services/matchmaking/internal/api/service/matchmaking_service.go:233-288 | for the k-th claim of a tick, with the connections of that moment: on success each side who is connected is sent one frame with the next new room and the other's id, the candidate first, and the frames stay sent; on failure nobody is sent anything |
| `Matchmaking.ClaimEffect` | services/matchmaking/internal/api/service/matchmaking_service.go:233-288 | a successful claim removes both queue entries, deregisters both users, and tells each connected one of the next room and of the other's id; a failed one changes nothing |
| `Matchmaking.TickDeregisters` | services/matchmaking/internal/api/service/matchmaking_service.go:250-261 | whoever does not come or go meanwhile is registered afterwards, unchanged, if and only if he was and is in no pair |
| `Matchmaking.MatchmakingService.TickMode` | services/matchmaking/internal/api/service/matchmaking_service.go:160-209 | lists the queue, then over that snapshot and any interference on queue and connections before each claim: every claim is on the greedy choice, succeeds exactly when both entries are still there, and takes exactly its effect; whoever is left over and whose own claim did not fail had no match; the queue stays conserved; without interference no claim fails |
| `Matchmaking.MatchmakingService.Pass` | services/matchmaking/internal/api/service/matchmaking_service.go:168-209 | the same for any snapshot, stale from the start or not |
| `Matchmaking.MatchmakingService.Visit` | services/matchmaking/internal/api/service/matchmaking_service.go:171-208 | one candidate: skipped when paired, no claim only when nothing matched, else one claim on the greedy choice |
| `Matchmaking.MatchmakingService.TryPair` | services/matchmaking/internal/api/service/matchmaking_service.go:233-288 | succeeds exactly when both are queued; then both entries and both registrations are gone and each side who was connected is sent the new room and the other's id; otherwise nothing changes and nothing is sent |
| `Matchmaking.MatchmakingService.Choose` | services/matchmaking/internal/api/service/matchmaking_service.go:177-206 | nobody exactly when everybody free is beyond the distance and the candidate not past the deadline; otherwise somebody free, within the distance or past the deadline, nearest, then earliest, then lowest id |
| `Matchmaking.MatchmakingService.Join` | services/matchmaking/internal/api/service/matchmaking_service.go:77-114 | invalid mode or level, an active cooldown and a failed enqueue change nothing, each exactly in its case; otherwise enqueued and registered with the looked-up or default level |
| `Matchmaking.MatchmakingService.Leave` | services/matchmaking/internal/api/service/matchmaking_service.go:117-127 | deregisters, then removes the queue entry; a failed removal leaves the entry |
| `Matchmaking.MatchmakingService.ActiveModes` | services/matchmaking/internal/api/service/matchmaking_service.go:142-157 | every mode with a registered connection, each once |
| `PointsLedger.BalancesAreTheirLedgers` | services/store/internal/api/repository/points_repository.go:37-101 | in every reachable state each balance is the sum of the user's ledger rows and not negative, and no reference was credited twice |
| `PointsLedger.CreditTxEffect` | services/store/internal/api/repository/points_repository.go:37-101 | a credit whose reference the user already has under its reason changes nothing; any other appends exactly its row and raises the balance by its amount |
| `PointsLedger.SpendTxEffect` | services/store/internal/api/repository/purchase_repository.go:203-262 | a spend takes exactly the price, with one ledger row under the purchase's id, if the balance covers it and the reference is free, and otherwise changes nothing |
| `PointsLedger.DecimalReadsBack` | services/store/internal/api/repository/purchase_repository.go:239 | the reference of a purchase is its id in decimal: digits only, no leading zero, and it reads back as the id |
| `StorePurchases.PurchaseEffect` | services/store/internal/api/repository/purchase_repository.go:203-262 | a purchase for points lowers the balance by exactly the price, adds one ledger row saying so, one paid row, and one more distraction or the edit; all of it or nothing |
| `StorePurchases.OnlyTheBalanceDecides` | services/store/internal/api/repository/purchase_repository.go:228-242 | as long as no credit uses the reason of a spend, the reference of the next purchase is never taken: in every reachable state a purchase goes through exactly when the balance covers the price |
| `StorePurchases.EveryPurchaseIsPaidOnce` | services/store/internal/api/repository/purchase_repository.go:203-262 | in every reachable state each points purchase has exactly one ledger row under its reference, the debit of its price |
| `StorePurchases.EveryDebitIsAPurchase` | services/store/internal/api/repository/purchase_repository.go:185-197 | every debit in the ledger pays for a points purchase |
| `PointsDelivery.ExactlyOnceEffect` | services/store/internal/api/repository/points_repository.go:21-25 | two deliveries of the same referenced credits, in any order and with any repetition, end in the same balances |
| `PointsDelivery.RedeliveryDoesNothing` | services/store/internal/api/repository/points_repository.go:60-86 | redelivering references already in the ledger changes nothing |
| `PointsDelivery.RepeatedCall` | services/store/internal/api/repository/points_repository.go:53-86 | the same credit call twice: without a reference both count; with one the user does not have yet exactly one counts; with one he has, none |
| `PointsDelivery.CreditsCommute` | services/store/internal/api/repository/points_repository.go:37-101 | two referenced credits commute up to the order of ledger rows |
| `PointsDelivery.UnreferencedCreditsAdd` | services/store/internal/api/repository/points_repository.go:53-56 | a credit without a reference counts each time |
| `BalanceCache.BalancesAreBoundedlyStale` | services/store/internal/api/service/points_service.go:31-79 | under any interleaving of writes, deletes, hits and two-step reads every returned balance was the committed one when its reader read it, and a cached one is returned less than 300000 ms plus that reader's read-to-set gap later |
| `BalanceCache.SequentialCacheIsCoherent` | services/store/internal/api/service/points_service.go:31-79 | with operations one at a time and no failed delete a cached value always equals the database balance |
| `BalanceCache.OperationKeepsCoherence` | services/store/internal/api/service/points_service.go:60-79 | and GetBalance then returns the committed balance |
| `BalanceCache.ReadEffect` | services/store/internal/api/service/points_service.go:60-79 | a balance read returns a value stored less than five minutes ago, and otherwise the last commit, which is then cached unless the store fails |
| `BalanceCache.ReadingEffect` | services/store/internal/api/service/points_service.go:60-79 | a hit returns what was stored less than five minutes ago, a read takes the last commit, and a store caches and returns what its reader read, each of them in any state |
| `BalanceCache.WritingEffect` | services/store/internal/api/service/points_service.go:46-57 | a commit is appended with its time, a delete empties the cache |
| `BalanceCache.CachedIsCurrentIff` | services/store/internal/api/service/points_service.go:31-79 | in every interleaved run a cached value comes from the last commit if and only if nothing was written after the read of the reader that stored it; that reader stored it later, and nothing was deleted or stored since |
| `BalanceCache.StaleIffStraddles` | services/store/internal/api/service/points_service.go:46-79 | with no delete failed or outstanding a cached value is out of date if and only if its read-to-store interval straddles the last write and its delete |
| `BalanceCache.CoherentWithoutStraddling` | services/store/internal/api/service/points_service.go:46-79 | so without such a straddling interval the cached value is the database balance |
| `BalanceCache.StaleAfterRace` | services/store/internal/api/service/points_service.go:68-76 | a read that straddles a write leaves a visible stale value although the delete succeeded |
| `ShopInventory.InventoryIsConserved` | services/store/internal/api/repository/purchase_repository.go:125-262 | for any interleaving of webhook deliveries, points purchases and rewarded grants a distraction's quantity is its paid purchases plus its grants, and an edit is owned once exactly when one was paid for |
| `ShopInventory.PurchasesGrantAtMostOnce` | services/store/internal/api/repository/purchase_repository.go:125-183 | every Stripe purchase is confirmed at most once, and is paid exactly when it was |
| `ShopInventory.RedeliveryGrantsNothing` | services/store/internal/api/repository/purchase_repository.go:155-163 | confirming a confirmed purchase again, by any event, changes nothing |
| `ShopInventory.ConfirmEffect` | services/store/internal/api/repository/purchase_repository.go:139-183 | one pending row of the intent and an event no row has seen: the row ends paid by that event, and the slot has one more distraction or the edit |
| `ShopInventory.ConfirmRefused` | services/store/internal/api/repository/purchase_repository.go:139-163 | no pending row, several of them, or a seen event: nothing happens |
| `ShopInventory.HookEffect` | services/store/internal/api/service/purchase_service.go:77-112 | the three statements of a delivery: a seen event ends it, the first row with the reference is found, and that row's product is granted to that row's user |
| `ShopInventory.InitiateEffect` | services/store/internal/api/service/purchase_service.go:34-73 | a pending purchase adds its row and grants nothing |
| `ShopInventory.BuyEffect` | services/store/internal/api/repository/purchase_repository.go:228-250 | a points purchase adds a paid row and one more distraction, or the edit |
| `ShopInventory.RewardEffect` | services/store/internal/api/service/rewarded_service.go:31-60 | a rewarded grant is one more distraction, and never an edit |
| `StoreDatabase.Database.InsertLedger` | services/store/internal/api/repository/points_repository.go:21-25 | refuses exactly a row whose reference is there with the same user and reason; otherwise appends it |
| `StoreDatabase.Database.Credit` | services/store/internal/api/repository/points_repository.go:37-101 | a non-empty reference the user already has under the reason: nothing changes and applied is false; otherwise exactly one row with that reference, or none when it is empty, and the balance grows by the amount |
| `StoreDatabase.Database.PurchaseWithPoints` | services/store/internal/api/repository/purchase_repository.go:203-262 | too little exactly for an uncovered balance, a conflict exactly for a taken reference, both without effect; otherwise the balance falls by exactly the price with its ledger row, a paid row and the grant |
| `StoreDatabase.Database.ConfirmAndGrant` | services/store/internal/api/repository/purchase_repository.go:139-183 | confirmed exactly for one pending row and an unseen event; then that row is paid by the event and the slot has one more distraction or the edit; otherwise nothing changes |
| `StoreDatabase.Database.GrantFreeDistraction` | services/store/internal/api/service/rewarded_service.go:54-59 | one more unit and one more rewarded grant |
| `StoreServices.PointsService.Credit` | services/store/internal/api/service/points_service.go:31-58 | rejects exactly a missing reason or amount; otherwise a reference the user already has adds nothing and anything else adds one row and its amount; the credit operation of the cache system for this user and no other; keeps the cache coherent when the delete works |
| `StoreServices.PointsService.GetBalance` | services/store/internal/api/service/points_service.go:60-79 | a cached value until its expiry, otherwise the committed balance, cached for 300000 ms unless the store fails; the read operation of the cache system for this user and no other; with a coherent cache the committed balance |
| `StoreServices.PurchaseService.InitiatePurchase` | services/store/internal/api/service/purchase_service.go:34-73 | refuses exactly an unknown product and an owned edit; otherwise adds a pending row |
| `StoreServices.WebhookIsItsSteps` | services/store/internal/api/service/purchase_service.go:77-112 | a delivery nobody interrupts does what its four steps do |
| `StoreServices.PurchaseService.HandleWebhook` | services/store/internal/api/service/purchase_service.go:77-112 | the one unconfirmed row of the intent and an unseen event: the row ends paid and its user has one more distraction or the edit; a seen event or no pending row changes nothing; unknown intents and failures exactly in their case |
| `StoreServices.PurchaseService.PurchaseWithPoints` | services/store/internal/api/service/purchase_service.go:116-159 | every refusal exactly in its case and without effect; otherwise the balance falls by exactly the price with its ledger row, a paid row and the grant, and the cached balance is dropped |
| `StoreServices.PurchaseService.Spend` | services/store/internal/api/service/purchase_service.go:141-158 | the same for the transaction and the invalidation alone, whatever the ownership check saw |
| `RewardedLimiter.AtMostCapPerWindow` | services/store/internal/api/repository/rewarded_rate_limiter.go:35-55 | whatever the attempts and whichever expiries fail, at most the cap are allowed in one window |
| `RewardedLimiter.AtMostTwiceCapInAnyInterval` | services/store/internal/api/repository/rewarded_rate_limiter.go:35-55 | and at most twice the cap in any interval as long as a window |
| `RewardedLimiter.FirstCallsOfAWindowAreAllowed` | services/store/internal/api/repository/rewarded_rate_limiter.go:35-55 | from the call that opens a window, as long as the window lasts, exactly the first cap calls are allowed and all others denied |
| `RewardedLimiter.AllowEffect` | services/store/internal/api/repository/rewarded_rate_limiter.go:35-55 | a call within a counter's lifetime counts and is allowed exactly below the cap; otherwise it opens a window, allowed unless the expiry fails; a cap that is not positive denies without counting |
| `RewardedLimiter.TwiceCapHappens` | services/store/internal/api/repository/rewarded_rate_limiter.go:35-55 | the second bound is reached: with a cap of one, calls at the start and the end of an interval are both allowed |
| `RewardedLimiter.GrantsAreBounded` | services/store/internal/api/service/rewarded_service.go:45-59 | rewarded grants are at most the cap per window and at most twice the cap in any interval as long as one, whichever grants fail |
| `RewardedLimiter.FailedExpiryIsForever` | services/store/internal/api/repository/rewarded_rate_limiter.go:42-54 | a counter whose expiry failed never goes away: the user gets exactly what is left of one cap from any number of later attempts |
| `RewardedLimiter.LockedForeverIff` | services/store/internal/api/repository/rewarded_rate_limiter.go:42-54 | a user is in that state if and only if one of his calls opened a window and its EXPIRE failed |
| `RewardedLimiter.LockedForeverHappens` | services/store/internal/api/repository/rewarded_rate_limiter.go:42-54 | with a cap of one a single such call denies the user for good |
| `StoreServices.RewardedRateLimiter.Allow` | services/store/internal/api/repository/rewarded_rate_limiter.go:35-55 | takes the limiter step for its user and leaves the others alone; the counter and the answer in every case, with or without a failing EXPIRE |
| `StoreServices.IncrementIsTheStep` | services/store/internal/api/repository/rewarded_rate_limiter.go:35-55 | the increment of the counter and the answer are the step of the user's limiter with its verdict |
| `StoreServices.RewardedService.GrantFreeDistraction` | services/store/internal/api/service/rewarded_service.go:31-60 | every refusal and failure exactly in its case; granted exactly for a free distraction while the counter is below the cap and the upsert works, and then one more unit |
| `StoreServices.RewardedService.GrantsStayBounded` | services/store/internal/api/service/rewarded_service.go:31-60 | in every state of the service a user's grants are within the limiter's bounds |
| `RatingTransactions.NoDeadlock` | services/ratings/internal/api/repository/ratings_repository.go:79-112 | however many matches run at once, with every insert and lock a step of its own, while one is unfinished some unfinished one can step |
| `RatingTransactions.StepsAreProgress` | services/ratings/internal/api/repository/ratings_repository.go:79-180 | such a step brings its transaction closer to its end and touches no other |
| `RatingTransactions.CommitIsSequential` | services/ratings/internal/api/repository/ratings_repository.go:98-170 | a commit computes from rows read earlier what it would from the current ones: interleaved transactions are their commits in sequence |
| `RatingTransactions.CommitEffect` | services/ratings/internal/api/repository/ratings_repository.go:122-170 | a commit changes exactly both players' rows, each by its delta, with the level of the new rating and one game more, adds the history row and releases every lock |
| `RatingTransactions.LockEffect` | services/ratings/internal/api/repository/ratings_repository.go:98-112 | a lock is taken lower id first, waits exactly for another's lock on the row, and reads the row as committed |
| `RatingTransactions.InsertEffect` | services/ratings/internal/api/repository/ratings_repository.go:85-96 | a default row is inserted lower id first, waits exactly for another's uncommitted insert of the id, and leaves an existing row alone |
| `RatingTransactions.BeginAndAbortEffect` | services/ratings/internal/api/repository/ratings_repository.go:67-77 | a match of two different players can always begin, and an unfinished transaction can always abort, releasing exactly its locks and writing nothing |
| `RatingHistory.RatingsAreTheirHistory` | services/ratings/internal/api/repository/ratings_repository.go:67-180 | in every committed state a stored ELO is 1000 plus the player's deltas in the history, games played are the player's rows, the level is that of the ELO, and a row exists exactly for players with history |
| `RatingHistory.RatingsRepository.LockBoth` | services/ratings/internal/api/repository/ratings_repository.go:79-120 | rows read in ascending id order are mapped back to winner and loser |
| `RatingHistory.RatingsRepository.ApplyMatchResult` | services/ratings/internal/api/repository/ratings_repository.go:67-180 | the winner gains 64 times what he was expected to miss while below twenty games and 32 times from twenty on, to within half a point, the loser pays 80% of the same by his own games; both rows, their levels and game counts, the history row and the outcome follow from these deltas, nobody else's row changes |
| `RatingMath.DeltasHaveTheRightSign` | services/ratings/internal/api/domain/rating.go:85-100 | the winner's delta is within half a point of 64 (1 - e) below twenty games and of 32 (1 - e) from twenty on, the loser's of -0.8 times that by his own games; between 0 and 64 and between -51 and 0, and not 0 exactly when half a point is at stake |
| `RatingMath.CalibrationEndsAtTwenty` | services/ratings/internal/api/domain/rating.go:62-73 | even matches at both sides of the twentieth game, for winner and loser |
| `RatingMath.HeavyFavouriteWinsNothing` | services/ratings/internal/api/domain/rating.go:85-100 | a match whose winner was expected to win by 0.995 changes neither rating |
| `RatingMath.LosersAreSoftened` | services/ratings/internal/api/domain/rating.go:96-97 | unless the loser is below twenty games and the winner is not, a match takes no points out of the system |
| `RatingMath.LevelCountsBands` | services/ratings/internal/api/domain/rating.go:104-141 | the level is between 1 and 10 and above the n-th exactly when the rating is above 500, 700, 900, 1100, 1300, 1500, 1700, 1900, 2000 in turn |
| `RatingMath.LevelsAreMonotone` | services/ratings/internal/api/domain/rating.go:118-141 | levels follow ratings within 1 to 10, and the default rating has the default level |
| `RatingMath.RoundIsNearest` | services/ratings/internal/api/domain/rating.go:94-97 | rounding is to the nearest integer and odd |
| `RatingMath.HalvesGoAway` | services/ratings/internal/api/domain/rating.go:94-97 | halves are rounded away from zero |
| `KothHill.OneKingOneFinalCredit` | services/koth/internal/api/service/reset_service.go:32-73 | in every reachable state a hill has at most one open reign, and a hill and period, as well as a reign, at most one final-placement credit |
| `KothHill.ResetIsFinal` | services/koth/internal/api/repository/hill_repository.go:150-212 | after a reset, in any continuation, no king of the hill started before its period, and no reset of the hill for that period or an earlier one closes or credits anything |
| `KothHill.StaleReignIsClosed` | services/koth/internal/api/service/reset_service.go:32-73 | on any hill the open reign that started before the reset's period is ended now, and exactly its user is credited for that hill and period |
| `KothHill.FreshReignStays` | services/koth/internal/api/repository/hill_repository.go:189-199 | without such a reign a reset closes and credits nothing |
| `KothHill.NobodyStaleIsLeft` | services/koth/internal/api/repository/hill_repository.go:150-212 | after any reset nobody who started before its period is king of the hill |
| `KothHill.ResetBegins` | services/koth/internal/api/service/reset_service.go:33 | a reset can begin for any period that has started |
| `KothHill.SeedEffect` | services/koth/migrations/0001_koth.up.sql:11 | a reign is seeded exactly on a hill without a king |
| `KothHill.NobodyToChallenge` | services/koth/internal/api/repository/hill_repository.go:39-71 | without a king a challenge changes nothing |
| `KothHill.ChallengePassesTheCrown` | services/koth/internal/api/repository/hill_repository.go:91-148 | a challenge takes the crown exactly when it survives at least the king's time: the king's reign ends now and the challenger's begins, with the time survived |
| `KothHill.ChainsNeverFall` | services/koth/internal/api/repository/hill_repository.go:115-139 | along a chain of successful challenges the time to beat never falls and all but the last reign have ended |
| `KothHill.DescentIsTheChain` | services/koth/internal/api/repository/hill_repository.go:115-139 | descent is reflexive, transitive, and holds from a challenger to the one he took the crown from |
| `KothHill.ReignsEndOnce` | services/koth/internal/api/repository/hill_repository.go:80-84 | over any run nothing about a reign changes but its end, and that once |
| `KothServices.HillRepository.CurrentKing` | services/koth/internal/api/repository/hill_repository.go:39-71 | the open reign of the hill, or none when there is none |
| `KothServices.HillRepository.Challenge` | services/koth/internal/api/repository/hill_repository.go:91-148 | without a king nothing; against a king who survived longer he stands; otherwise his reign ends now and the challenger's begins, and the reply names who is king |
| `KothServices.HillRepository.CloseIfStale` | services/koth/internal/api/repository/hill_repository.go:154-212 | on every hill the open reign that started before the period is ended at `now` and returned as it was; without one nothing changes; afterwards no king of the hill started before the period |
| `KothServices.ResetService.CloseStaleReign` | services/koth/internal/api/service/reset_service.go:32-73 | the period is the month on the monthly hill and the UTC day on the daily one; the king from before it is closed, credited under that hill's reason and period, and his clip, if any, expired; without one nothing happens |
| `KothServices.DayStartIsAPeriodFloor` | services/koth/internal/api/domain/reset.go:24-32 | the day start is the multiple of 86400000 ms at or less than a day before its time, monotone, and constant within a day |
| `KothRank.ComputeRank` | services/koth/internal/api/domain/rank.go:47-60 | the number of leading thresholds the hold reaches: all below it are reached and the next is not |
| `KothRank.RankCountsThresholds` | services/koth/internal/api/domain/rank.go:42-46 | on sorted thresholds a threshold is below the rank exactly when the hold reaches it |
| `KothRank.RankIsMonotone` | services/koth/internal/api/domain/rank.go:47-60 | a longer hold never has a lower rank |
| `KothRank.TargetIsExact` | services/koth/internal/api/domain/rank.go:61-71 | a hold beats the current rank if and only if it reaches the target shown for it |
| `KothRank.StoredRankIsTheMaximum` | services/koth/internal/api/service/rank_service.go:44-83 | after any interleaving of unlocked reads and conditional writes the stored rank is that of some attempt's hold and at least that of every finished one, and the stored hold maps to it |
| `KothRank.LongestHoldDecides` | services/koth/internal/api/service/rank_service.go:44-83 | once all attempts have finished, in any interleaving, the stored rank is that of the longest hold |
| `KothRank.AttemptEffect` | services/koth/internal/api/service/rank_service.go:44-83 | what beginning, the unlocked read and the conditional write of an attempt do |
| `KothRank.StoredRankNeverFalls` | services/koth/internal/api/repository/rank_repository.go:55-62 | the stored rank never goes down in any run |
| `KothServices.RankRepository.UpsertRank` | services/koth/internal/api/repository/rank_repository.go:55-71 | inserts, or raises, and touches no other row |
| `KothServices.AttemptIsItsSteps` | services/koth/internal/api/service/rank_service.go:44-83 | an attempt nobody interrupts stores the larger of the old rank and its own |
| `KothServices.RankService.SubmitAttempt` | services/koth/internal/api/service/rank_service.go:44-83 | rejects exactly a hold that is not positive; otherwise the row becomes the better one, and a credit is issued exactly for a newly reached rank |
| `KothServices.RankService.Me` | services/koth/internal/api/service/rank_service.go:85-103 | the stored rank and the exact hold needed to beat it |
| `KingClips.ClipsPresent` | services/media/internal/api/service/king_clip_service.go:92-124 | in every reachable state a clip is there if and only if it was inserted, not deleted, and every supersede by a higher id of its hill came before its insert |
| `KingClips.SupersedeRemovesExactly` | services/media/internal/api/repository/king_clip_repository.go:106-121 | a supersede removes exactly the lower ids of its own hill |
| `KingClips.StatementsEffect` | services/media/internal/api/repository/king_clip_repository.go:27-121 | what each of the four statements does to ids, rows and times |
| `KingClips.NewestIsNeverErased` | services/media/internal/api/service/king_clip_service.go:106-124 | the highest id inserted on a hill is there unless it was deleted itself |
| `KingClips.OneClipRemainsIff` | services/media/internal/api/repository/king_clip_repository.go:106-121 | when all uploads have finished the highest clip remains, alone if and only if every other row was in place before some higher upload superseded |
| `KingClips.OneClipRemains` | services/media/internal/api/repository/king_clip_repository.go:106-121 | alone if rows become visible in id order |
| `KingClips.OneClipRemainsWhenAtOnce` | services/media/internal/api/repository/king_clip_repository.go:27-43 | alone if drawing an id and inserting its row are one step, over every interleaving of uploads |
| `KingClips.TwoClipsCanRemain` | services/media/internal/api/repository/king_clip_repository.go:27-43 | a run of two finished uploads that leaves two clips |
| `KingClipService.SupersedeSplits` | services/media/internal/api/repository/king_clip_repository.go:106-121 | a supersede keeps exactly the rows that are not lower ones of the hill and returns exactly the keys of the others |
| `KingClipService.KingClipRepository.Create` | services/media/internal/api/repository/king_clip_repository.go:27-43 | appends the row under the next id |
| `KingClipService.KingClipRepository.DeleteSupersededByHill` | services/media/internal/api/repository/king_clip_repository.go:106-121 | exactly the rows of the hill with lower ids go, and exactly their keys are returned |
| `KingClipService.KingClipRepository.Delete` | services/media/internal/api/repository/king_clip_repository.go:87-104 | removes the row of the id and returns its key, or finds none |
| `KingClipService.Service.Upload` | services/media/internal/api/service/king_clip_service.go:56-125 | every rejection and failure exactly in its case and without effect on the rows; otherwise uploaded, as the only clip of its hill when the supersede works, other hills alone, and every row's object in the store |
| `KingClipService.Service.Supersede` | services/media/internal/api/service/king_clip_service.go:106-122 | exactly the lower rows of the clip's hill go, and their objects unless a removal fails |
| `KingClipService.Service.Delete` | services/media/internal/api/service/king_clip_service.go:149-179 | deletes exactly the owner's clip; to anyone else it does not exist |
| `KingClipService.Service.ExpireByID` | services/media/internal/api/service/king_clip_service.go:184-200 | deletes the clip of the id, whoever owns it |
| `BlinkEngine.IsolatedDipsNeverFire` | frontend/src/cv/CvEngine.ts:192-234 | if the first frame after calibration has both eyes at the baseline, and so has every one after one that has not, no blink is reported in a session of any length |
| `BlinkEngine.BlinksAreSeparated` | frontend/src/cv/CvEngine.ts:223-233 | between two blinks of a session there is a frame after which neither eye is below its threshold |
| `BlinkEngine.BlinkNeedsTwoLowFrames` | frontend/src/cv/CvEngine.ts:210-233 | a blink needs two consecutive confident frames after calibration with the same eye low |
| `BlinkEngine.ClosureFiresIff` | frontend/src/cv/CvEngine.ts:196-233 | from open eyes two fully closed frames report a blink if and only if one eye's smoothed ratio was less than 10/3 of its threshold |
| `BlinkEngine.DetectionEffect` | frontend/src/cv/CvEngine.ts:192-234 | a confident frame while running: ratios smoothed 70% to 30%, a count per eye of consecutive frames below its threshold, and a blink exactly when a count reaches two and none was reported since both were last zero |
| `BlinkEngine.CalibrationEffect` | frontend/src/cv/CvEngine.ts:168-190 | a confident frame while calibrating: positive ratios are collected, and the thirtieth frame sets each threshold to 0.75 of the mean of ten or more of them |
| `BlinkEngine.OtherFramesEffect` | frontend/src/cv/CvEngine.ts:96-166 | the third frame in a row without a face loses it; frames that are not ready, throw or have confidence below 0.5 are skipped; an idle engine does nothing |
| `BlinkEngine.StartEffect` | frontend/src/cv/CvEngine.ts:57-83 | a start forgets everything, with thresholds of 0.25 |
| `BlinkEngine.LoggedBlinks` | frontend/src/cv/CvEngine.ts:229-233 | the session has a blink callback exactly when some frame reported one |
| `BlinkEngine.BlinkAtIsLogged` | frontend/src/cv/CvEngine.ts:229-233 | a frame that reports a blink appends that callback last, and no other frame appends it |
| `BlinkEngine.CalibrationResult` | frontend/src/cv/CvEngine.ts:168-190 | exactly the first thirty confident frames calibrate; each threshold is 0.75 times the sum over the count of the positive ratios if there are ten or more, and 0.25 otherwise, and is positive |
| `BlinkEngine.SkippedFramesDoNotMatter` | frontend/src/cv/CvEngine.ts:96-137 | calibration and blinks depend on the confident frames only |
| `BlinkEngine.FacePresenceIsExact` | frontend/src/cv/CvEngine.ts:139-166 | the face counts as present exactly when a confident frame was seen and fewer than three frames without a face came since |
| `BlinkEngine.FaceEventsAlternate` | frontend/src/cv/CvEngine.ts:139-166 | of two face callbacks of a session with only blinks between them one is a presence and the other a loss |
| `BlinkEngine.LastFaceEventTells` | frontend/src/cv/CvEngine.ts:139-166 | the first face callback is a presence, and the face counts as present exactly after a presence |
| `BlinkEngine.RunsAreSessions` | frontend/src/cv/CvEngine.ts:57-83 | whatever starts, stops and frames came before, a running engine is in the session of the frames since its last start |
| `CvEngine.CvEngine.Start` | frontend/src/cv/CvEngine.ts:57-74 | a new session, whatever the engine did before |
| `CvEngine.CvEngine.ProcessFrame` | frontend/src/cv/CvEngine.ts:96-158 | takes the frame step, and the frame loop stays scheduled exactly while the engine is not idle |
| `CvEngine.CvEngine.DoCalibration` | frontend/src/cv/CvEngine.ts:168-190 | takes the calibration step; running from the thirtieth frame on |
| `CvEngine.CvEngine.DoDetection` | frontend/src/cv/CvEngine.ts:192-234 | takes the detection step; one blink exactly when none is latched and a count has reached two, and the latch opens only when both counts are zero |
| `CvEngine.CvEngine.Track` | frontend/src/cv/CvEngine.ts:196-221 | the new ratio is 70% raw and 30% old, seeded by the first frame; the count runs while it is below the threshold and is otherwise reset |
| `CvEngine.CvEngine.Finalize` | frontend/src/cv/CvEngine.ts:177-188 | 0.75 of the mean of ten or more samples, else the threshold as it was |
| `CvEngine.CvEngine.Mean` | frontend/src/cv/CvEngine.ts:179-186 | the sum over the number of samples |
| `RtcPeer.JoinThenGenerationOrder` | frontend/src/rtc/index.ts:185-240 | in every run the wire carries nothing before the socket opens, and then the join followed by every offer, candidate and answer the events called for, in order, none lost |
| `RtcPeer.HandedOnceIff` | frontend/src/rtc/index.ts:250-283 | in every run some candidate is handed over twice if and only if some description is set after another one while queued candidates are unfinished |
| `RtcPeer.OverlapHappens` | frontend/src/rtc/index.ts:250-283 | a run in which two offers set in a row hand the only candidate over twice |
| `RtcPeer.EveryCandidateIsHanded` | frontend/src/rtc/index.ts:250-296 | without such an overlap and rejected candidates every candidate of the room is handed over or waiting, never both, and all are once the flush has ended |
| `RtcPeer.NothingBeforeTheDescription` | frontend/src/rtc/index.ts:284-296 | in every run nothing is handed over before a remote description is set |
| `RtcPeer.AnswersAreForFinishedOffers` | frontend/src/rtc/index.ts:263-275 | in every run the answers on the wire and the answers due are together exactly as many as the offers whose flush has finished |
| `RtcPeer.SendingEffect` | frontend/src/rtc/index.ts:168-247 | opening sends the join and then the buffer; before it frames are buffered and afterwards sent; an answer goes straight out, for an offer that is due one |
| `RtcPeer.ReceivingEffect` | frontend/src/rtc/index.ts:259-296 | a candidate of this room is handed over or queued, an offer or answer of this room begins to be set, everything else is ignored |
| `RtcPeer.FlushEffect` | frontend/src/rtc/index.ts:250-255 | a turn of a flush hands over its next candidate; after the last one the queue is empty and an offer is due its answer; a rejected candidate ends the flush with the queue as it is |
| `RtcPeer.DescriptionEffect` | frontend/src/rtc/index.ts:263-281 | a description that has been set hands over the first queued candidate at once, or, with none queued, is due its answer at once if it is an offer |
| `RtcPeerImpl.RtcPeerImpl.OnOpen` | frontend/src/rtc/index.ts:185-197 | the join, then the buffered frames in order, and an empty buffer |
| `RtcPeerImpl.RtcPeerImpl.SendFrame` | frontend/src/rtc/index.ts:234-240 | on the wire when open, else last in the buffer |
| `RtcPeerImpl.RtcPeerImpl.OfferReady` | frontend/src/rtc/index.ts:242-247 | the offer goes through the buffer |
| `RtcPeerImpl.RtcPeerImpl.OnIceCandidate` | frontend/src/rtc/index.ts:168-173 | a local candidate goes through the buffer, the end of candidates sends nothing |
| `RtcPeerImpl.RtcPeerImpl.HandleIce` | frontend/src/rtc/index.ts:284-296 | a candidate of this room is handed over if a description is set and queued otherwise; another room's changes nothing |
| `RtcPeerImpl.RtcPeerImpl.HandleDescription` | frontend/src/rtc/index.ts:259-281 | only an offer or answer of this room is set |
| `RtcPeerImpl.RtcPeerImpl.RemoteDescriptionSet` | frontend/src/rtc/index.ts:266-281 | marks the description set and hands over the first queued candidate; an offer with none queued is due its answer |
| `RtcPeerImpl.RtcPeerImpl.ContinueFlush` | frontend/src/rtc/index.ts:250-255 | one more candidate, or an empty queue and, after an offer, an answer due |
| `RtcPeerImpl.RtcPeerImpl.AbortFlush` | frontend/src/rtc/index.ts:250-255 | a rejected candidate ends its flush and leaves the queue |
| `RtcPeerImpl.RtcPeerImpl.AnswerReady` | frontend/src/rtc/index.ts:272-275 | the answer goes straight to the wire |

## Left out

- Relay, outcome and peer_left frames and closing of connections in signaling: sending only, no state.
- The join script and the registration after it are one step, and so are the hub's part of a leave or rollback and the attempt to delete in Redis.
- Redis TTLs of rooms and queues and the Refresh call: only the cache and the limiter expire here.
- Stopping the confirmation timer: any timer may fire at any time anyway, also for a later room.
- Rating requests that fail, and payment, cooldown and rating lookups: their results are inputs.
- "An owned edit is never charged twice", "every matched player is notified", "every decided ranked match reports": the code does not give them under concurrency, so they are not claimed.
- Payment intents, prices in money, webhook signatures and HTTP: an intent id is an input that no purchase has yet.
- A points purchase's ledger reference is its row number; that no other credit uses the spend's reason is only assumed where OnlyTheBalanceDecides says so.
- StoreServices.PurchaseService.PurchaseWithPoints: the ownership check and the transaction after it are one call here; that concurrent calls can both pass the check is in the transition system, where buying does not depend on it.
- StoreServices.PurchaseService.InitiatePurchase: likewise for the ownership check and the insert.
- Matchmaking.MatchmakingService.TryPair: a pair script that ends in a Redis error, which the code treats like a lost race.
- Floating point and math.Pow: the winner's expected score is an arbitrary real strictly between 0 and 1, and eye ratios are non-negative reals.
- Integer widths: ids, counters and milliseconds are unbounded.
- The calendar: the start of a month is a function the reset service is given; the start of a day is computed.
- The service's clock and the database's are one clock in the transition system, and now() is the moment a transaction holds its lock rather than its start.
- Seeding a reign and expiring clips by date: seeding is an event of the model without a method, expiry is a deletion like any other.
- HillService and its koth_win credit, Leaderboard, RankDistribution, ListMatchHistory, catalog, consent, health and bug-report code: only easy facts.
- CvEngine.CvEngine.ProcessFrame: callbacks that call start or stop from inside a frame are not modelled.
- CvEngine: the fields of one eye are grouped in a value, and the ratio itself (landmark geometry) is an input.
- RtcPeerImpl: closing, peer_left and error frames, and what the peer connection does with what it is given, are not modelled; a candidate is represented by its number of arrival.
- JSON encoding, random ids and invite codes: ids are fresh inputs.
- React screens, routing, camera and recording code, sessions, OAuth, storage and transcoding calls.

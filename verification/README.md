# okchain: a verified model of its core logic

The modules model the parts of okchain with the most state and arithmetic, and prove what every run of
them keeps. Nothing here is executed: each statement below is proved for all inputs, all runs or all
reachable states that its contract names.

- **Block execution** (`MapSums`, `World`, `Transitions`, `Transactions`, `Yield`, `ShardListing`,
  `RewardSplit`, `RewardTies`, `Rewards`, `Processor`, `TxLaws`, `Refunds`, `Prices`): gas purchase, execution, refund and
  finalisation of each transaction of a block, then the split of fees and yield among shard leaders and
  committee. The main results are the exact change of the coin supply over a block, what one transaction
  leaves behind, the gas balance of the block, the exact payout to every address, and when the payout
  depends on map iteration order.
- **Transaction scheduling** (`TxHeap`, `Scheduler`, `Schedules`, `ScheduleNonces`): the heap of account
  heads. Every run emits a permutation in per-account order, always a dearest next transaction, and its
  transactions pass the nonce check of block execution up to one precisely described exception.
- **Event feed** (`FeedCases`, `FeedProtocol`): `Send`, whose active cases are a prefix of one array that it
  permutes and shifts in place, and the protocol of Subscribe, Unsubscribe and Send in every interleaving.
- **Contract ABI** (`AbiBytes`, `AbiTypes`, `AbiPack`, `AbiUnpack`, `AbiInts`, `AbiRoundTrip`, `AbiArguments`,
  `AbiLayout`, `AbiChecks`): packing and unpacking of argument lists; the round trip, where offsets point,
  where every byte stands, which values are taken, and freedom from panics.
- **Chain store** (`Ancestor`): the common ancestor of two headers.
- **Accounts** (`Urls`, `Wallets`, `Refresh`, `Unlock`, `AccountCache`): sorted wallet lists, the keystore's
  refresh and its replay by the account manager, timed unlocking in every interleaving, the account cache.
- **RPC client** (`RpcDispatch`, `RpcReplies`): every run of the dispatch loop, the collection of a batch's
  replies, and that what arrives is what was read.

Objects that the program updates in place are classes; their methods are proved equal to functions on
values, and the laws are proved about those functions. Protocols are state machines: `Legal` sequences of
steps, `After` the state they lead to, and an invariant that every step keeps.

Inputs of the model that the program computes elsewhere: the virtual machine (a function from state, message
and gas to an outcome, of which `Lawful` asks that it returns no more gas than it got and creates no coins, and
`LeavesNoncesOf` that it leaves the nonces of key-held accounts alone), the shard of a transaction, the
sender's address, header fields, header hashes, account lists, the outcome of channel operations, timers,
decrypted keys, and messages read from a connection.

Where the code does not do what its comments or names say, the model follows the code:

- The comparison in core/state_transition.go:215 is with an error value that the virtual machine never
  returns (core/error.go:40 against core/vm/errors.go:26). A transfer without cover is therefore applied as a failed
  transaction, and a contract creation without cover is applied without moving the sender's nonce.
- The refund counter is not reset between transactions (core/state/statedb.go:632-636), so a transaction that earns no
  refund is billed less than it consumed exactly if an earlier one left the counter above zero.
- Finalisation destroys what self-destructed accounts still hold (core/state/statedb.go:581-593), so the supply law
  carries a term for destroyed coins.
- Messages ignore a transaction's own gas limit and price (protos/transaction.go:80-102), while fees are paid out at
  the transaction's price in 64-bit arithmetic. As long as no fee leaves 64 bits and no price is zero, a block issues
  at least its yield, and exactly that if and only if every price is one.
- `assignRwards` panics when two or more shards have no fees at all, when the committee is empty, or when a
  shard has no leader. `Rewards.AssignRewards` derives that from its divisions and indexing.
- With several shards at the largest fee, who gets the remainder depends on map iteration order and on an
  unstable sort, unless those shards have one leader or rounding leaves no remainder.
- `Pack` measures the head without looking below the outermost array (accounts/abi/argument.go:234-240), so
  offsets are wrong when an array has elements of more than one word. Negative big integers do not survive the
  round trip; packing also changes the caller's own number, because `math.U256` works in place (common/math/big.go:175-177). An empty array survives only if enough other bytes follow its place.
- Decoding a fixed byte array of more than 32 bytes reads on behind its word, and behind the input up to the
  input's capacity (accounts/abi/unpack.go:84-94).
- Decoding tests its bounds in 64-bit arithmetic (accounts/abi/unpack.go:112), which an array type can be large enough
  to wrap. `AbiInts.SizesFit` says for which types and inputs it does not.
- `refreshWallets` loses an account whose URL an old wallet had with another address.
- `Lock` leaves an address unlocked when someone unlocks it between its lookup and its end, and the key of a timed
  unlock that a newer one replaces is dropped without being wiped.

## Model

| member | source | states |
|---|---|---|
| `World.CreditTotal` | core/state/statedb.go:293-299 | a credit of any account, new or not, raises the total of all balances by exactly its amount |
| `World.DebitTotal` | core/state/statedb.go:301-306 | a covered debit lowers the total by exactly its amount |
| `World.FinaliseTotal` | core/state/statedb.go:581-593 | finalisation destroys exactly what self-destructed accounts still hold |
| `World.FinaliseLeaves` | core/state/statedb.go:581-593 | self-destructed accounts are gone with balance and nonce, every other account and the refund counter stay |
| `Transitions.GasPool.AddGas` | core/gaspool.go:29-35 | adds to the pool; the overflow panic is its precondition, which every caller discharges |
| `Transitions.GasPool.SubGas` | core/gaspool.go:39-45 | takes gas exactly if the pool has it, otherwise changes nothing |
| `Transitions.IntrinsicGas` | core/state_transition.go:75-104 | fails exactly when the charge over unbounded integers exceeds 64 bits, and otherwise is that charge |
| `Transitions.IntrinsicCostAtLeastBase` | core/state_transition.go:75-104 | the charge is at least the base plus four per byte |
| `Transitions.StateTransition.BuyGas` | core/state_transition.go:119-131 | the two refusals in their order, and otherwise balance, pool and gas moved by the same amount |
| `Transitions.StateTransition.PreCheck` | core/state_transition.go:161-173 | nonce refusals come before gas refusals; a refusal changes nothing |
| `Transitions.StateTransition.UseGas` | core/state_transition.go:153-159 | uses gas exactly if there is enough |
| `Transitions.StateTransition.RefundGas` | core/state_transition.go:224-239 | refunds the smaller of half the gas used and the counter, pays the rest back at the message price and returns it to the pool without overflow |
| `Transitions.StateTransition.TransitionDb` | core/state_transition.go:178-222 | result, state and pool are those of the transition function, in every accepting and refusing case |
| `Transitions.ExecuteLawful` | core/state_transition.go:203-209 | creation and call, with the machine's balance check in front, return no more gas than given and create no coins |
| `Transitions.TransitionGas` | core/state_transition.go:178-244 | an applied transition takes from the pool exactly the gas it used, at most its gas limit, at least half its intrinsic charge and at least 10500 |
| `Transitions.TransitionSupply` | core/state_transition.go:178-244 | the supply falls by gasUsed times the price, plus what execution itself burned |
| `Transitions.TransitionCharge` | core/state_transition.go:119-244 | apart from what execution moved, the sender pays exactly gasUsed times the price and no other balance changes |
| `Transitions.UncoveredApplied` | core/state_transition.go:203-222 | a message without cover for its value is applied if and only if the other checks pass; it counts as failed, moves no value, and costs its sender the gas used and nobody anything else |
| `Transitions.TransitionNonces` | core/state_transition.go:203-209 | the sender's nonce moves by one if and only if the message is not a creation that cannot fund its value; other senders' nonces stay |
| `TxLaws.IntrinsicCostIs` | core/state_transition.go:75-104 | the charge is 21000, or 53000 for a creation, plus 68 for each byte that is not zero and 4 for each that is |
| `TxLaws.RejectedBecause` | core/state_transition.go:119-198 | which of five conditions stands behind each refusal, in the order of the checks |
| `TxLaws.AppliedWhen` | core/state_transition.go:161-198 | a block's transaction is applied if and only if its nonce is the sender's, sender and pool have ten million each, and that covers the intrinsic charge |
| `TxLaws.AppliedLeaves` | core/state_transition.go:178-244 | what an applied transaction leaves: every balance and nonce, pool, failure, counter and gas used, from the outcome of execution; the gas given back is the smaller of the counter and half the gas consumed |
| `Yield.EpochSumBound` | core/state_processor.go:77 | the sum of any number of halved epoch yields stays below twice the first |
| `Yield.YieldBelowByEpoch` | core/state_processor.go:77 | the yield of all blocks below a number, in closed form by epochs |
| `Yield.TotalYieldBound` | core/state_processor.go:32-77 | any set of distinct blocks yields less than 100 Okp times the epoch length in all |
| `Yield.YieldEnds` | core/state_processor.go:32-77 | a block's yield is zero if and only if 39 epochs have passed |
| `Yield.YieldHalves` | core/state_processor.go:32-77 | each of the first 1576800 blocks yields 500000000000, and a block an epoch later half as much, rounded down |
| `ShardListing.SortByGasFee` | core/state_processor.go:64-73 | returns every shard exactly once, in ascending order of fees |
| `ShardListing.LargestComesLast` | core/state_processor.go:64-73 | the shards that some sorted listing ends with are exactly those with the largest fee |
| `RewardSplit.AverageFits` | core/state_processor.go:94-97 | the shard pot and 1.1 averages for the committee fit into the total despite rounding |
| `RewardSplit.AverageLargest` | core/state_processor.go:94-95 | the average is the largest number of which 1.1 for the committee and one per shard fit into the total |
| `RewardSplit.SplitIs` | core/state_processor.go:94-97 | whatever number has that property is the average and fixes both parts of the total |
| `RewardSplit.CommitteeBounds` | core/state_processor.go:94-97 | the committee gets at least 1.1 averages, and less than 1.1 plus one per shard more than that |
| `RewardSplit.RoundedShareIs` | core/state_processor.go:103-104 | a shard's share is the pot times its whole percentage of the fees over a hundred, both rounded down |
| `RewardSplit.DsTotal` | core/state_processor.go:94-131 | the committee gets everything without shards, and otherwise at least 1.1 times the shard average |
| `RewardSplit.OtherSharesFit` | core/state_processor.go:99-117 | the shares rounded twice never exceed what exact proportion leaves for the last shard, nor the pot |
| `RewardSplit.ShardRewardsSum` | core/state_processor.go:99-128 | the shards share out the pot exactly, so that no credit is negative |
| `RewardSplit.LastShardShare` | core/state_processor.go:119-128 | the shard listed last gets at least its exact proportional share |
| `RewardSplit.LastShardFavoured` | core/state_processor.go:119-128 | the shard with the largest fee gets at least as much as any other |
| `RewardSplit.RewardsOrderIndependent` | core/state_processor.go:99-128 | every sorted listing gives the same rewards if and only if one shard alone has the largest fee or rounding loses nothing |
| `RewardTies.EqualFeesOrder` | core/state_processor.go:94-128 | any number of shards with equal fees get the same in every order if and only if their number divides a hundred or the average is zero |
| `RewardTies.TieDependsOnOrder` | core/state_processor.go:75-128 | three shards with equal fees, at the pot of any block with an average of at least one: the one listed last gets more than it would otherwise |
| `RewardSplit.LeaderReward` | core/state_processor.go:132-145 | the leader gets what the backups leave, at least 1.1 times a backup's reward, and together they get the committee's total |
| `RewardSplit.LeaderBounds` | core/state_processor.go:132-145 | a backup's reward is the largest that the rule allows; the leader gets at least 1.1 of it, and less than 1.1 plus one per backup more than that |
| `Rewards.PayShards` | core/state_processor.go:99-128 | the loop panics exactly at a zero divisor or a shard without leader, and otherwise pays each shard's leader, for every possible listing |
| `Rewards.PayCommittee` | core/state_processor.go:132-145 | the loop pays backups and leader, and panics exactly if there is no leader to index |
| `Rewards.AssignRewards` | core/state_processor.go:75-146 | panics if and only if the rewards are not assignable, and otherwise leads to the state of the reward function for the listing that sorting returned |
| `Rewards.CreditShardsPays` | core/state_processor.go:99-128 | after any prefix of the listing each address has what its own shards earned, and the total rose by the listed rewards |
| `Rewards.CreditBackupsPays` | core/state_processor.go:132-145 | each address gets the average once per backup seat it holds |
| `Rewards.AssignedPays` | core/state_processor.go:75-146 | exactly fees plus yield are paid out, to each address its rounded due, and nothing but balances changes |
| `Rewards.AssignedSplits` | core/state_processor.go:94-146 | the state after the rewards, from the largest average alone: the shards raised the total by the average times their number, the committee got the rest, with bounds on both sides |
| `Rewards.CommitteeIs` | core/state_processor.go:132-145 | every address gets the largest backup reward once per seat behind the first, and the first member what the others leave |
| `Rewards.ShardLeaderGets` | core/state_processor.go:99-128 | a leader of one shard only gets that shard's rounded share, or what the others leave of the pot if the shard is listed last |
| `Rewards.RemainderToLast` | core/state_processor.go:99-128 | each address earns the rounded shares of its shards, and the leader of the shard listed last also what rounding left over |
| `Rewards.PayoutOrderIndependent` | core/state_processor.go:64-146 | every address is paid the same for all sorted listings if and only if all shards with the largest fee have one leader or rounding loses nothing |
| `Processor.ApplyTransaction` | core/state_processor.go:199-236 | one transaction with finalisation, panicking exactly without a committee; pool plus gas used so far stays the same |
| `Processor.RunTransactions` | core/state_processor.go:161-184 | the loop over the transactions panics exactly at a first transaction without a committee, stops at the first refusal, and otherwise gives the run's state and gas |
| `Processor.Process` | core/state_processor.go:154-190 | when a block is accepted, refused with which error, or panics, and that an accepted one leads to an accepted state |
| `Processor.RunGas` | core/state_processor.go:161-184 | pool and gas used make up 10^16 after every prefix of a block; each transaction uses between 10500 and 10^7 |
| `Processor.RunIntrinsic` | core/state_processor.go:161-184 | each transaction of a block is billed at least half of what its own data and kind cost |
| `Processor.RunFees` | core/state_processor.go:166-184 | the fee total is the sum of gas times price modulo 2^64, and is the sum of the shards' fees |
| `Processor.FeeIs` | core/state_processor.go:174-175 | a fee is below 2^64 and differs from gas times price by a multiple of 2^64 |
| `Processor.RunShardFees` | core/state_processor.go:166-184 | exactly the shards of the block's transactions are tallied, each with the fees of its own transactions |
| `Processor.RunSupply` | core/state_processor.go:154-190 | the transactions of a block burn exactly the gas used, besides destroyed coins |
| `Processor.BlockSupply` | core/state_processor.go:154-190 | supply after a block = supply before − gas used − destroyed + fees modulo 2^64 + yield |
| `Processor.UnitPriceSupply` | core/state_processor.go:154-190 | if every transaction has price one, a block issues exactly its yield |
| `Prices.FeeAgainstGas` | core/state_processor.go:174-175 | a fee that fits 64 bits at a positive price is at least the gas, and is the gas if and only if the price is one |
| `Prices.SupplyAgainstYield` | core/state_processor.go:154-190 | a block with such prices issues at least its yield, and exactly its yield if and only if every price is one |
| `Prices.PriceTwoIssuesMore` | core/state_processor.go:154-190 | an accepted block with one transfer at price two issues 21000 more than its yield |
| `Refunds.BilledInFull` | core/state_transition.go:224-239 | an applied message is given back the smaller of the counter and half of what it consumed: at most either, and one of the two. It is billed in full if and only if the counter is zero after it; one that earned nothing, if and only if it found a zero counter |
| `Refunds.StaleRefunds` | core/state/statedb.go:632-636 | over a block, while nothing is earned the counter stays, and every transaction is billed in full if and only if it was zero |
| `Refunds.SecondTransferHalfBilled` | core/state/statedb.go:632-636 | a block of two plain transfers of which the second earns nothing, consumes 21000 and is billed 10500 |
| `TxHeap.RootDearest` | protos/transaction.go:211-231 | no element of a heap is dearer than its root |
| `TxHeap.Down` | protos/transaction.go:211-231 | sifting down in place restores the heap from its index on, rearranges the first elements, and leaves everything beyond the bound |
| `TxHeap.Up` | protos/transaction.go:211-231 | sifting up in place restores the heap and rearranges it |
| `TxHeap.Init` | protos/transaction.go:246-266 | turns any array prefix into a heap of the same elements, in place |
| `TxHeap.Fix` | protos/transaction.go:277-286 | restores the heap after its root was replaced |
| `TxHeap.PopRoot` | protos/transaction.go:291-293 | moves the root behind the heap and leaves a heap of the rest, in place |
| `Scheduler.TransactionsByPriceAndNonce.constructor` | protos/transaction.go:246-266 | a heap with one head per account, heads and rests being exactly the given lists |
| `Scheduler.TransactionsByPriceAndNonce.Peek` | protos/transaction.go:269-274 | returns a dearest account head, or nothing exactly if nothing is pending |
| `Scheduler.TransactionsByPriceAndNonce.Shift` | protos/transaction.go:277-286 | the peeked account moves to its next transaction, all others stay, the heap is kept |
| `Scheduler.TransactionsByPriceAndNonce.Pop` | protos/transaction.go:291-293 | the peeked account is dropped, all others stay, the heap is kept |
| `Scheduler.SplitHeads` | protos/transaction.go:246-266 | whatever order the accounts come in, heads and rests together are the given lists |
| `Schedules.PlacedInOrder` | protos/transaction.go:269-293 | in every run an account's transactions come out in list order, none skipped, and exactly the rest stays |
| `Schedules.DrainComplete` | protos/transaction.go:269-286 | draining emits each account's whole list |
| `Schedules.DrainPermutes` | protos/transaction.go:269-286 | draining emits every transaction as often as it was given |
| `Schedules.DearestNext` | protos/transaction.go:269-293 | each emitted transaction is at least as dear as every account's next one |
| `Schedules.DroppedForGood` | protos/transaction.go:291-293 | after Pop no transaction of that account is returned |
| `Schedules.Drain` | protos/transaction.go:269-286 | Peek and Shift until empty terminates and is such a run |
| `ScheduleNonces.ExecutedInListOrder` | protos/transaction.go:269-293 | in every run each executed transaction is the next one of its sender's list |
| `ScheduleNonces.NoncesFollow` | core/state_transition.go:203-209 | after any applied prefix of a schedule each account's nonce has moved once per transaction, uncovered creations excepted |
| `ScheduleNonces.SchedulePassesNonceCheck` | core/state_transition.go:161-173 | over consecutive nonces, the next scheduled transaction passes the nonce check if and only if none of its sender's applied ones was an uncovered creation |
| `ScheduleNonces.ShortCreationStalls` | core/state_transition.go:203-218 | a concrete account whose uncovered creation is applied and whose next transaction is then refused |
| `FeedCases.Find` | accounts/event/feed.go:210-217 | the first case of the channel, −1 exactly if there is none |
| `FeedCases.DeleteAt` | accounts/event/feed.go:220-222 | shifting in place removes exactly one case |
| `FeedCases.DeactivateAt` | accounts/event/feed.go:225-229 | the swap takes one case out of the active prefix, in place |
| `FeedCases.DeliverKeeps` | accounts/event/feed.go:153-178 | a delivery moves one case from the active ones to the delivered ones and loses none |
| `FeedCases.RemoveKeeps` | accounts/event/feed.go:168-174 | a removal during Send takes out one case, and shrinks the active prefix exactly if the case was active |
| `FeedCases.Feed.Subscribe` | accounts/event/feed.go:73-93 | appends to the inbox |
| `FeedCases.Feed.Remove` | accounts/event/feed.go:104-125 | without a Send in progress, removes the first case from the inbox or else from the send cases |
| `FeedCases.Feed.TakeInbox` | accounts/event/feed.go:135-138 | the inbox is appended to the send cases, in the old array or a larger one |
| `FeedCases.Feed.TrySends` | accounts/event/feed.go:157-163 | the non-blocking pass keeps the books of delivered, removed and active cases |
| `FeedCases.Feed.HandleRemoval` | accounts/event/feed.go:168-174 | a removal request is served wherever its case is |
| `FeedCases.Feed.Send` | accounts/event/feed.go:129-187 | whoever subscribes or leaves the inbox meanwhile, every case present at the start got the value exactly once or was removed first; nsent counts deliveries; what remains is the start minus removals; it is a sequence of deliveries and removals; it terminates because cases plus active cases fall |
| `FeedProtocol.StepKeeps` | accounts/event/feed.go:73-187 | every step keeps the count of subscriptions and the bound on removers |
| `FeedProtocol.DeletionNeverMisses` | accounts/event/feed.go:104-176 | in every interleaving a deletion finds its channel, and not as the removal case |
| `FeedProtocol.CountedOnce` | accounts/event/feed.go:73-125 | in every interleaving each subscription not yet removed is counted once across inbox and send cases |
| `FeedProtocol.FinishedSend` | accounts/event/feed.go:129-187 | in every interleaving a finished Send has served or removed everyone present at its start |
| `FeedProtocol.SendIsBounded` | accounts/event/feed.go:153-179 | however others interleave, a Send takes at most as many steps as it had cases and active cases |
| `FeedProtocol.SendIsRun` | accounts/event/feed.go:129-187 | the turns that the array-level Send takes are a legal continuation of every run with removers waiting for its removals, and lead to its last state |
| `AbiBytes.U256RoundTrip` | accounts/abi/numbers.go:48-50 | decoding a packed word gives the number modulo 2^256 |
| `AbiPack.FinishLaysOut` | accounts/abi/argument.go:241-267 | growing two buffers lays out all heads, then all tails, or stops at the first failure |
| `AbiPack.HeadLength` | accounts/abi/argument.go:234-240 | the head length as the packer counts it |
| `AbiPack.Pack` | accounts/abi/argument.go:222-267 | the loop over the arguments gives the layout of heads and tails, or the error or panic of the first argument that fails |
| `AbiChecks.LeafPacksIff` | accounts/abi/error.go:65-80 | a value packs as a basic type if and only if it is of the right Go type: integers of exactly the size and sign, fixed bytes of exactly the length, addresses and functions of any length |
| `AbiChecks.LeafPanicsIff` | accounts/abi/pack.go:36-68 | packing a basic type panics if and only if a list of other elements stands where bytes are due or an array stands for a hash |
| `AbiChecks.ListPacksIff` | accounts/abi/error.go:40-61 | a slice or array of a basic type packs if and only if the value is a slice or array, an array has the length, the elements have the kind, and each packs |
| `AbiChecks.NestedPacks` | accounts/abi/error.go:40-61 | at any depth, what packs as an array has its length and elements that pack |
| `AbiChecks.ArgsPackIff` | accounts/abi/argument.go:222-267 | a list packs if and only if the count is right and every argument packs; otherwise the first that fails decides between error and panic |
| `AbiLayout.BigEndian` | accounts/abi/numbers.go:48-50 | the first byte of a word is the most significant |
| `AbiLayout.WordLayout` | accounts/abi/pack.go:36-81 | the bytes of every one-word value: numbers in two's complement, booleans zero or one in the last byte, addresses at the end, fixed bytes and functions at the beginning, zeros elsewhere |
| `AbiLayout.BytesLayout` | accounts/abi/pack.go:29-32 | a string or byte string of n bytes packs into whole words, as few as hold them behind one length word: the word has the value n, the bytes follow it, and every byte behind them is zero |
| `AbiLayout.ArrayLayout` | accounts/abi/type.go:181-197 | the elements of an array stand one after the other at multiples of their size |
| `AbiLayout.SliceLayout` | accounts/abi/type.go:181-197 | a slice of n words is a word of value n and then the elements in order |
| `AbiLayout.StaticInPlace` | accounts/abi/argument.go:241-267 | a static argument stands in the head behind the words of those before it |
| `AbiLayout.EncodingWhole` | accounts/abi/argument.go:222-267 | the encoding of every supported list is a whole number of words, the head and then the tails, and every offset written is a multiple of 32 |
| `AbiUnpack.ReadBoolBytes` | accounts/abi/unpack.go:53-67 | the byte loop accepts exactly the words of true and false |
| `AbiLayout.IntegerDecoded` | accounts/abi/unpack.go:29-50 | any word decodes to an integer in the type's range that differs from the word's value by a multiple of its size, or to the word's value as a big integer |
| `AbiLayout.BoolDecoded` | accounts/abi/unpack.go:53-67 | exactly the words zero and one decode to the booleans, and no word panics |
| `AbiLayout.BytesDecoded` | accounts/abi/unpack.go:70-94 | which bytes of any input make an address, a hash, a function and a fixed byte array, and when a function is refused |
| `AbiUnpack.LengthPrefixPointsTo` | accounts/abi/unpack.go:201-230 | for every input either an error or a range inside the input |
| `AbiInts.GetFullElemSize` | accounts/abi/unpack.go:96-105 | the loop gives the wrapped product of the sizes |
| `AbiInts.FullSizeIs` | accounts/abi/unpack.go:96-105 | wrapping at every multiplication gives the true inlined size wrapped once |
| `AbiInts.GetArraySize` | accounts/abi/argument.go:173-184 | the loop gives the wrapped product of the sizes |
| `AbiInts.ForEachUnpack` | accounts/abi/unpack.go:108-149 | the loop in 64-bit arithmetic gives the elements or the first failure |
| `AbiInts.UnpackValues` | accounts/abi/argument.go:189-213 | the loop with its running index in 64-bit arithmetic gives the arguments or the first failure |
| `AbiInts.ReadsWhole` | accounts/abi/unpack.go:153-198 | a decoded value lies inside the input with all its words |
| `AbiInts.ArgsRefine` | accounts/abi/argument.go:189-213 | decoding in 64-bit arithmetic is decoding in unbounded integers, with a running index that is never negative, if every array type and the input are small enough for the bound tests; products of sizes may wrap |
| `AbiInts.DecodingSafe` | accounts/abi/argument.go:189-213 | for such types with fixed bytes up to a word, every input decodes to values or an error, and bytes behind the input make no difference |
| `AbiInts.WrappedSize` | accounts/abi/unpack.go:112-114 | a type of 2^59 empty arrays that a single word decodes, because its size wraps to zero |
| `AbiUnpack.DecodingStaysInside` | accounts/abi/unpack.go:153-198 | in unbounded integers, every input and every type with fixed bytes up to a word decode to a value or an error, and bytes behind the input make no difference |
| `AbiUnpack.ArgsStayInside` | accounts/abi/argument.go:189-213 | the same for argument lists, in unbounded integers |
| `AbiUnpack.LeafPanics` | accounts/abi/unpack.go:84-94 | a leaf panics if and only if it is a fixed byte array with a word to read that ends behind the input's capacity |
| `AbiUnpack.LeafReadsInside` | accounts/abi/unpack.go:84-94 | a leaf is independent of the bytes behind the input if and only if it is not a fixed byte array with a word to read that ends there |
| `AbiUnpack.LongArrayPanics` | accounts/abi/unpack.go:108-149 | an array of fixed byte arrays panics if and only if its words lie inside the input but its last element ends behind the capacity |
| `AbiUnpack.LongSlicePanics` | accounts/abi/unpack.go:108-149 | the same for a slice, from where its prefix points |
| `AbiUnpack.ArgsPanic` | accounts/abi/argument.go:189-213 | a list panics if and only if one of its arguments does and all before it are decoded |
| `AbiRoundTrip.WordReadsBack` | accounts/abi/pack.go:36-81 | every one-word value is read back wherever its word stands |
| `AbiRoundTrip.BigRoundTripIff` | accounts/abi/unpack.go:29-50 | a big integer is read back if and only if it is not negative and below 2^256 |
| `AbiRoundTrip.LongBytesReadBack` | accounts/abi/unpack.go:84-94 | a fixed byte array of a word or more is packed as it is and read back |
| `AbiRoundTrip.StaticReadsBack` | accounts/abi/unpack.go:108-149 | arrays of words, nested at will and possibly empty, are read back exactly if the input reaches as far as the decoder asks, and give an error otherwise |
| `AbiRoundTrip.DynamicReadsBack` | accounts/abi/unpack.go:201-230 | strings, byte strings and slices of words are read back through an offset that points at them |
| `AbiArguments.EachPacks` | accounts/abi/type.go:173-198 | supported arguments always pack, each on its own |
| `AbiArguments.ArgsReadBack` | accounts/abi/argument.go:189-213 | whole lists are read back from any data that holds heads and tails in place and reaches far enough, and give an error otherwise |
| `AbiArguments.InputOffsetExact` | accounts/abi/argument.go:234-240 | without arrays of empty arrays, the packer's head length is the true one if and only if no array has elements of more than one word |
| `AbiArguments.OffsetsPointAtTails` | accounts/abi/argument.go:241-267 | where each offset and each tail stand; without arrays of empty arrays the offset points at the argument's own tail if and only if no array has elements of more than one word |
| `AbiArguments.RoundTrip` | accounts/abi/argument.go:189-267 | for every supported list with right offsets, unpacking what was packed gives the arguments back if and only if every argument with an empty array in it has as many bytes from its place on as the decoder asks, one word for an empty array of words |
| `AbiArguments.RoundTrip64` | accounts/abi/argument.go:189-267 | the same in 64-bit arithmetic, for types and inputs whose bound tests do not wrap |
| `AbiArguments.FilledRoundTrip` | accounts/abi/argument.go:189-267 | without empty arrays everything is read back |
| `AbiArguments.EmptyArrayLost` | accounts/abi/argument.go:189-267 | an empty array of any word type on its own packs into nothing and does not unpack |
| `Ancestor.ParentIsLower` | core/database_util.go:169-180 | in a well-kept store a found parent is exactly one lower, also with the wrap-around at zero |
| `Ancestor.ParentIs` | core/database_util.go:169-180 | a header's parent is found to be p if and only if p is stored, has the hash that the header names, and is one lower |
| `Ancestor.StepHigher` | core/database_util.go:644-668 | stepping the higher header loses no common ancestor and adds none |
| `Ancestor.StepBoth` | core/database_util.go:644-668 | stepping two different headers of one height loses none and adds none |
| `Ancestor.FindCommonAncestor` | core/database_util.go:644-668 | terminates with the highest common ancestor, or with nothing exactly if there is none |
| `Urls.CmpOrder` | accounts/url.go:83-88 | comparison is antisymmetric and zero exactly on equal URLs |
| `Urls.BeforeTransitive` | accounts/url.go:83-88 | comparison is transitive across schemes and paths |
| `Urls.CmpStrIs` | accounts/url.go:83-88 | string comparison gives −1, 0 or 1, and is negative exactly if the first string begins the second or has the smaller character where they first differ |
| `Urls.BeforeIs` | accounts/url.go:83-88 | schemes are compared first, and paths only between equal schemes |
| `Wallets.Search` | accounts/manager.go:184-208 | bisection finds the first wallet not before the URL |
| `Wallets.MergeSorted` | accounts/manager.go:184-195 | a merge keeps the list strictly sorted and adds exactly the wallet |
| `Wallets.DropSorted` | accounts/manager.go:198-208 | a drop keeps it strictly sorted and removes exactly the wallet |
| `Wallets.SortedUnique` | accounts/manager.go:184-208 | a strictly sorted list is determined by its members |
| `Wallets.Manager.Update` | accounts/manager.go:105-114 | an event is merged or dropped in place |
| `Refresh.KeyStore.RefreshWallets` | accounts/keystore/keystore.go:140-181 | the two loops over wallets and accounts give the function's wallets and events, for all inputs |
| `Refresh.RefreshExact` | accounts/keystore/keystore.go:140-181 | wallets are the accounts without URL conflict, arrivals exactly the accounts at new URLs, drops exactly the wallets without account |
| `Refresh.EventsInOrder` | accounts/keystore/keystore.go:140-181 | arrivals and drops together are announced in strictly ascending order of their URLs |
| `Refresh.RefreshMatchesIff` | accounts/keystore/keystore.go:140-181 | wallets match the accounts one for one if and only if no URL changed its address |
| `Refresh.ConflictLoses` | accounts/keystore/keystore.go:140-181 | a URL that changes its address loses its account |
| `Refresh.ReplayKeepsInStep` | accounts/manager.go:105-114 | a manager holding the old wallets among others holds the refreshed ones among them after the events, and is sorted at every step |
| `Refresh.ReplayFollows` | accounts/manager.go:105-114 | a manager list equal to the old wallets becomes the refreshed list |
| `Unlock.StepKeeps` | accounts/keystore/keystore.go:339-437 | every step keeps: an unlocked address has its own record, never aborted, with an intact key |
| `Unlock.ClosedAtMostOnce` | accounts/keystore/keystore.go:363-390 | in every interleaving no abort channel is closed twice |
| `Unlock.HeldKeysIntact` | accounts/keystore/keystore.go:363-437 | in every interleaving no key in the map was wiped |
| `Unlock.KeysAccountedFor` | accounts/keystore/keystore.go:363-437 | in every interleaving a key is neither held nor wiped if and only if it belongs to a timed unlock that a newer one replaced |
| `Unlock.ReplacedKeyStays` | accounts/keystore/keystore.go:363-390 | a run that leaves such a key |
| `Unlock.TimedUnlockExpires` | accounts/keystore/keystore.go:363-390 | in every interleaving a timed unlock is held only while an expiry for it is under way |
| `Unlock.WhatEndsAnUnlock` | accounts/keystore/keystore.go:419-437 | an unlock ends only by its own expiry or by a new unlock of a timed one; an indefinite one only through Lock |
| `Unlock.IndefiniteStays` | accounts/keystore/keystore.go:363-390 | over whole runs an indefinite unlock stays unless Lock is called |
| `Unlock.UnlockInstalls` | accounts/keystore/keystore.go:363-390 | unlocking an address that is held with no expiry under way wipes the new key and changes nothing else; otherwise it installs the new record in place of a timed one, whose channel is closed, and starts an expiry for it if and only if it is timed |
| `Unlock.UnlockLasts` | accounts/keystore/keystore.go:334-390 | an unlock without timeout, of an address not held so already, is held under the new record after every continuation without Lock |
| `Unlock.LockStarts` | accounts/keystore/keystore.go:339-349 | Lock changes nothing but to start an expiry for the record it finds, whose end locks the address and wipes the key |
| `Unlock.ExpiryEnds` | accounts/keystore/keystore.go:419-437 | an expiry ends once and ends no other; one that is called off changes nothing else, and its record is not the one held |
| `Unlock.LockedForGood` | accounts/keystore/keystore.go:339-349 | once Lock has returned, the unlock it saw is never held again |
| `Unlock.ExpiryLeavesUnlocked` | accounts/keystore/keystore.go:419-437 | when an expiry ends, its address is unlocked if and only if it was held under another record |
| `Unlock.LockLocks` | accounts/keystore/keystore.go:339-349 | over whole runs, Lock leaves its address unlocked if and only if a timed unlock between its lookup and its end installed a record that is still held |
| `Unlock.LockCanMiss` | accounts/keystore/keystore.go:339-349 | a run in which a timed unlock slips in between and the address stays unlocked |
| `Unlock.KeyStore.TimedUnlock` | accounts/keystore/keystore.go:363-390 | is the machine's unlock step, whose effect `Unlock.UnlockInstalls` states, and never closes a closed channel |
| `Unlock.KeyStore.Lock` | accounts/keystore/keystore.go:339-349 | is the machine's lookup step |
| `Unlock.KeyStore.Expire` | accounts/keystore/keystore.go:419-437 | is the machine's expiry or abort step |
| `AccountCache.AddKeeps` | accounts/keystore/account_cache.go:103-116 | adding keeps order and index; the account is in the list afterwards and nothing else came or went |
| `AccountCache.AddTwice` | accounts/keystore/account_cache.go:103-116 | adding an account again changes nothing |
| `AccountCache.AddsUnlessFirst` | accounts/keystore/account_cache.go:103-116 | adding changes nothing if and only if the account is the first at its URL; behind another one it is added again |
| `AccountCache.DeleteKeeps` | accounts/keystore/account_cache.go:119-129 | deleting keeps order and index and takes out one occurrence |
| `AccountCache.DeleteByFileKeeps` | accounts/keystore/account_cache.go:132-146 | deleting by path takes out one account with that path if there is any, and otherwise changes nothing |
| `AccountCache.DeletesFirst` | accounts/keystore/account_cache.go:132-146 | the account that goes is the first at the path |
| `AccountCache.AlwaysValid` | accounts/keystore/account_cache.go:103-146 | over every sequence of operations the list is sorted by URL and each index entry is the list filtered by address, with no empty entries |
| `AccountCache.SearchPath` | accounts/keystore/account_cache.go:132-146 | bisection by path alone finds the URL's position when all schemes agree |
| `AccountCache.RemoveAccount` | accounts/keystore/account_cache.go:148-155 | the loop removes the first occurrence |
| `AccountCache.AccountCache.Add` | accounts/keystore/account_cache.go:103-116 | is the add function, found by bisection |
| `AccountCache.AccountCache.Delete` | accounts/keystore/account_cache.go:119-129 | is the delete function on list and index |
| `AccountCache.AccountCache.DeleteByFile` | accounts/keystore/account_cache.go:132-146 | is the delete-by-path function on list and index |
| `AccountCache.SameAnswers` | accounts/keystore/account_cache.go:160-191 | the index entry and the filtered list admit the same answers |
| `AccountCache.AccountCache.Find` | accounts/keystore/account_cache.go:160-191 | answers as a search through the whole list: match by URL, the only candidate, none, or all candidates sorted |
| `RpcDispatch.StepKeeps` | rpc/client.go:482-595 | every event keeps: an outstanding id is unanswered and its channel open, and every id is outstanding or settled |
| `RpcDispatch.NeverFaults` | rpc/client.go:482-639 | in every run no channel is closed twice, sent to after closing, or sent to when full |
| `RpcDispatch.RepliesMatch` | rpc/client.go:615-639 | in every run the replies on a channel have distinct ids of its operation, so at most as many as ids; a plain channel is closed only with an error |
| `RpcDispatch.ExitSettlesAll` | rpc/client.go:482-595 | at exit every registered id was answered, taken back after a failed write, or its channel closed |
| `RpcDispatch.SubscriptionsAnswered` | rpc/client.go:615-639 | in every run an active subscription's request was answered without error, and at exit none is active |
| `RpcDispatch.Client.HandleResponse` | rpc/client.go:615-639 | forwards the reply to the waiting operation or starts its subscription, as the machine's step, whose effect `RpcReplies` states |
| `RpcDispatch.Client.CloseRequestOps` | rpc/client.go:578-595 | visiting entries in any order closes each waiting operation once and no other |
| `RpcDispatch.Client.Register` | rpc/client.go:553-559 | registers all ids of the operation and takes the write lock |
| `RpcDispatch.Client.FinishSend` | rpc/client.go:561-572 | releases the lock; after a failed write no id of the operation is outstanding |
| `RpcDispatch.Client.Dispatch` | rpc/client.go:482-575 | the loop over any legal sequence of events leads to the state of the run |
| `RpcDispatch.BatchMatches` | rpc/client.go:305-355 | in every run, whatever has arrived on a channel has distinct ids among the operation's distinct ids, which is all the collection of a batch asks for |
| `RpcDispatch.FindElem` | rpc/client.go:337-343 | the search finds the element of any id of the operation |
| `RpcDispatch.CollectBatch` | rpc/client.go:305-355 | in whatever order replies come, each element ends with the outcome for its own id |
| `RpcDispatch.BatchComplete` | rpc/client.go:305-355 | as many replies as requests means that every element has its answer |
| `RpcReplies.SentWasRead` | rpc/client.go:615-639 | in every run each reply on a channel was read, as it is, after its operation had been registered with its id |
| `RpcReplies.ReadIsForwarded` | rpc/client.go:615-639 | the first response read for an outstanding id of a plain operation stands on its channel afterwards, as it was read |
| `RpcReplies.BatchGetsWhatWasRead` | rpc/client.go:305-355 | a batch element has an outcome if and only if a reply for its id is on the channel; it is that reply's payload, and was read after the batch had been registered |
| `RpcReplies.SubscriptionStarts` | rpc/client.go:615-639 | the response to a subscription request closes its channel, and starts the subscription under the id it names if and only if it is no error and names one |
| `RpcReplies.ReadErrSettlesAll` | rpc/client.go:534-595 | after a read error nothing is outstanding, no subscription is active, and every id registered so far is settled |
| `RpcReplies.WhyUnanswered` | rpc/client.go:482-595 | in every run ids are taken back only after a failed write, and a plain channel is closed only by a read error or at exit |

## Left out

- The virtual machine's interpreter, storage tries, journalling and snapshots, receipts, logs and blooms.
- Signatures, hashing, key files, scrypt and AES; key directory scanning and file watching.
- Consensus, gossip, sharding assignment, console, configuration and generated code.
- HTTP batches and the reconnect and write paths of the RPC client beyond their effect on the dispatch loop.
- Delivery of subscription notifications in the RPC client: only which subscriptions exist is tracked.
- ABI parsing of type strings, unpacking into Go structs, and method and event selectors.
- ABI slices of arrays, nested dynamic types, and lists whose offsets are wrong are decoded but not part of the round trip.
- Go's limit on slice lengths is a precondition where a length is converted: input data below 2^63 bytes.
- Running out of memory: an array type or slice that is too large to allocate is decoded by the model.
- `AccountCache.AlwaysValid`: for accounts of one URL scheme, which is all the keystore creates; searching by path alone needs it.
- `RpcDispatch.StepKeeps`: ids are assumed distinct while outstanding; the 32-bit id counter repeats only after 2^32 requests.
- `FeedCases.Feed.Send`: removal requests name subscribed channels here; that they always do is shown for all interleavings in `FeedProtocol`.

# MinDexV2 pair — a verified model

MinDexV2Pair is a fee-less constant-product pool in the style of Uniswap V2.
It holds two tokens and issues liquidity shares. Every operation follows the
"push tokens, then call" pattern, and no operation takes a deposit amount:

- `mint()` credits shares for whatever the pair holds beyond its reserves.
- `burn()` burns the caller's whole share balance and pays out both tokens in
  proportion.
- `swap(amount0Out, amount1Out, to)` pays out the requested amounts. It
  reverts unless the product of the remaining balances is at least the
  product of the reserves.
- `sync()` brings the reserves in line with the balances.

Every update of the reserves also advances two UQ112x112 price accumulators.
Each grows by the elapsed time times the price at the reserves before the
update. This is the time-weighted-average-price oracle.

The repository's test suite `packages/core/test/MinDexV2Pair.ts` fixes this
behaviour with exact wei amounts. The model follows that file.

- `Math` (math.dfy): floor square root, defined by its characterisation
  `r*r <= x < (r+1)*(r+1)` and computed by bisection. Also small lemmas on
  products and floor division.
- `PriceCodec` (price_codec.dfy): the UQ112x112 price
  `quote * 2^112 / base`, which is 0 on an empty base. It is what the suite's
  `calculateCurrentPrice` computes.
- `Shares` (shares.dfy): the liquidity-share ledger. It holds a
  `map<Address, nat>` and its sum, with issue and redeem operations that keep
  the sum exact. The 1000 permanently locked shares sit at the null address.
- `PairSpec` (pair_spec.dfy): the pair as a state machine on values. Each
  operation maps a `PairState` either to `Done(output, next state)` or to
  `Fail(error)`. A failing call changes nothing, which models the EVM's
  all-or-nothing revert. The invariant `Valid` says:
  - reserves never exceed what the pair holds and fit a uint112;
  - the total supply is the sum of all balances;
  - the null address holds exactly the locked minimum once anything was
    minted;
  - once anything was minted, both reserves are positive.
- `PairProperties` (pair_properties.dfy): what the pair promises across
  calls:
  - how the first and later mints size shares;
  - proportional burn;
  - no profit from minting and burning back;
  - the exact success condition of swap and its error cases;
  - linear growth of the oracle under constant reserves;
  - set-once token binding.
- `PairContract` (pair_contract.dfy): the pair as a `class Pair` whose
  methods update its storage fields in place. Each public operation
  (initialize, a token transfer in, mint, burn, swap, sync) is proved to keep
  `Valid()` and to produce exactly the result and state of its `PairSpec`
  function; the internal helpers are proved to make exactly their own change.
- `PairTests` (pair_tests.dfy): one method per scenario of the test suite.
  Each drives a fresh `Pair` through the same calls as the scenario, and its
  `ensures` clauses promise the share balances, reserves, supplies, token
  balances, errors and accumulator values the scenario expects (and, in a
  few swap scenarios, the resulting reserves the scenario does not read
  back). Outside the oracle scenario every call happens at one time `now`,
  where the suite mines each call in a later block; the values promised do
  not depend on time.

Where the suite and the wider design of the pair differ, the model follows
the suite:

- `burn()` burns the caller's own share balance; the caller does not first
  transfer shares to the pair.
- A swap that lowers the product fails with `InvalidK`.
- A swap output that is not below its reserve is `InsufficientLiquidity`, as
  in the design, so a pool is never drained of a token. The suite only asks
  for outputs above the reserve, so it leaves the equal case open.
- `InsufficientInitialLiquidity`, `InsufficientLiquidityMinted`,
  `InsufficientLiquidityBurned` and `BalanceOverflow` are never triggered by
  the suite. Their conditions come from the Uniswap V2 design the pair
  follows:
  - a first-mint root of at most 1000;
  - zero shares granted;
  - a zero payout;
  - a balance above 2^112 - 1.

The pair's Solidity source is not part of this model.

## Model

| member | source | states |
|---|---|---|
| PriceCodec.Price | packages/core/test/MinDexV2Pair.ts:60-61 | a zero base gives price 0; otherwise the result is the floor of quote * 2^112 / base: p * base <= quote * 2^112 < (p + 1) * base |
| PriceCodec.CurrentPrices | packages/core/test/MinDexV2Pair.ts:55-63 | price0 is the price of reserve1 over reserve0 and price1 the reverse; both are 0 when either reserve is 0 |
| PriceCodec.BalancedPriceIsOne | packages/core/test/MinDexV2Pair.ts:445 | equal reserves give price exactly 2^112, i.e. 1.0 in UQ112x112 |
| PriceCodec.PriceScaleInvariant | packages/core/test/MinDexV2Pair.ts:55-63 | scaling both reserves by the same positive factor leaves the price unchanged |
| PriceCodec.PricesReciprocal | packages/core/test/MinDexV2Pair.ts:55-63 | with both reserves positive, price0 * price1 <= 2^224 < (price0 + 1) * (price1 + 1): the two prices are floor-rounded reciprocals |
| Math.FloorSqrt | packages/core/test/MinDexV2Pair.ts:101-118 | the result is the floor square root: r*r <= x < (r+1)*(r+1) |
| Math.FloorSqrtUnique | packages/core/test/MinDexV2Pair.ts:101-118 | any r with r*r <= x < (r+1)*(r+1) is FloorSqrt(x), which pins the first mint of (1, 1) ether to a supply of exactly 1 ether |
| Math.FloorSqrtAbove | packages/core/test/MinDexV2Pair.ts:101-118 | FloorSqrt(x) > b exactly when x >= (b+1)^2, which decides whether a first deposit clears the locked minimum |
| Shares.SumRemove | packages/core/test/MinDexV2Pair.ts:171-183 | any one balance can be taken out of the ledger's sum first: the sum is that balance plus the sum of the rest |
| Shares.TwoBalancesAtMostSum | packages/core/test/MinDexV2Pair.ts:162-266 | two distinct holders together hold no more than the total, so a burner's balance never reaches the locked minimum's share of the supply |
| Shares.Issue | packages/core/test/MinDexV2Pair.ts:108-117 | issuing adds the amount to one holder's balance and to the sum, and leaves every other balance unchanged |
| Shares.Redeem | packages/core/test/MinDexV2Pair.ts:169-173 | burning takes the amount from one holder's balance and from the sum, and leaves every other balance unchanged |
| PairSpec.Deployed | packages/core/test/MinDexV2Pair.ts:33 | a freshly deployed pair satisfies the invariant |
| PairSpec.Initialize | packages/core/test/MinDexV2Pair.ts:87-97 | binding succeeds exactly when no token is bound yet, sets both token addresses and nothing else, and otherwise fails with AlreadyInitialized |
| PairSpec.Push | packages/core/test/MinDexV2Pair.ts:105-106 | a token transfer to the pair raises only the held balances and keeps the invariant |
| PairSpec.Accumulate | packages/core/test/MinDexV2Pair.ts:446-453 | an accumulator advances by the elapsed time times the price (which is 0 while a reserve is empty) |
| PairSpec.Update | packages/core/test/MinDexV2Pair.ts:426-505 | the reserves become the given balances and the timestamp becomes now; each accumulator grows by elapsed * price at the old reserves; holdings, supply and ledger are unchanged |
| PairSpec.LaterLiquidity | packages/core/test/MinDexV2Pair.ts:119-158 | the shares granted are one of the two proportional claims amount_i * supply / reserve_i and do not exceed either of them |
| PairSpec.Mint | packages/core/test/MinDexV2Pair.ts:101-158 | a committing mint keeps the invariant (supply equals the sum of balances, 1000 locked at the null address, positive reserves) and grants a positive number of shares |
| PairSpec.Payout | packages/core/test/MinDexV2Pair.ts:162-266 | a payout is the floor of liquidity * balance / supply, never more than the balance, and strictly less when the burner holds less than the whole supply |
| PairSpec.Burn | packages/core/test/MinDexV2Pair.ts:162-266 | a committing burn keeps the invariant and pays a positive amount of each token |
| PairSpec.Swap | packages/core/test/MinDexV2Pair.ts:268-424 | a committing swap keeps the invariant and never lowers the product of the reserves |
| PairSpec.Sync | packages/core/test/MinDexV2Pair.ts:426-505 | a committing sync keeps the invariant |
| PairProperties.SupplyIsHoldersPlusLocked | packages/core/test/MinDexV2Pair.ts:171-183 | once minted, the total supply is the sum of all balances other than the null address's, plus the locked 1000 |
| PairProperties.FirstMint | packages/core/test/MinDexV2Pair.ts:101-118 | on an empty pair, mint commits exactly when floor(sqrt(d0*d1)) > 1000 and the balances fit, and reverts with InsufficientInitialLiquidity when the root is at most 1000; when it commits, the caller gets root - 1000, the null address 1000, the supply becomes the root, the reserves become the holdings and the timestamp becomes now |
| PairProperties.FirstMintCredits | packages/core/test/MinDexV2Pair.ts:108-117 | the committing first mint credits root - 1000 to the caller and 1000 to the null address, and sets the supply to the root |
| PairProperties.FirstMintRefuses | packages/core/test/MinDexV2Pair.ts:101-118 | a first mint whose root is at most 1000 reverts with InsufficientInitialLiquidity; otherwise an overflowing balance reverts with BalanceOverflow |
| PairProperties.LaterMint | packages/core/test/MinDexV2Pair.ts:119-158 | on a pair with liquidity, mint commits exactly when min(d0*S/r0, d1*S/r1) > 0 and the balances fit, and grants exactly that minimum; the caller's balance and the supply grow by it, other holders are untouched, and the surplus of the richer token stays in the reserves |
| PairProperties.BurnPaysProportionally | packages/core/test/MinDexV2Pair.ts:162-266 | burn pays floor(l * held_i / S) of each token for the caller's balance l, zeroes that balance, leaves every other holder untouched, lowers the supply by l to at least 1000, and sets the reserves to the remaining positive holdings; it commits exactly when both payouts are positive and fit, and a zero balance reverts with InsufficientLiquidityBurned |
| PairProperties.MintThenBurnNoProfit | packages/core/test/MinDexV2Pair.ts:171-183 | on a pair with no pending donation (reserves equal holdings) and no donation synced into an unminted pair (empty supply means empty reserves), depositing, minting and burning everything minted never returns more of either token than was deposited |
| PairProperties.DonationSyncedGoesToNextMinter | packages/core/test/MinDexV2Pair.ts:101-118 | after d of each token is pushed into a fresh pair and synced, depositing another d of each mints d - 1000 shares that burn for 2d - 2000 of each token, more than the deposit once d > 2000 |
| PairProperties.DonationPendingGoesToNextMinter | packages/core/test/MinDexV2Pair.ts:101-118 | after x > 1000 of each token is pushed into a fresh pair, a deposit of d of each mints x + d - 1000 shares that burn for x + d - 1000 of each token, more than the deposit |
| PairProperties.SyncDonation | packages/core/test/MinDexV2Pair.ts:426-505 | syncing a donation into a fresh pair commits and moves it into the reserves while the supply stays 0 |
| PairProperties.MintOnEmptySupply | packages/core/test/MinDexV2Pair.ts:101-118 | a first mint whose two deposits are both n grants n - 1000 shares and makes the supply n |
| PairProperties.BurnAllPays | packages/core/test/MinDexV2Pair.ts:162-184 | burning a holding l of a supply S from balances (b, b) commits and pays l * b / S of each token when that is exact and positive |
| PairProperties.SwapOutcome | packages/core/test/MinDexV2Pair.ts:268-424 | both outputs zero reverts with InsufficientOutputAmount; an output above its reserve reverts with InsufficientLiquidity; otherwise the swap reverts with InvalidK exactly when the remaining product is below the reserves' product; it commits exactly when none of these holds and the balances fit, and then the reserves equal the remaining holdings and no share changes hands |
| PairProperties.SyncAccumulates | packages/core/test/MinDexV2Pair.ts:426-505 | a sync commits exactly when the holdings fit; each accumulator then grows by elapsed * current price at the old reserves (not at all while a reserve is empty), and the timestamp and reserves are updated |
| PairProperties.SyncEach | packages/core/test/MinDexV2Pair.ts:446-473 | a committing sequence of syncs keeps the invariant |
| PairProperties.SyncsGrowLinearly | packages/core/test/MinDexV2Pair.ts:446-473 | with constant reserves, any chronological sequence of syncs commits and advances each accumulator by exactly (last time - start) * price |
| PairProperties.TokensBoundOnce | packages/core/test/MinDexV2Pair.ts:87-97 | a second initialize reverts with AlreadyInitialized, and mint, burn, swap and sync never change the token addresses |
| PairContract.Outcome | packages/core/test/MinDexV2Pair.ts:342-424 | a call returns a value exactly when its step commits, and otherwise the step's error |
| PairContract.Pair.constructor | packages/core/test/MinDexV2Pair.ts:33 | a deployed pair's storage is the deployed state and keeps the invariant |
| PairContract.Pair.Initialize | packages/core/test/MinDexV2Pair.ts:87-97 | the result and the new storage are those of PairSpec.Initialize |
| PairContract.Pair.Receive | packages/core/test/MinDexV2Pair.ts:105-106 | a transfer into the pair changes the storage as PairSpec.Push does and keeps the invariant |
| PairContract.Pair.Mint | packages/core/test/MinDexV2Pair.ts:101-158 | the result and the new storage are those of PairSpec.Mint, a revert leaves the storage unchanged, and the invariant is kept |
| PairContract.Pair.Burn | packages/core/test/MinDexV2Pair.ts:162-266 | the result and the new storage are those of PairSpec.Burn, a revert leaves the storage unchanged, and the invariant is kept |
| PairContract.Pair.Swap | packages/core/test/MinDexV2Pair.ts:268-424 | the result and the new storage are those of PairSpec.Swap, a revert leaves the storage unchanged, and the invariant is kept |
| PairContract.Pair.Sync | packages/core/test/MinDexV2Pair.ts:426-505 | the result and the new storage are those of PairSpec.Sync, and the invariant is kept |
| PairContract.Pair.IssueShares | packages/core/test/MinDexV2Pair.ts:108-117 | the ledger becomes Shares.Issue of the old ledger and the supply grows by the amount |
| PairContract.Pair.RedeemShares | packages/core/test/MinDexV2Pair.ts:169-173 | the ledger becomes Shares.Redeem of the old ledger and the supply drops by the amount |
| PairContract.Pair.Send | packages/core/test/MinDexV2Pair.ts:283-306 | paying out lowers the pair's holdings by exactly the amounts |
| PairContract.Pair.UpdateReserves | packages/core/test/MinDexV2Pair.ts:426-505 | the storage becomes PairSpec.Update of the old storage |
| PairTests.Deploy | packages/core/test/MinDexV2Pair.ts:11-84 | the fixture's pair is fresh, valid, and bound to the two tokens with nothing held or minted |
| PairTests.SetsTokenAddresses | packages/core/test/MinDexV2Pair.ts:87-97 | the pair reports the two tokens it was bound to |
| PairTests.MintsBootstraps | packages/core/test/MinDexV2Pair.ts:101-118 | minting (1, 1) ether gives the owner 1 ether - 1000 shares, reserves (1, 1) ether and supply 1 ether |
| PairTests.MintsWhenThereIsLiquidity | packages/core/test/MinDexV2Pair.ts:119-138 | a second mint of (2, 2) ether leaves the owner 3 ether - 1000 shares, supply 3 ether and reserves (3, 3) ether |
| PairTests.MintsUnbalanced | packages/core/test/MinDexV2Pair.ts:139-158 | a second mint of (2, 1) ether grants only 1 ether of shares: the owner has 2 ether - 1000 and the reserves are (3, 2) ether |
| PairTests.BurnsBasic | packages/core/test/MinDexV2Pair.ts:162-184 | after mint and burn, the owner holds no shares, the reserves are (1000, 1000), the supply is 1000, and the owner's tokens are 10 ether - 1000 each |
| PairTests.BurnsUnbalanced | packages/core/test/MinDexV2Pair.ts:186-215 | after the unbalanced second mint and a burn, the reserves are (1500, 1000), the supply is 1000, and the owner has 10 ether - 1500 and 10 ether - 1000 |
| PairTests.BurnsUnbalancedDifferentUsers | packages/core/test/MinDexV2Pair.ts:217-266 | the other user's 1 ether - 1000 shares survive the owner's burn; the reserves are (1.5, 1) ether, the supply 1 ether, and the owner has 8.5 and 9 ether |
| PairTests.DeployWithLiquidity | packages/core/test/MinDexV2Pair.ts:271-274 | the swap scenarios' starting pair holds and reserves (1, 2) ether |
| PairTests.SwapsBasic | packages/core/test/MinDexV2Pair.ts:268-281 | pushing 0.1 ether of token0 and taking 0.18 ether of token1 commits, leaving reserves (1.1, 1.82) ether |
| PairTests.SwapsOtherDirection | packages/core/test/MinDexV2Pair.ts:283-306 | pushing 0.2 ether of token1 and taking 0.09 ether of token0 commits with the expected owner balances and reserves (0.91, 2.2) ether |
| PairTests.SwapsBidirectional | packages/core/test/MinDexV2Pair.ts:308-340 | a swap with both outputs commits with reserves (1.01, 2.02) ether and the expected owner balances |
| PairTests.ThrowsWhenSwappingZeroOut | packages/core/test/MinDexV2Pair.ts:342-353 | swap(0, 0) reverts with InsufficientOutputAmount |
| PairTests.ThrowsOnInsufficientLiquidity | packages/core/test/MinDexV2Pair.ts:355-376 | asking for 2.1 ether of token1 or 1.1 ether of token0 reverts with InsufficientLiquidity |
| PairTests.SwapsWhenUnderpriced | packages/core/test/MinDexV2Pair.ts:378-400 | taking 0.09 ether for 0.1 ether commits with reserves (1.1, 1.91) ether and the expected owner balances |
| PairTests.ThrowsWhenSwappingOverpriced | packages/core/test/MinDexV2Pair.ts:402-424 | taking 0.21 ether for 0.1 ether reverts with InvalidK; the reserves stay (1, 2) ether, the owner's balances stay 8.9 and 8 ether, and the pushed 0.1 ether stays with the pair |
| PairTests.MintAndSyncThrice | packages/core/test/MinDexV2Pair.ts:426-473 | after a mint and three syncs 10 seconds apart, the accumulators read 0, 10, 20 and 30 times the initial prices, with matching timestamps |
| PairTests.CalculatesCumulativePrices | packages/core/test/MinDexV2Pair.ts:426-505 | the whole oracle scenario: the accumulators read 0, 10p, 20p, 30p, then (30 + time4 - time3)p at the second mint, then grow by 10 and 20 times the new price |

## Findings

| source | as written | input that shows it | evidently intended | confidence | as-written member | corrected member |
|---|---|---|---|---|---|---|
| packages/core/test/MinDexV2Pair.ts:101-118 | mint credits the caller for everything the pair holds beyond its reserves, and a first mint also ignores reserves a sync set before any share existed, so tokens pushed by someone else (pending, or synced into an unminted pair) go to the next minter | push 4000 of each token into a fresh pair and sync, then deposit 4000 of each and mint: 3000 of 4000 shares, which burn for 6000 of each token | the design's "no free liquidity" promise: mint then burn never returns more than was deposited; it holds only when no donation is pending or synced | not executed | PairProperties.DonationSyncedGoesToNextMinter | PairProperties.MintThenBurnNoProfit |

## Left out

- The Hardhat/viem fixture machinery (wallet clients, `loadFixture`,
  `time.latest`, `time.setNextBlockTimestamp`) is left out. Block time is an
  explicit `now` argument, and a call requires `now` to be no earlier than
  the last update.
- The ERC-20 token contracts are left out. They appear only as what the pair
  holds (`held0`/`held1`), raised by `Receive` and lowered by `Send`. The
  owner's token balances in the scenarios are tracked as plain numbers
  starting at 10 ether.
- The reentrancy guard and EVM call and rollback mechanics are left out. A
  revert is a result that leaves the whole state unchanged, and each method
  checks every revert condition before its first write.
- The `to` argument of swap is left out. Paid-out tokens leave the pair's
  holdings, and the scenarios credit them to the owner.
- Emitted events are left out.
- PairSpec.Update: does not model the uint32 wrap-around of the block
  timestamp or the uint256 wrap-around of the accumulators. Timestamps and
  accumulators are unbounded naturals, and no scenario reaches the wrap.
- Math.FloorSqrt: is specified by the floor-square-root inequalities and
  computed by bisection. The contract's own square-root routine is not part
  of this model.
- Sending shares from one holder to another (the ERC-20 side of the share
  token) is not modelled, since no scenario uses it.
- PairSpec.Burn: products such as `liquidity * balance` are unbounded
  naturals, so the model does not revert where a checked uint256
  multiplication would overflow (for example, a burn after 2^200 of one token
  was pushed into a pair minted with 2^100 of each commits here). A burn on an
  empty supply reverts with InsufficientLiquidityBurned, where the contract's
  division by zero would revert with a panic instead.
- PairSpec.Mint: `amount0 * amount1` and `amount * totalSupply` are unbounded
  naturals; checked uint256 overflow reverts are not modelled.
- PairSpec.Swap: `balance0 * balance1` and `reserve0 * reserve1` are unbounded
  naturals; checked uint256 overflow reverts are not modelled.

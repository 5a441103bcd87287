/** The pair's test scenarios, one method per scenario: each deploys a pair
    bound to two tokens, pushes tokens and calls the pair exactly as the
    scenario does, and promises the balances, reserves, supplies and
    accumulators the scenario expects. The owner starts with 10 ether of each
    token; `wallet0`/`wallet1` follow the owner's token balances. */
module PairTests {
  import opened Shares
  import opened PairSpec
  import opened PairContract
  import Math
  import PriceCodec

  /** One ether in wei. */
  const Ether: nat := 1_000_000_000_000_000_000

  const Owner: Account := 1
  const Other: Account := 2
  const TokenA: Address := 10
  const TokenB: Address := 11

  /** The fixture: a fresh pair initialized with the two tokens. */
  method Deploy() returns (p: Pair)
    ensures fresh(p) && p.Valid()
    ensures p.State() == Deployed().(token0 := TokenA, token1 := TokenB)
  {
    p := new Pair();
    var r := p.Initialize(TokenA, TokenB);
  }

  /** The pair reports the tokens it was initialized with. */
  method SetsTokenAddresses() returns (token0: Address, token1: Address)
    ensures token0 == TokenA && token1 == TokenB
  {
    var p := Deploy();
    token0, token1 := p.token0, p.token1;
  }

  /** The first mint of 1 ether of each token: the owner gets 1 ether - 1000
      shares, the supply is 1 ether, the reserves are the deposits. */
  method MintsBootstraps(now: nat) returns (ownerShares: nat, reserve0: nat, reserve1: nat, supply: nat)
    ensures ownerShares == Ether - 1000
    ensures reserve0 == Ether && reserve1 == Ether
    ensures supply == Ether
  {
    var p := Deploy();
    p.Receive(Ether, Ether);
    Math.FloorSqrtUnique(Ether * Ether, Ether);
    var r := p.Mint(Owner, now);
    ownerShares, reserve0, reserve1, supply := BalanceOf(p.balanceOf, Owner), p.reserve0, p.reserve1, p.totalSupply;
  }

  /** A second mint of 2 ether each into (1, 1) ether grants 2 ether of shares. */
  method MintsWhenThereIsLiquidity(now: nat) returns (ownerShares: nat, supply: nat, reserve0: nat, reserve1: nat)
    ensures ownerShares == 3 * Ether - 1000
    ensures supply == 3 * Ether
    ensures reserve0 == 3 * Ether && reserve1 == 3 * Ether
  {
    var p := Deploy();
    p.Receive(Ether, Ether);
    Math.FloorSqrtUnique(Ether * Ether, Ether);
    var r := p.Mint(Owner, now);
    p.Receive(2 * Ether, 2 * Ether);
    r := p.Mint(Owner, now);
    ownerShares, supply, reserve0, reserve1 := BalanceOf(p.balanceOf, Owner), p.totalSupply, p.reserve0, p.reserve1;
  }

  /** An unbalanced second deposit of (2, 1) ether is credited as (1, 1): the
      extra ether of token0 stays in the reserves. */
  method MintsUnbalanced(now: nat) returns (ownerShares: nat, reserve0: nat, reserve1: nat)
    ensures ownerShares == 2 * Ether - 1000
    ensures reserve0 == 3 * Ether && reserve1 == 2 * Ether
  {
    var p := Deploy();
    p.Receive(Ether, Ether);
    Math.FloorSqrtUnique(Ether * Ether, Ether);
    var r := p.Mint(Owner, now);
    p.Receive(2 * Ether, Ether);
    r := p.Mint(Owner, now);
    ownerShares, reserve0, reserve1 := BalanceOf(p.balanceOf, Owner), p.reserve0, p.reserve1;
  }

  /** Burning everything after the first mint returns all but 1000 wei of each
      token; the locked 1000 shares and 1000 wei of each token stay behind. */
  method BurnsBasic(now: nat)
    returns (ownerShares: nat, reserve0: nat, reserve1: nat, supply: nat, wallet0: nat, wallet1: nat)
    ensures ownerShares == 0
    ensures reserve0 == 1000 && reserve1 == 1000
    ensures supply == 1000
    ensures wallet0 == 10 * Ether - 1000 && wallet1 == 10 * Ether - 1000
  {
    wallet0, wallet1 := 10 * Ether, 10 * Ether;
    var p := Deploy();
    p.Receive(Ether, Ether);
    wallet0, wallet1 := wallet0 - Ether, wallet1 - Ether;
    Math.FloorSqrtUnique(Ether * Ether, Ether);
    var minted := p.Mint(Owner, now);
    var burned := p.Burn(Owner, now);
    wallet0, wallet1 := wallet0 + burned.value.0, wallet1 + burned.value.1;
    ownerShares, reserve0, reserve1, supply := BalanceOf(p.balanceOf, Owner), p.reserve0, p.reserve1, p.totalSupply;
  }

  /** Burning after the unbalanced mint pays (2 ether - 1000) / 2 ether of each
      holding, (3 ether - 1500, 2 ether - 1000), and leaves (1500, 1000). */
  method BurnsUnbalanced(now: nat)
    returns (ownerShares: nat, reserve0: nat, reserve1: nat, supply: nat, wallet0: nat, wallet1: nat)
    ensures ownerShares == 0
    ensures reserve0 == 1500 && reserve1 == 1000
    ensures supply == 1000
    ensures wallet0 == 10 * Ether - 1500 && wallet1 == 10 * Ether - 1000
  {
    wallet0, wallet1 := 10 * Ether, 10 * Ether;
    var p := Deploy();
    p.Receive(Ether, Ether);
    wallet0, wallet1 := wallet0 - Ether, wallet1 - Ether;
    Math.FloorSqrtUnique(Ether * Ether, Ether);
    var minted := p.Mint(Owner, now);
    p.Receive(2 * Ether, Ether);
    wallet0, wallet1 := wallet0 - 2 * Ether, wallet1 - Ether;
    minted := p.Mint(Owner, now);
    var burned := p.Burn(Owner, now);
    wallet0, wallet1 := wallet0 + burned.value.0, wallet1 + burned.value.1;
    ownerShares, reserve0, reserve1, supply := BalanceOf(p.balanceOf, Owner), p.reserve0, p.reserve1, p.totalSupply;
  }

  /** Another account bootstraps the pair; the owner's unbalanced deposit earns
      1 ether of shares, and burning them pays 1.5 ether of token0 and 1 ether of
      token1 while the other account's shares stay as they were. */
  method BurnsUnbalancedDifferentUsers(now: nat)
    returns (ownerBefore: nat, otherShares: nat, supplyBefore: nat, ownerMinted: nat, ownerShares: nat,
             otherAfter: nat, reserve0: nat, reserve1: nat, supply: nat, wallet0: nat, wallet1: nat)
    ensures ownerBefore == 0 && otherShares == Ether - 1000 && supplyBefore == Ether
    ensures ownerMinted == Ether
    ensures ownerShares == 0 && otherAfter == Ether - 1000
    ensures reserve0 == 3 * Ether / 2 && reserve1 == Ether
    ensures supply == Ether
    ensures wallet0 == 17 * Ether / 2 && wallet1 == 9 * Ether
  {
    wallet0, wallet1 := 10 * Ether, 10 * Ether;
    var p := Deploy();
    // The owner hands 1 ether of each token to the other account, which pushes it.
    wallet0, wallet1 := wallet0 - Ether, wallet1 - Ether;
    p.Receive(Ether, Ether);
    Math.FloorSqrtUnique(Ether * Ether, Ether);
    var minted := p.Mint(Other, now);
    assert p.totalSupply == Ether && p.reserve0 == Ether && p.reserve1 == Ether;
    ownerBefore, otherShares, supplyBefore := BalanceOf(p.balanceOf, Owner), BalanceOf(p.balanceOf, Other), p.totalSupply;
    p.Receive(2 * Ether, Ether);
    wallet0, wallet1 := wallet0 - 2 * Ether, wallet1 - Ether;
    minted := p.Mint(Owner, now);
    assert minted == Ok(Ether);
    assert p.totalSupply == 2 * Ether && p.held0 == 3 * Ether && p.held1 == 2 * Ether;
    ownerMinted := BalanceOf(p.balanceOf, Owner);
    var burned := p.Burn(Owner, now);
    assert burned == Ok((3 * Ether / 2, Ether));
    wallet0, wallet1 := wallet0 + burned.value.0, wallet1 + burned.value.1;
    ownerShares, otherAfter := BalanceOf(p.balanceOf, Owner), BalanceOf(p.balanceOf, Other);
    reserve0, reserve1, supply := p.reserve0, p.reserve1, p.totalSupply;
  }

  /** The fixture of the swap scenarios: 1 ether of token0 and 2 ether of token1
      minted by the owner. */
  method DeployWithLiquidity(now: nat) returns (p: Pair)
    ensures fresh(p) && p.Valid()
    ensures p.reserve0 == Ether && p.reserve1 == 2 * Ether
    ensures p.held0 == Ether && p.held1 == 2 * Ether
    ensures p.totalSupply > 0 && p.blockTimestampLast == now
  {
    p := Deploy();
    p.Receive(Ether, 2 * Ether);
    Math.FloorSqrtAbove(Ether * (2 * Ether), MinimumLiquidity);
    var r := p.Mint(Owner, now);
  }

  /** Pushing 0.1 ether of token0 buys 0.18 ether of token1. */
  method SwapsBasic(now: nat) returns (r: Result<()>, reserve0: nat, reserve1: nat)
    ensures r == Ok(())
    ensures reserve0 == 11 * Ether / 10 && reserve1 == 182 * Ether / 100
  {
    var p := DeployWithLiquidity(now);
    p.Receive(Ether / 10, 0);
    r := p.Swap(0, 18 * Ether / 100, now);
    reserve0, reserve1 := p.reserve0, p.reserve1;
  }

  /** Pushing 0.2 ether of token1 buys 0.09 ether of token0. */
  method SwapsOtherDirection(now: nat) returns (r: Result<()>, wallet0: nat, wallet1: nat, reserve0: nat, reserve1: nat)
    ensures r == Ok(())
    ensures wallet0 == 10 * Ether - Ether + 9 * Ether / 100
    ensures wallet1 == 10 * Ether - 2 * Ether - 2 * Ether / 10
    ensures reserve0 == Ether - 9 * Ether / 100 && reserve1 == 2 * Ether + 2 * Ether / 10
  {
    wallet0, wallet1 := 10 * Ether - Ether, 10 * Ether - 2 * Ether;
    var p := DeployWithLiquidity(now);
    p.Receive(0, 2 * Ether / 10);
    wallet1 := wallet1 - 2 * Ether / 10;
    r := p.Swap(9 * Ether / 100, 0, now);
    wallet0 := wallet0 + 9 * Ether / 100;
    reserve0, reserve1 := p.reserve0, p.reserve1;
  }

  /** Pushing both tokens and taking both out at once. */
  method SwapsBidirectional(now: nat) returns (r: Result<()>, wallet0: nat, wallet1: nat, reserve0: nat, reserve1: nat)
    ensures r == Ok(())
    ensures wallet0 == 10 * Ether - Ether - Ether / 10 + 9 * Ether / 100
    ensures wallet1 == 10 * Ether - 2 * Ether - 2 * Ether / 10 + 18 * Ether / 100
    ensures reserve0 == Ether + Ether / 10 - 9 * Ether / 100
    ensures reserve1 == 2 * Ether + 2 * Ether / 10 - 18 * Ether / 100
  {
    wallet0, wallet1 := 10 * Ether - Ether, 10 * Ether - 2 * Ether;
    var p := DeployWithLiquidity(now);
    p.Receive(Ether / 10, 2 * Ether / 10);
    wallet0, wallet1 := wallet0 - Ether / 10, wallet1 - 2 * Ether / 10;
    r := p.Swap(9 * Ether / 100, 18 * Ether / 100, now);
    wallet0, wallet1 := wallet0 + 9 * Ether / 100, wallet1 + 18 * Ether / 100;
    reserve0, reserve1 := p.reserve0, p.reserve1;
  }

  /** Asking for nothing reverts. */
  method ThrowsWhenSwappingZeroOut(now: nat) returns (r: Result<()>)
    ensures r == Err(InsufficientOutputAmount)
  {
    var p := DeployWithLiquidity(now);
    r := p.Swap(0, 0, now);
  }

  /** Asking for more than a reserve reverts, in either token. */
  method ThrowsOnInsufficientLiquidity(now: nat) returns (r1: Result<()>, r0: Result<()>)
    ensures r1 == Err(InsufficientLiquidity) && r0 == Err(InsufficientLiquidity)
  {
    var p := DeployWithLiquidity(now);
    r1 := p.Swap(0, 21 * Ether / 10, now);
    r0 := p.Swap(11 * Ether / 10, 0, now);
  }

  /** Taking less than the product allows (0.09 ether for 0.1 ether) goes through. */
  method SwapsWhenUnderpriced(now: nat) returns (r: Result<()>, wallet0: nat, wallet1: nat, reserve0: nat, reserve1: nat)
    ensures r == Ok(())
    ensures wallet0 == 10 * Ether - Ether - Ether / 10
    ensures wallet1 == 10 * Ether - 2 * Ether + 9 * Ether / 100
    ensures reserve0 == Ether + Ether / 10 && reserve1 == 2 * Ether - 9 * Ether / 100
  {
    wallet0, wallet1 := 10 * Ether - Ether, 10 * Ether - 2 * Ether;
    var p := DeployWithLiquidity(now);
    p.Receive(Ether / 10, 0);
    wallet0 := wallet0 - Ether / 10;
    r := p.Swap(0, 9 * Ether / 100, now);
    wallet1 := wallet1 + 9 * Ether / 100;
    reserve0, reserve1 := p.reserve0, p.reserve1;
  }

  /** Taking 0.21 ether for 0.1 ether would shrink the product: the swap
      reverts with InvalidK and pays nothing, the reserves stay (1, 2) ether and
      the pushed 0.1 ether stays with the pair. */
  method ThrowsWhenSwappingOverpriced(now: nat)
    returns (r: Result<()>, wallet0: nat, wallet1: nat, reserve0: nat, reserve1: nat, held0: nat, held1: nat)
    ensures r == Err(InvalidK)
    ensures wallet0 == 10 * Ether - Ether - Ether / 10 && wallet1 == 10 * Ether - 2 * Ether
    ensures reserve0 == Ether && reserve1 == 2 * Ether
    ensures held0 == Ether + Ether / 10 && held1 == 2 * Ether
  {
    wallet0, wallet1 := 10 * Ether - Ether, 10 * Ether - 2 * Ether;
    var p := DeployWithLiquidity(now);
    p.Receive(Ether / 10, 0);
    wallet0 := wallet0 - Ether / 10;
    r := p.Swap(0, 21 * Ether / 100, now);
    reserve0, reserve1, held0, held1 := p.reserve0, p.reserve1, p.held0, p.held1;
  }

  /** The first half of the oracle scenario: 1 ether of each token minted at
      `mintTime`, then a sync every 10 seconds, three times. */
  method MintAndSyncThrice(mintTime: nat)
    returns (p: Pair, cumulative0: seq<nat>, cumulative1: seq<nat>, stamps: seq<nat>)
    ensures fresh(p) && p.Valid()
    ensures p.reserve0 == Ether && p.reserve1 == Ether && p.held0 == Ether && p.held1 == Ether
    ensures p.totalSupply == Ether && p.blockTimestampLast == mintTime + 30
    ensures var initial := PriceCodec.CurrentPrices(Ether, Ether);
            && p.price0CumulativeLast == 30 * initial.0 && p.price1CumulativeLast == 30 * initial.1
            && cumulative0 == [0, 10 * initial.0, 20 * initial.0, 30 * initial.0]
            && cumulative1 == [0, 10 * initial.1, 20 * initial.1, 30 * initial.1]
    ensures stamps == [mintTime, mintTime + 10, mintTime + 20, mintTime + 30]
  {
    ghost var initial := PriceCodec.CurrentPrices(Ether, Ether);
    p := Deploy();
    p.Receive(Ether, Ether);
    Math.FloorSqrtUnique(Ether * Ether, Ether);
    var minted := p.Mint(Owner, mintTime);
    assert p.reserve0 == Ether && p.reserve1 == Ether && p.price0CumulativeLast == 0 && p.price1CumulativeLast == 0;
    cumulative0, cumulative1, stamps := [p.price0CumulativeLast], [p.price1CumulativeLast], [p.blockTimestampLast];
    var synced := p.Sync(mintTime + 10);
    assert p.price0CumulativeLast == 10 * initial.0 && p.price1CumulativeLast == 10 * initial.1;
    cumulative0, cumulative1, stamps := cumulative0 + [p.price0CumulativeLast], cumulative1 + [p.price1CumulativeLast], stamps + [p.blockTimestampLast];
    synced := p.Sync(mintTime + 20);
    assert p.price0CumulativeLast == 20 * initial.0 && p.price1CumulativeLast == 20 * initial.1;
    cumulative0, cumulative1, stamps := cumulative0 + [p.price0CumulativeLast], cumulative1 + [p.price1CumulativeLast], stamps + [p.blockTimestampLast];
    synced := p.Sync(mintTime + 30);
    cumulative0, cumulative1, stamps := cumulative0 + [p.price0CumulativeLast], cumulative1 + [p.price1CumulativeLast], stamps + [p.blockTimestampLast];
  }

  /** The oracle over a mint, three syncs 10 seconds apart, a second unbalanced
      mint at `time4`, and two more syncs: the accumulators stay 0 until the first
      reserves exist, then grow by 10 * price per 10 seconds at the price read
      from the reserves before each update. */
  method CalculatesCumulativePrices(mintTime: nat, time4: nat)
    returns (cumulative0: seq<nat>, cumulative1: seq<nat>, stamps: seq<nat>)
    requires time4 >= mintTime + 30
    ensures var initial := PriceCodec.CurrentPrices(Ether, Ether);
            var later := PriceCodec.CurrentPrices(3 * Ether, 2 * Ether);
            var atSecondMint0 := (30 + (time4 - (mintTime + 30))) * initial.0;
            var atSecondMint1 := (30 + (time4 - (mintTime + 30))) * initial.1;
            && cumulative0 == [0, 10 * initial.0, 20 * initial.0, 30 * initial.0,
                               atSecondMint0, atSecondMint0 + 10 * later.0, atSecondMint0 + 20 * later.0]
            && cumulative1 == [0, 10 * initial.1, 20 * initial.1, 30 * initial.1,
                               atSecondMint1, atSecondMint1 + 10 * later.1, atSecondMint1 + 20 * later.1]
    ensures stamps == [mintTime, mintTime + 10, mintTime + 20, mintTime + 30, time4, time4 + 10, time4 + 20]
  {
    ghost var initial := PriceCodec.CurrentPrices(Ether, Ether);
    ghost var later := PriceCodec.CurrentPrices(3 * Ether, 2 * Ether);
    ghost var atSecondMint0 := (30 + (time4 - (mintTime + 30))) * initial.0;
    ghost var atSecondMint1 := (30 + (time4 - (mintTime + 30))) * initial.1;
    var p;
    p, cumulative0, cumulative1, stamps := MintAndSyncThrice(mintTime);
    PriceCodec.BalancedPriceIsOne(Ether);
    assert initial == (PriceCodec.Q112, PriceCodec.Q112);
    p.Receive(2 * Ether, Ether);
    var minted := p.Mint(Owner, time4);
    assert minted == Ok(Ether);
    assert p.price0CumulativeLast == atSecondMint0 && p.price1CumulativeLast == atSecondMint1;
    assert p.reserve0 == 3 * Ether && p.reserve1 == 2 * Ether && p.held0 == 3 * Ether && p.held1 == 2 * Ether;
    cumulative0, cumulative1, stamps := cumulative0 + [p.price0CumulativeLast], cumulative1 + [p.price1CumulativeLast], stamps + [p.blockTimestampLast];
    var synced := p.Sync(time4 + 10);
    assert p.price0CumulativeLast == atSecondMint0 + 10 * later.0;
    assert p.price1CumulativeLast == atSecondMint1 + 10 * later.1;
    cumulative0, cumulative1, stamps := cumulative0 + [p.price0CumulativeLast], cumulative1 + [p.price1CumulativeLast], stamps + [p.blockTimestampLast];
    synced := p.Sync(time4 + 20);
    cumulative0, cumulative1, stamps := cumulative0 + [p.price0CumulativeLast], cumulative1 + [p.price1CumulativeLast], stamps + [p.blockTimestampLast];
  }
}

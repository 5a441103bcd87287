/** The MinDexV2 pair contract as an object whose methods update its storage
    in place, in the order the contract does: read the balances, compute,
    revert before touching storage, issue or burn shares, pay out, update the
    reserves and the oracle. Each method is proved to do exactly what the
    matching function of PairSpec describes, and to leave everything unchanged
    when it reverts. */
module PairContract {
  import opened Shares
  import opened PairSpec
  import Math
  import PriceCodec

  /** What a caller observes: a return value, or the error the call reverted with. */
  datatype Result<T> = Ok(value: T) | Err(error: Error)

  /** The caller's view of a step of the pair. */
  function Outcome<T>(step: Step<T>): (r: Result<T>)
    ensures r.Ok? <==> step.Done?
    ensures r.Ok? ==> r.value == step.out
    ensures r.Err? ==> r.error == step.error
  {
    if step.Done? then Ok(step.out) else Err(step.error)
  }

  class Pair {
    var token0: Address
    var token1: Address
    /** What the token contracts credit to the pair's address. */
    var held0: nat
    var held1: nat
    var reserve0: nat
    var reserve1: nat
    var blockTimestampLast: nat
    var price0CumulativeLast: nat
    var price1CumulativeLast: nat
    var totalSupply: nat
    var balanceOf: map<Address, nat>

    /** The pair's storage as a value. */
    function State(): PairState
      reads this
    {
      PairState(token0, token1, held0, held1, reserve0, reserve1, blockTimestampLast,
                price0CumulativeLast, price1CumulativeLast, totalSupply, balanceOf)
    }

    ghost predicate Valid()
      reads this
    {
      PairSpec.Valid(State())
    }

    /** Deployment: nothing bound, nothing held, nothing minted. */
    constructor ()
      ensures State() == Deployed() && Valid()
    {
      token0, token1 := Zero, Zero;
      held0, held1 := 0, 0;
      reserve0, reserve1, blockTimestampLast := 0, 0, 0;
      price0CumulativeLast, price1CumulativeLast := 0, 0;
      totalSupply, balanceOf := 0, map[];
    }

    /** initialize(token0, token1): binds the two tokens once. */
    method Initialize(t0: Address, t1: Address) returns (r: Result<()>)
      requires Valid()
      modifies this`token0, this`token1
      ensures Valid()
      ensures r == Outcome(PairSpec.Initialize(old(State()), t0, t1))
      ensures State() == After(PairSpec.Initialize(old(State()), t0, t1), old(State()))
    {
      if token0 != Zero || token1 != Zero {
        return Err(AlreadyInitialized);
      }
      token0, token1 := t0, t1;
      r := Ok(());
    }

    /** A token transfer into the pair's address: the caller's push. */
    method Receive(amount0: nat, amount1: nat)
      requires Valid()
      modifies this`held0, this`held1
      ensures State() == Push(old(State()), amount0, amount1) && Valid()
    {
      held0 := held0 + amount0;
      held1 := held1 + amount1;
    }

    /** mint(): issues shares to the caller for what the pair holds beyond its reserves. */
    method Mint(sender: Account, now: nat) returns (r: Result<nat>)
      requires Valid() && blockTimestampLast <= now
      modifies this
      ensures Valid()
      ensures r == Outcome(PairSpec.Mint(old(State()), sender, now))
      ensures State() == After(PairSpec.Mint(old(State()), sender, now), old(State()))
    {
      ghost var before := State();
      ghost var step := PairSpec.Mint(before, sender, now);
      var amount0 := held0 - reserve0;
      var amount1 := held1 - reserve1;
      var first := totalSupply == 0;
      var liquidity: nat;
      if first {
        var root := Math.FloorSqrt(amount0 * amount1);
        if root <= MinimumLiquidity {
          assert step == Fail(InsufficientInitialLiquidity);
          return Err(InsufficientInitialLiquidity);
        }
        liquidity := root - MinimumLiquidity;
      } else {
        liquidity := LaterLiquidity(amount0, amount1, totalSupply, reserve0, reserve1);
        if liquidity == 0 {
          assert step == Fail(InsufficientLiquidityMinted);
          return Err(InsufficientLiquidityMinted);
        }
      }
      // The reserve update reverts the whole call on overflow, so it is checked
      // before any storage is written.
      if !Fits(held0, held1) {
        assert step == Fail(BalanceOverflow);
        return Err(BalanceOverflow);
      }
      assert step.Done? && step.out == liquidity;
      if first {
        IssueShares(Zero, MinimumLiquidity);
      }
      IssueShares(sender, liquidity);
      assert totalSupply == step.next.totalSupply && balanceOf == step.next.balanceOf;
      UpdateReserves(held0, held1, now);
      r := Ok(liquidity);
    }

    /** burn(): burns the caller's whole share balance and pays out the
        proportional amounts of both tokens. */
    method Burn(sender: Account, now: nat) returns (r: Result<(nat, nat)>)
      requires Valid() && blockTimestampLast <= now
      modifies this
      ensures Valid()
      ensures r == Outcome(PairSpec.Burn(old(State()), sender, now))
      ensures State() == After(PairSpec.Burn(old(State()), sender, now), old(State()))
    {
      var liquidity := BalanceOf(balanceOf, sender);
      TwoBalancesAtMostSum(balanceOf, sender, Zero);
      var amount0 := Payout(liquidity, held0, totalSupply);
      var amount1 := Payout(liquidity, held1, totalSupply);
      if amount0 == 0 || amount1 == 0 {
        return Err(InsufficientLiquidityBurned);
      }
      if !Fits(held0 - amount0, held1 - amount1) {
        return Err(BalanceOverflow);
      }
      RedeemShares(sender, liquidity);
      Send(amount0, amount1);
      UpdateReserves(held0, held1, now);
      r := Ok((amount0, amount1));
    }

    /** swap(amount0Out, amount1Out, to): pays out the requested amounts if the
        product of what remains is no less than the product of the reserves. */
    method Swap(amount0Out: nat, amount1Out: nat, now: nat) returns (r: Result<()>)
      requires Valid() && blockTimestampLast <= now
      modifies this
      ensures Valid()
      ensures r == Outcome(PairSpec.Swap(old(State()), amount0Out, amount1Out, now))
      ensures State() == After(PairSpec.Swap(old(State()), amount0Out, amount1Out, now), old(State()))
    {
      if amount0Out == 0 && amount1Out == 0 {
        return Err(InsufficientOutputAmount);
      }
      if amount0Out >= reserve0 || amount1Out >= reserve1 {
        return Err(InsufficientLiquidity);
      }
      var balance0 := held0 - amount0Out;
      var balance1 := held1 - amount1Out;
      if balance0 * balance1 < reserve0 * reserve1 {
        return Err(InvalidK);
      }
      if !Fits(balance0, balance1) {
        return Err(BalanceOverflow);
      }
      Send(amount0Out, amount1Out);
      UpdateReserves(balance0, balance1, now);
      r := Ok(());
    }

    /** sync(): brings the reserves in line with what the pair holds. */
    method Sync(now: nat) returns (r: Result<()>)
      requires Valid() && blockTimestampLast <= now
      modifies this
      ensures Valid()
      ensures r == Outcome(PairSpec.Sync(old(State()), now))
      ensures State() == After(PairSpec.Sync(old(State()), now), old(State()))
    {
      if !Fits(held0, held1) {
        return Err(BalanceOverflow);
      }
      UpdateReserves(held0, held1, now);
      r := Ok(());
    }

    /** _mint: credits `amount` new shares to `to`. */
    method IssueShares(to: Address, amount: nat)
      modifies this`balanceOf, this`totalSupply
      ensures balanceOf == Issue(old(balanceOf), to, amount)
      ensures totalSupply == old(totalSupply) + amount
    {
      balanceOf := Issue(balanceOf, to, amount);
      totalSupply := totalSupply + amount;
    }

    /** _burn: removes `amount` of `from`'s shares. */
    method RedeemShares(from: Address, amount: nat)
      requires amount <= BalanceOf(balanceOf, from) && amount <= totalSupply
      modifies this`balanceOf, this`totalSupply
      ensures balanceOf == Redeem(old(balanceOf), from, amount)
      ensures totalSupply == old(totalSupply) - amount
    {
      balanceOf := Redeem(balanceOf, from, amount);
      totalSupply := totalSupply - amount;
    }

    /** The token contracts paying out of the pair's address. */
    method Send(amount0: nat, amount1: nat)
      requires amount0 <= held0 && amount1 <= held1
      modifies this`held0, this`held1
      ensures held0 == old(held0) - amount0 && held1 == old(held1) - amount1
    {
      held0 := held0 - amount0;
      held1 := held1 - amount1;
    }

    /** _update: advances both accumulators by the elapsed time times the price
        at the current reserves (while both are non-empty), then stores the new
        reserves and the time. */
    method UpdateReserves(balance0: nat, balance1: nat, now: nat)
      requires blockTimestampLast <= now
      modifies this`reserve0, this`reserve1, this`blockTimestampLast,
               this`price0CumulativeLast, this`price1CumulativeLast
      ensures State() == Update(old(State()), balance0, balance1, now)
    {
      var elapsed := now - blockTimestampLast;
      if elapsed > 0 && reserve0 > 0 && reserve1 > 0 {
        price0CumulativeLast := price0CumulativeLast + PriceCodec.Price(reserve1, reserve0) * elapsed;
        price1CumulativeLast := price1CumulativeLast + PriceCodec.Price(reserve0, reserve1) * elapsed;
      }
      reserve0, reserve1 := balance0, balance1;
      blockTimestampLast := now;
    }
  }
}

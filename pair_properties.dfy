/** What the pair promises, stated over the transition functions of PairSpec:
    how mint sizes shares, how burn pays out, when a swap goes through, how the
    price accumulators move, and what no sequence of calls can break. */
module PairProperties {
  import opened Shares
  import opened PairSpec
  import Math
  import PriceCodec

  /** Every share outside the null address belongs to a holder: once minted,
      the total supply is the holders' balances plus the locked minimum. */
  lemma SupplyIsHoldersPlusLocked(s: PairState)
    requires Valid(s) && s.totalSupply > 0
    ensures s.totalSupply == Sum(s.balanceOf - {Zero}) + MinimumLiquidity
  {
    SumRemove(s.balanceOf, Zero);
  }

  /** The first mint grants floor(sqrt(amount0 * amount1)) - 1000 to the caller,
      locks 1000 at the null address, sets the supply to the square root and the
      reserves to what the pair holds; it reverts when the root is not above the
      locked minimum. */
  lemma FirstMint(s: PairState, sender: Account, now: nat)
    requires Valid(s) && s.blockTimestampLast <= now && s.totalSupply == 0
    ensures var root := Math.FloorSqrt((s.held0 - s.reserve0) * (s.held1 - s.reserve1));
            var r := Mint(s, sender, now);
            && (r.Done? <==> root > MinimumLiquidity && Fits(s.held0, s.held1))
            && (root <= MinimumLiquidity ==> r == Fail(InsufficientInitialLiquidity))
            && (r.Done? ==>
                  && r.out == root - MinimumLiquidity
                  && r.next.totalSupply == root
                  && BalanceOf(r.next.balanceOf, sender) == root - MinimumLiquidity
                  && BalanceOf(r.next.balanceOf, Zero) == MinimumLiquidity
                  && r.next.reserve0 == s.held0 && r.next.reserve1 == s.held1
                  && r.next.blockTimestampLast == now)
  {
    var root := Math.FloorSqrt((s.held0 - s.reserve0) * (s.held1 - s.reserve1));
    if root > MinimumLiquidity && Fits(s.held0, s.held1) {
      FirstMintCredits(s, sender, now, root);
    } else {
      FirstMintRefuses(s, sender, now, root);
    }
  }

  /** The reverting half of FirstMint: a root not above the locked minimum
      comes first, an overflowing balance second. */
  lemma FirstMintRefuses(s: PairState, sender: Account, now: nat, root: nat)
    requires Valid(s) && s.blockTimestampLast <= now && s.totalSupply == 0
    requires root == Math.FloorSqrt((s.held0 - s.reserve0) * (s.held1 - s.reserve1))
    requires root <= MinimumLiquidity || !Fits(s.held0, s.held1)
    ensures Mint(s, sender, now)
            == if root <= MinimumLiquidity then Fail(InsufficientInitialLiquidity) else Fail(BalanceOverflow)
  {
  }

  /** The committing half of FirstMint: who is credited what. */
  lemma FirstMintCredits(s: PairState, sender: Account, now: nat, root: nat)
    requires Valid(s) && s.blockTimestampLast <= now && s.totalSupply == 0
    requires root == Math.FloorSqrt((s.held0 - s.reserve0) * (s.held1 - s.reserve1))
    requires root > MinimumLiquidity && Fits(s.held0, s.held1)
    ensures var r := Mint(s, sender, now);
            && r.Done?
            && r.out == root - MinimumLiquidity
            && r.next.totalSupply == root
            && BalanceOf(r.next.balanceOf, sender) == root - MinimumLiquidity
            && BalanceOf(r.next.balanceOf, Zero) == MinimumLiquidity
            && r.next.reserve0 == s.held0 && r.next.reserve1 == s.held1
            && r.next.held0 == s.held0 && r.next.held1 == s.held1
            && r.next.blockTimestampLast == now
  {
    var r := Mint(s, sender, now);
    var locked := Issue(s.balanceOf, Zero, MinimumLiquidity);
    var ledger := Issue(locked, sender, root - MinimumLiquidity);
    var minted := s.(totalSupply := root, balanceOf := ledger);
    assert r == Done(root - MinimumLiquidity, Update(minted, s.held0, s.held1, now));
    assert r.next.balanceOf == ledger;
    assert BalanceOf(s.balanceOf, sender) == 0 by {
      BalanceAtMostSum(s.balanceOf, sender);
    }
    assert BalanceOf(locked, sender) == 0;
  }

  /** A later mint grants min(amount0 * supply / reserve0, amount1 * supply / reserve1):
      the surplus of the richer token stays in the reserves unpaid, the caller's
      claim is never a larger fraction of the pool than either deposit is of its
      reserve, and every other holder keeps their balance. */
  lemma LaterMint(s: PairState, sender: Account, now: nat)
    requires Valid(s) && s.blockTimestampLast <= now && s.totalSupply > 0
    ensures var amount0, amount1 := s.held0 - s.reserve0, s.held1 - s.reserve1;
            var granted := Math.Min(amount0 * s.totalSupply / s.reserve0, amount1 * s.totalSupply / s.reserve1);
            var r := Mint(s, sender, now);
            && (r.Done? <==> granted > 0 && Fits(s.held0, s.held1))
            && (granted == 0 ==> r == Fail(InsufficientLiquidityMinted))
            && (r.Done? ==>
                  && r.out == granted
                  && r.out * s.reserve0 <= amount0 * s.totalSupply
                  && r.out * s.reserve1 <= amount1 * s.totalSupply
                  && r.next.totalSupply == s.totalSupply + granted
                  && BalanceOf(r.next.balanceOf, sender) == BalanceOf(s.balanceOf, sender) + granted
                  && (forall b :: b != sender ==> BalanceOf(r.next.balanceOf, b) == BalanceOf(s.balanceOf, b))
                  && r.next.reserve0 == s.held0 && r.next.reserve1 == s.held1)
  {
    var amount0, amount1 := s.held0 - s.reserve0, s.held1 - s.reserve1;
    var l := LaterLiquidity(amount0, amount1, s.totalSupply, s.reserve0, s.reserve1);
    assert l == Math.Min(amount0 * s.totalSupply / s.reserve0, amount1 * s.totalSupply / s.reserve1);
  }

  /** burn() takes the caller's whole balance `l` and pays floor(l * held / supply)
      of each token; the supply drops by `l`, the caller is left with nothing,
      every other holder (the locked minimum included) keeps their balance, and
      the reserves become what the pair still holds. It reverts with
      InsufficientLiquidityBurned when either payout rounds to zero. */
  lemma BurnPaysProportionally(s: PairState, sender: Account, now: nat)
    requires Valid(s) && s.blockTimestampLast <= now
    ensures var l := BalanceOf(s.balanceOf, sender);
            var r := Burn(s, sender, now);
            && (l == 0 ==> r == Fail(InsufficientLiquidityBurned))
            && (r.Done? ==>
                  && s.totalSupply > 0
                  && r.out.0 == l * s.held0 / s.totalSupply
                  && r.out.1 == l * s.held1 / s.totalSupply
                  && BalanceOf(r.next.balanceOf, sender) == 0
                  && (forall b :: b != sender ==> BalanceOf(r.next.balanceOf, b) == BalanceOf(s.balanceOf, b))
                  && r.next.totalSupply == s.totalSupply - l >= MinimumLiquidity
                  && r.next.held0 == s.held0 - r.out.0 && r.next.held1 == s.held1 - r.out.1
                  && r.next.reserve0 == r.next.held0 > 0 && r.next.reserve1 == r.next.held1 > 0)
            && (s.totalSupply > 0 ==>
                  (r.Done? <==> l * s.held0 / s.totalSupply > 0 && l * s.held1 / s.totalSupply > 0
                                && Fits(s.held0 - l * s.held0 / s.totalSupply, s.held1 - l * s.held1 / s.totalSupply)))
  {
    TwoBalancesAtMostSum(s.balanceOf, sender, Zero);
  }

  /** No free liquidity, under two conditions: no donation is pending (the
      reserves are in step with the holdings) and none was synced into an
      unminted pair (an empty supply means empty reserves). Then depositing,
      minting and immediately burning everything minted never pays back more of
      either token than was deposited. Without either condition the next minter
      collects the donation: see DonationSyncedGoesToNextMinter and
      DonationPendingGoesToNextMinter. */
  lemma MintThenBurnNoProfit(s: PairState, who: Account, deposit0: nat, deposit1: nat, t1: nat, t2: nat)
    requires Valid(s) && s.blockTimestampLast <= t1 <= t2
    requires s.held0 == s.reserve0 && s.held1 == s.reserve1
    requires s.totalSupply == 0 ==> s.reserve0 == 0 && s.reserve1 == 0
    requires BalanceOf(s.balanceOf, who) == 0
    ensures var minted := Mint(Push(s, deposit0, deposit1), who, t1);
            minted.Done? ==>
              var burned := Burn(minted.next, who, t2);
              burned.Done? ==> burned.out.0 <= deposit0 && burned.out.1 <= deposit1
  {
    var pushed := Push(s, deposit0, deposit1);
    var minted := Mint(pushed, who, t1);
    if minted.Done? {
      var mid := minted.next;
      var l := minted.out;
      assert BalanceOf(mid.balanceOf, who) == l by {
        if s.totalSupply == 0 { FirstMint(pushed, who, t1); } else { LaterMint(pushed, who, t1); }
      }
      BurnPaysProportionally(mid, who, t2);
      var burned := Burn(mid, who, t2);
      if burned.Done? {
        if s.totalSupply == 0 {
          FirstMint(pushed, who, t1);
          // The pair held exactly the deposit, and the caller owns all but 1000 of the supply.
          BoundedPayout(l, deposit0, mid.totalSupply, deposit0);
          BoundedPayout(l, deposit1, mid.totalSupply, deposit1);
        } else {
          LaterMint(pushed, who, t1);
          ProportionalPayout(l, s.reserve0, deposit0, s.totalSupply);
          ProportionalPayout(l, s.reserve1, deposit1, s.totalSupply);
        }
      }
    }
  }

  /** A donation synced into a pair before anything was minted belongs to the
      first minter: after `d` of each token is pushed and synced, a deposit of
      another `d` of each mints `d - 1000` shares that burn for `2d - 2000` of
      each token, more than the deposit whenever `d > 2000`. */
  lemma DonationSyncedGoesToNextMinter(d: nat, who: Account, t1: nat, t2: nat, t3: nat)
    requires MinimumLiquidity < d && 2 * d <= MaxReserve && t1 <= t2 <= t3
    ensures var synced := Sync(Push(Deployed(), d, d), t1);
            && synced.Done?
            && var minted := Mint(Push(synced.next, d, d), who, t2);
            && minted.Done? && minted.out == d - MinimumLiquidity
            && var burned := Burn(minted.next, who, t3);
            && burned.Done? && burned.out == (2 * d - 2 * MinimumLiquidity, 2 * d - 2 * MinimumLiquidity)
            && (d > 2 * MinimumLiquidity ==> burned.out.0 > d && burned.out.1 > d)
  {
    SyncDonation(d, t1);
    var pushed := Push(Sync(Push(Deployed(), d, d), t1).next, d, d);
    assert Valid(pushed) && pushed.blockTimestampLast == t1;
    assert pushed.totalSupply == 0 && pushed.reserve0 == d && pushed.held0 == 2 * d;
    assert pushed.reserve1 == d && pushed.held1 == 2 * d;
    MintOnEmptySupply(pushed, who, t2, d);
    var mid := Mint(pushed, who, t2).next;
    var l := d - MinimumLiquidity;
    var q := 2 * l;
    Twice(l, d);
    BurnAllPays(mid, who, t3, l, 2 * d, q);
  }

  /** Syncing a donation of `d` of each token into a fresh pair moves it into
      the reserves while no share exists. */
  lemma SyncDonation(d: nat, now: nat)
    requires d <= MaxReserve
    ensures var synced := Sync(Push(Deployed(), d, d), now);
            && synced.Done? && Valid(synced.next)
            && synced.next.totalSupply == 0 && synced.next.blockTimestampLast == now
            && synced.next.reserve0 == d && synced.next.reserve1 == d
            && synced.next.held0 == d && synced.next.held1 == d
  {
    var donated := Push(Deployed(), d, d);
    assert Sync(donated, now) == Done((), Update(donated, d, d, now));
  }

  /** A donation pushed into an unminted pair and left pending also belongs to
      the next minter: after `x` of each token is pushed, a deposit of `d` of
      each mints `x + d - 1000` shares that burn for `x + d - 1000` of each
      token, more than the deposit whenever `x > 1000`. */
  lemma DonationPendingGoesToNextMinter(x: nat, d: nat, who: Account, t1: nat, t2: nat)
    requires MinimumLiquidity < x && x + d <= MaxReserve && t1 <= t2
    ensures var minted := Mint(Push(Push(Deployed(), x, x), d, d), who, t1);
            && minted.Done? && minted.out == x + d - MinimumLiquidity
            && var burned := Burn(minted.next, who, t2);
            && burned.Done? && burned.out == (x + d - MinimumLiquidity, x + d - MinimumLiquidity)
            && burned.out.0 > d && burned.out.1 > d
  {
    var pushed := Push(Push(Deployed(), x, x), d, d);
    assert Valid(pushed);
    assert pushed.totalSupply == 0 && pushed.reserve0 == 0 && pushed.reserve1 == 0;
    assert pushed.held0 == x + d && pushed.held1 == x + d;
    var n := x + d;
    MintOnEmptySupply(pushed, who, t1, n);
    var mid := Mint(pushed, who, t1).next;
    var l := n - MinimumLiquidity;
    BurnAllPays(mid, who, t2, l, n, l);
  }

  /** A first mint whose two deposits are both `n` grants `n - 1000` shares,
      making a supply of `n` with all of both holdings in the reserves. */
  lemma MintOnEmptySupply(s: PairState, who: Account, now: nat, n: nat)
    requires Valid(s) && s.blockTimestampLast <= now && s.totalSupply == 0
    requires s.held0 - s.reserve0 == n && s.held1 - s.reserve1 == n
    requires n > MinimumLiquidity && Fits(s.held0, s.held1)
    ensures var r := Mint(s, who, now);
            && r.Done? && r.out == n - MinimumLiquidity
            && r.next.totalSupply == n && BalanceOf(r.next.balanceOf, who) == n - MinimumLiquidity
            && r.next.held0 == s.held0 && r.next.held1 == s.held1
            && Valid(r.next) && r.next.blockTimestampLast <= now
  {
    Math.FloorSqrtUnique(n * n, n);
    FirstMintCredits(s, who, now, n);
  }

  /** Burning a holding `l` of a supply `n` on a pair holding `b` of each token
      pays `q = l * b / n` of each. */
  lemma BurnAllPays(s: PairState, who: Account, now: nat, l: nat, b: nat, q: nat)
    requires Valid(s) && s.blockTimestampLast <= now
    requires s.totalSupply > 0 && BalanceOf(s.balanceOf, who) == l
    requires s.held0 == b && s.held1 == b && Fits(b, b)
    requires l * b == q * s.totalSupply && q > 0
    ensures var r := Burn(s, who, now);
            r.Done? && r.out == (q, q)
  {
    Math.DivUnique(l * b, s.totalSupply, q);
    BurnPaysProportionally(s, who, now);
    TwoBalancesAtMostSum(s.balanceOf, who, Zero);
    assert q <= b;
  }

  /** A share `l` of a supply `S` is paid at most `b` out of a balance `b`. */
  lemma BoundedPayout(l: nat, b: nat, S: nat, deposit: nat)
    requires l <= S && S > 0 && b == deposit
    ensures l * b / S <= deposit
  {
    Math.FractionBelow(l, b, S);
  }

  /** Minting `l <= deposit * S / reserve` shares into supply `S` and burning them
      again returns at most the deposit: l * (reserve + deposit) / (S + l) <= deposit. */
  lemma ProportionalPayout(l: nat, reserve: nat, deposit: nat, S: nat)
    requires S > 0 && l * reserve <= deposit * S
    ensures l * (reserve + deposit) / (S + l) <= deposit
  {
    var n := l * (reserve + deposit);
    assert n == l * reserve + l * deposit;
    assert deposit * (S + l) == deposit * S + deposit * l;
    assert n <= deposit * (S + l);
    Math.DivMonotone(n, deposit * (S + l), S + l);
    assert deposit * (S + l) / (S + l) == deposit by {
      Math.DivUnique(deposit * (S + l), S + l, deposit);
    }
  }

  /** When swap goes through and why it reverts: both outputs zero is
      InsufficientOutputAmount, an output not below its reserve is
      InsufficientLiquidity, and otherwise it commits exactly when what the pair
      is left holding has a product no less than that of the reserves, in which
      case the reserves become those holdings and no share changes hands. */
  lemma SwapOutcome(s: PairState, amount0Out: nat, amount1Out: nat, now: nat)
    requires Valid(s) && s.blockTimestampLast <= now
    ensures var r := Swap(s, amount0Out, amount1Out, now);
            && (amount0Out == 0 && amount1Out == 0 ==> r == Fail(InsufficientOutputAmount))
            && (((amount0Out > 0 || amount1Out > 0) && (amount0Out >= s.reserve0 || amount1Out >= s.reserve1))
                  ==> r == Fail(InsufficientLiquidity))
            && ((amount0Out > 0 || amount1Out > 0) && amount0Out < s.reserve0 && amount1Out < s.reserve1 ==>
                  ((r == Fail(InvalidK))
                     <==> (s.held0 - amount0Out) * (s.held1 - amount1Out) < s.reserve0 * s.reserve1))
            && (r.Done? <==>
                  && (amount0Out > 0 || amount1Out > 0)
                  && amount0Out < s.reserve0 && amount1Out < s.reserve1
                  && (s.held0 - amount0Out) * (s.held1 - amount1Out) >= s.reserve0 * s.reserve1
                  && Fits(s.held0 - amount0Out, s.held1 - amount1Out))
            && (r.Done? ==>
                  && r.next.held0 == s.held0 - amount0Out && r.next.held1 == s.held1 - amount1Out
                  && r.next.reserve0 == r.next.held0 && r.next.reserve1 == r.next.held1
                  && r.next.totalSupply == s.totalSupply && r.next.balanceOf == s.balanceOf)
  {
  }

  /** Each sync adds `elapsed * price` at the reserves it starts from, moves the
      timestamp to `now` and the reserves to what the pair holds; while either
      reserve is empty the accumulators do not move. */
  lemma SyncAccumulates(s: PairState, now: nat)
    requires Valid(s) && s.blockTimestampLast <= now
    ensures var r := Sync(s, now);
            && (r.Done? <==> Fits(s.held0, s.held1))
            && (r.Done? ==>
                  && r.next.price0CumulativeLast == s.price0CumulativeLast
                       + (now - s.blockTimestampLast) * PriceCodec.CurrentPrices(s.reserve0, s.reserve1).0
                  && r.next.price1CumulativeLast == s.price1CumulativeLast
                       + (now - s.blockTimestampLast) * PriceCodec.CurrentPrices(s.reserve0, s.reserve1).1
                  && r.next.blockTimestampLast == now
                  && r.next.reserve0 == s.held0 && r.next.reserve1 == s.held1
                  && (s.reserve0 == 0 || s.reserve1 == 0 ==>
                        r.next.price0CumulativeLast == s.price0CumulativeLast
                        && r.next.price1CumulativeLast == s.price1CumulativeLast))
  {
  }

  /** Timestamps that never go backwards, starting from `start`. */
  predicate Chronological(start: nat, times: seq<nat>)
  {
    && (|times| > 0 ==> start <= times[0])
    && forall i, j :: 0 <= i < j < |times| ==> times[i] <= times[j]
  }

  /** sync() called once at each of `times`, in order, stopping at the first revert. */
  function SyncEach(s: PairState, times: seq<nat>): (r: Step<()>)
    requires Valid(s) && Chronological(s.blockTimestampLast, times)
    ensures r.Done? ==> Valid(r.next)
    decreases |times|
  {
    if times == [] then Done((), s)
    else
      var first := Sync(s, times[0]);
      if first.Fail? then first
      else
        SyncEach(first.next, times[1..])
  }

  /** Oracle linearity: while the reserves stay constant, any sequence of syncs
      leaves both accumulators advanced by exactly (last time - start) * price. */
  lemma {:induction false} SyncsGrowLinearly(s: PairState, times: seq<nat>)
    requires Valid(s) && Chronological(s.blockTimestampLast, times) && |times| > 0
    requires s.held0 == s.reserve0 && s.held1 == s.reserve1
    ensures var r := SyncEach(s, times);
            && r.Done?
            && r.next.reserve0 == s.reserve0 && r.next.reserve1 == s.reserve1
            && r.next.blockTimestampLast == times[|times| - 1]
            && r.next.price0CumulativeLast == s.price0CumulativeLast
                 + (times[|times| - 1] - s.blockTimestampLast) * PriceCodec.Price(s.reserve1, s.reserve0)
            && r.next.price1CumulativeLast == s.price1CumulativeLast
                 + (times[|times| - 1] - s.blockTimestampLast) * PriceCodec.Price(s.reserve0, s.reserve1)
    decreases |times|
  {
    var first := Sync(s, times[0]);
    assert first.Done?;
    var mid := first.next;
    var p0, p1 := PriceCodec.Price(s.reserve1, s.reserve0), PriceCodec.Price(s.reserve0, s.reserve1);
    var e1 := times[0] - s.blockTimestampLast;
    assert mid.reserve0 == s.reserve0 && mid.reserve1 == s.reserve1;
    assert mid.held0 == mid.reserve0 && mid.held1 == mid.reserve1;
    assert mid.price0CumulativeLast == s.price0CumulativeLast + e1 * p0;
    assert mid.price1CumulativeLast == s.price1CumulativeLast + e1 * p1;
    if |times| > 1 {
      var rest := times[1..];
      assert SyncEach(s, times) == SyncEach(mid, rest);
      assert Chronological(mid.blockTimestampLast, rest);
      SyncsGrowLinearly(mid, rest);
      var last := times[|times| - 1];
      assert rest[|rest| - 1] == last;
      var e2 := last - times[0];
      assert e1 + e2 == last - s.blockTimestampLast;
      Distribute(e1, e2, p0);
      Distribute(e1, e2, p1);
    }
  }

  lemma Twice(a: nat, b: nat)
    ensures a * (2 * b) == (2 * a) * b
  {
  }

  lemma Distribute(a: nat, b: nat, c: nat)
    ensures a * c + b * c == (a + b) * c
  {
  }

  /** The token addresses are bound once: a second initialize reverts, and no
      other operation ever changes them. */
  lemma TokensBoundOnce(s: PairState, token0: Address, token1: Address, sender: Account,
                        amount0Out: nat, amount1Out: nat, now: nat)
    requires token0 != Zero
    requires Valid(s) && s.blockTimestampLast <= now
    ensures var bound := Initialize(s, token0, token1);
            bound.Done? ==> Initialize(bound.next, token0, token1) == Fail(AlreadyInitialized)
    ensures var m := Mint(s, sender, now); m.Done? ==> m.next.token0 == s.token0 && m.next.token1 == s.token1
    ensures var b := Burn(s, sender, now); b.Done? ==> b.next.token0 == s.token0 && b.next.token1 == s.token1
    ensures var w := Swap(s, amount0Out, amount1Out, now);
            w.Done? ==> w.next.token0 == s.token0 && w.next.token1 == s.token1
    ensures var y := Sync(s, now); y.Done? ==> y.next.token0 == s.token0 && y.next.token1 == s.token1
  {
  }
}

/**
 * The balances that the adapter sanity tests watch, as a ledger: ERC20
 * balances per (token, holder) and native (gas token) balances per account.
 * The adapter takes the input of a swap from what its deposit address already
 * holds, pays it to the pool and has the pool pay the output to the
 * recipient; its owner may rescue tokens and gas left on it. The pool's
 * pricing is not modelled: a swap's output amount is a parameter.
 */
module AdapterLedger {
  import opened Results
  import opened Abi

  /** Why a transaction reverts: an owner-only call by someone else, or a balance that is too small. */
  datatype Revert = NotOwner | InsufficientBalance

  /** A balance: zero for a holder with no entry. */
  function Get<K>(m: map<K, nat>, k: K): nat
  {
    if k in m then m[k] else 0
  }

  /** The signed change that moving `amount` from `from` to `to` makes to the balance of `k`. */
  function Shift<K(==)>(k: K, from: K, to: K, amount: nat): int
  {
    (if k == to then amount else 0) - (if k == from then amount else 0)
  }

  /**
   * Moves `amount` from `from` to `to`, reverting when `from` holds less.
   * Every balance changes by exactly its shift.
   */
  function Move<K(!new)>(m: map<K, nat>, from: K, to: K, amount: nat): (r: Result<map<K, nat>, Revert>)
    ensures r.Ok? <==> amount <= Get(m, from)
    ensures r.Err? ==> r.error == InsufficientBalance
    ensures r.Ok? ==> forall k :: Get(r.value, k) == Get(m, k) + Shift(k, from, to, amount)
  {
    if Get(m, from) < amount then Err(InsufficientBalance)
    else
      var debited := m[from := Get(m, from) - amount];
      Ok(debited[to := Get(debited, to) + amount])
  }

  /** Moving an amount back undoes the move: every balance is as before. */
  lemma MoveBack<K(!new)>(m: map<K, nat>, from: K, to: K, amount: nat)
    requires Move(m, from, to, amount).Ok?
    ensures Move(Move(m, from, to, amount).value, to, from, amount).Ok?
    ensures forall k :: Get(Move(Move(m, from, to, amount).value, to, from, amount).value, k) == Get(m, k)
  {
    var moved := Move(m, from, to, amount).value;
    assert Get(moved, to) == Get(m, to) + Shift(to, from, to, amount);
  }

  /** The adapter contract: its own address (its deposit address), its owner and its pool. */
  datatype Adapter = Adapter(self: Address, owner: Address, pool: Address)

  /** What the chain holds: ERC20 balances keyed (token, holder) and native balances. */
  datatype State = State(tokens: map<(Address, Address), nat>, gas: map<Address, nat>)
  {
    function Balance(token: Address, holder: Address): nat
    {
      Get(tokens, (token, holder))
    }

    function GasBalance(holder: Address): nat
    {
      Get(gas, holder)
    }

    /** ERC20 `transfer` by `from`. */
    function Transfer(token: Address, from: Address, to: Address, amount: nat): (r: Result<State, Revert>)
      ensures r.Ok? <==> amount <= Balance(token, from)
      ensures r.Err? ==> r.error == InsufficientBalance
      ensures r.Ok? ==> r.value.gas == gas
      ensures r.Ok? ==> forall t, h :: r.value.Balance(t, h) == Balance(t, h) + Shift((t, h), (token, from), (token, to), amount)
    {
      match Move(tokens, (token, from), (token, to), amount)
      case Err(e) => Err(e)
      case Ok(moved) => Ok(State(moved, gas))
    }

    /**
     * The adapter's `swap`, which anyone may call: `amountIn` of `tokenIn`
     * leaves the adapter for the pool, then `amountOut` of `tokenOut` leaves
     * the pool for `to`. A short input reverts before the pool is asked.
     */
    function Swap(a: Adapter, amountIn: nat, tokenIn: Address, tokenOut: Address, to: Address, amountOut: nat): (r: Result<State, Revert>)
      ensures amountIn > Balance(tokenIn, a.self) ==> r == Err(InsufficientBalance)
      ensures r.Ok? <==>
              && amountIn <= Balance(tokenIn, a.self)
              && amountOut <= Balance(tokenOut, a.pool) + Shift((tokenOut, a.pool), (tokenIn, a.self), (tokenIn, a.pool), amountIn)
      ensures r.Ok? ==> r.value.gas == gas
      ensures r.Ok? ==> forall t, h ::
                r.value.Balance(t, h) ==
                Balance(t, h) + Shift((t, h), (tokenIn, a.self), (tokenIn, a.pool), amountIn)
                              + Shift((t, h), (tokenOut, a.pool), (tokenOut, to), amountOut)
    {
      match Move(tokens, (tokenIn, a.self), (tokenIn, a.pool), amountIn)
      case Err(e) => Err(e)
      case Ok(paid) =>
        match Move(paid, (tokenOut, a.pool), (tokenOut, to), amountOut)
        case Err(e) => Err(e)
        case Ok(received) => Ok(State(received, gas))
    }

    /** The owner-only `recoverERC20`: `amount` of `token` goes from the adapter to its owner. */
    function RecoverERC20(a: Adapter, caller: Address, token: Address, amount: nat): (r: Result<State, Revert>)
      ensures r == Err(NotOwner) <==> caller != a.owner
      ensures r.Ok? <==> caller == a.owner && amount <= Balance(token, a.self)
      ensures r.Ok? ==> r.value.gas == gas
      ensures r.Ok? ==> forall t, h :: r.value.Balance(t, h) == Balance(t, h) + Shift((t, h), (token, a.self), (token, a.owner), amount)
    {
      if caller != a.owner then Err(NotOwner)
      else
        match Move(tokens, (token, a.self), (token, a.owner), amount)
        case Err(e) => Err(e)
        case Ok(moved) => Ok(State(moved, gas))
    }

    /** A native-token payment from `from` to `to` (transaction fees are not modelled). */
    function SendGas(from: Address, to: Address, amount: nat): (r: Result<State, Revert>)
      ensures r.Ok? <==> amount <= GasBalance(from)
      ensures r.Err? ==> r.error == InsufficientBalance
      ensures r.Ok? ==> r.value.tokens == tokens
      ensures r.Ok? ==> forall h :: r.value.GasBalance(h) == GasBalance(h) + Shift(h, from, to, amount)
    {
      match Move(gas, from, to, amount)
      case Err(e) => Err(e)
      case Ok(moved) => Ok(State(tokens, moved))
    }

    /** The owner-only `recoverGAS`: `amount` of the native token goes from the adapter to its owner. */
    function RecoverGAS(a: Adapter, caller: Address, amount: nat): (r: Result<State, Revert>)
      ensures r == Err(NotOwner) <==> caller != a.owner
      ensures r.Ok? <==> caller == a.owner && amount <= GasBalance(a.self)
      ensures r.Ok? ==> r.value.tokens == tokens
      ensures r.Ok? ==> forall h :: r.value.GasBalance(h) == GasBalance(h) + Shift(h, a.self, a.owner, amount)
    {
      if caller != a.owner then Err(NotOwner)
      else
        match Move(gas, a.self, a.owner, amount)
        case Err(e) => Err(e)
        case Ok(moved) => Ok(State(tokens, moved))
    }
  }

  /** A transaction's effect: the new state, or the revert that leaves the old one. */
  function Applied(r: Outcome<Revert>, s: State): Result<State, Revert>
  {
    if r.Pass? then Ok(s) else Err(r.error)
  }

  /** The chain's balances, which every transaction updates in place or leaves alone when it reverts. */
  class Ledger {
    var tokens: map<(Address, Address), nat>
    var gas: map<Address, nat>

    constructor (initialTokens: map<(Address, Address), nat>, initialGas: map<Address, nat>)
      ensures tokens == initialTokens && gas == initialGas
    {
      tokens := initialTokens;
      gas := initialGas;
    }

    function Snapshot(): State
      reads this
    {
      State(tokens, gas)
    }

    method Transfer(token: Address, from: Address, to: Address, amount: nat) returns (r: Outcome<Revert>)
      modifies this
      ensures Applied(r, Snapshot()) == old(Snapshot()).Transfer(token, from, to, amount)
      ensures r.Fail? ==> Snapshot() == old(Snapshot())
    {
      var held := Get(tokens, (token, from));
      if held < amount {
        return Fail(InsufficientBalance);
      }
      tokens := tokens[(token, from) := held - amount];
      tokens := tokens[(token, to) := Get(tokens, (token, to)) + amount];
      return Pass;
    }

    method Swap(a: Adapter, amountIn: nat, tokenIn: Address, tokenOut: Address, to: Address, amountOut: nat)
      returns (r: Outcome<Revert>)
      modifies this
      ensures Applied(r, Snapshot()) == old(Snapshot()).Swap(a, amountIn, tokenIn, tokenOut, to, amountOut)
      ensures r.Fail? ==> Snapshot() == old(Snapshot())
    {
      var deposited := Get(tokens, (tokenIn, a.self));
      if deposited < amountIn {
        return Fail(InsufficientBalance);
      }
      var paid := tokens[(tokenIn, a.self) := deposited - amountIn];
      paid := paid[(tokenIn, a.pool) := Get(paid, (tokenIn, a.pool)) + amountIn];
      assert Move(tokens, (tokenIn, a.self), (tokenIn, a.pool), amountIn) == Ok(paid);
      var liquidity := Get(paid, (tokenOut, a.pool));
      if liquidity < amountOut {
        return Fail(InsufficientBalance);
      }
      var received := paid[(tokenOut, a.pool) := liquidity - amountOut];
      received := received[(tokenOut, to) := Get(received, (tokenOut, to)) + amountOut];
      assert Move(paid, (tokenOut, a.pool), (tokenOut, to), amountOut) == Ok(received);
      tokens := received;
      return Pass;
    }

    method RecoverERC20(a: Adapter, caller: Address, token: Address, amount: nat) returns (r: Outcome<Revert>)
      modifies this
      ensures Applied(r, Snapshot()) == old(Snapshot()).RecoverERC20(a, caller, token, amount)
      ensures r.Fail? ==> Snapshot() == old(Snapshot())
    {
      if caller != a.owner {
        return Fail(NotOwner);
      }
      var held := Get(tokens, (token, a.self));
      if held < amount {
        return Fail(InsufficientBalance);
      }
      tokens := tokens[(token, a.self) := held - amount];
      tokens := tokens[(token, a.owner) := Get(tokens, (token, a.owner)) + amount];
      return Pass;
    }

    method SendGas(from: Address, to: Address, amount: nat) returns (r: Outcome<Revert>)
      modifies this
      ensures Applied(r, Snapshot()) == old(Snapshot()).SendGas(from, to, amount)
      ensures r.Fail? ==> Snapshot() == old(Snapshot())
    {
      var held := Get(gas, from);
      if held < amount {
        return Fail(InsufficientBalance);
      }
      gas := gas[from := held - amount];
      gas := gas[to := Get(gas, to) + amount];
      return Pass;
    }

    method RecoverGAS(a: Adapter, caller: Address, amount: nat) returns (r: Outcome<Revert>)
      modifies this
      ensures Applied(r, Snapshot()) == old(Snapshot()).RecoverGAS(a, caller, amount)
      ensures r.Fail? ==> Snapshot() == old(Snapshot())
    {
      if caller != a.owner {
        return Fail(NotOwner);
      }
      var held := Get(gas, a.self);
      if held < amount {
        return Fail(InsufficientBalance);
      }
      gas := gas[a.self := held - amount];
      gas := gas[a.owner := Get(gas, a.owner) + amount];
      return Pass;
    }
  }

  /**
   * "Swap fails if transfer amount is too little": with nothing deposited
   * before, sending one unit less than `amount` to the adapter makes a swap
   * of `amount` revert, whoever sent it and whatever the pool would pay.
   */
  lemma SwapFailsIfTransferTooLittle(s: State, a: Adapter, sender: Address, amount: nat,
                                     tokenIn: Address, tokenOut: Address, to: Address, amountOut: nat)
    requires 1 <= amount
    requires s.Balance(tokenIn, a.self) == 0
    requires s.Transfer(tokenIn, sender, a.self, amount - 1).Ok?
    ensures s.Transfer(tokenIn, sender, a.self, amount - 1).value.Balance(tokenIn, a.self) == amount - 1
    ensures s.Transfer(tokenIn, sender, a.self, amount - 1).value.Swap(a, amount, tokenIn, tokenOut, to, amountOut)
            == Err(InsufficientBalance)
  {
    var deposited := s.Transfer(tokenIn, sender, a.self, amount - 1).value;
    assert deposited.Balance(tokenIn, a.self) == 0 + Shift((tokenIn, a.self), (tokenIn, sender), (tokenIn, a.self), amount - 1);
  }

  /**
   * The owner deposits `amount + extra` on a fresh adapter and swaps
   * `amount`; the adapter then holds exactly `extra` of the input token.
   */
  lemma OverprovidedResidual(s: State, a: Adapter, amount: nat, extra: nat,
                             tokenIn: Address, tokenOut: Address, amountOut: nat)
    requires a.owner != a.self && a.self != a.pool
    requires s.Balance(tokenIn, a.self) == 0
    requires s.Transfer(tokenIn, a.owner, a.self, amount + extra).Ok?
    requires s.Transfer(tokenIn, a.owner, a.self, amount + extra).value.Swap(a, amount, tokenIn, tokenOut, a.owner, amountOut).Ok?
    ensures s.Transfer(tokenIn, a.owner, a.self, amount + extra).value
             .Swap(a, amount, tokenIn, tokenOut, a.owner, amountOut).value.Balance(tokenIn, a.self) == extra
  {
    var deposited := s.Transfer(tokenIn, a.owner, a.self, amount + extra).value;
    assert deposited.Balance(tokenIn, a.self) == amount + extra;
    var swapped := deposited.Swap(a, amount, tokenIn, tokenOut, a.owner, amountOut).value;
    assert swapped.Balance(tokenIn, a.self) ==
           deposited.Balance(tokenIn, a.self)
           + Shift((tokenIn, a.self), (tokenIn, a.self), (tokenIn, a.pool), amount)
           + Shift((tokenIn, a.self), (tokenOut, a.pool), (tokenOut, a.owner), amountOut);
  }

  /**
   * "Only Owner can rescue overprovided swap tokens": after that swap a
   * `recoverERC20` of the residual by anyone but the owner reverts, and the
   * owner's succeeds and raises the owner's balance by exactly `extra`.
   */
  lemma OnlyOwnerCanRescueOverprovided(s: State, a: Adapter, amount: nat, extra: nat,
                                       tokenIn: Address, tokenOut: Address, amountOut: nat, dude: Address)
    requires a.owner != a.self && a.self != a.pool && dude != a.owner
    requires s.Balance(tokenIn, a.self) == 0
    requires s.Transfer(tokenIn, a.owner, a.self, amount + extra).Ok?
    requires s.Transfer(tokenIn, a.owner, a.self, amount + extra).value.Swap(a, amount, tokenIn, tokenOut, a.owner, amountOut).Ok?
    ensures var swapped := s.Transfer(tokenIn, a.owner, a.self, amount + extra).value
                            .Swap(a, amount, tokenIn, tokenOut, a.owner, amountOut).value;
            && swapped.RecoverERC20(a, dude, tokenIn, extra) == Err(NotOwner)
            && swapped.RecoverERC20(a, a.owner, tokenIn, extra).Ok?
            && swapped.RecoverERC20(a, a.owner, tokenIn, extra).value.Balance(tokenIn, a.owner)
               == swapped.Balance(tokenIn, a.owner) + extra
            && swapped.RecoverERC20(a, a.owner, tokenIn, extra).value.Balance(tokenIn, a.self) == 0
  {
    OverprovidedResidual(s, a, amount, extra, tokenIn, tokenOut, amountOut);
    var swapped := s.Transfer(tokenIn, a.owner, a.self, amount + extra).value
                    .Swap(a, amount, tokenIn, tokenOut, a.owner, amountOut).value;
    var rescued := swapped.RecoverERC20(a, a.owner, tokenIn, extra).value;
    assert rescued.Balance(tokenIn, a.owner) ==
           swapped.Balance(tokenIn, a.owner) + Shift((tokenIn, a.owner), (tokenIn, a.self), (tokenIn, a.owner), extra);
    assert rescued.Balance(tokenIn, a.self) ==
           swapped.Balance(tokenIn, a.self) + Shift((tokenIn, a.self), (tokenIn, a.self), (tokenIn, a.owner), extra);
  }

  /**
   * "Anyone can take advantage of overprovided swap tokens": after that
   * swap, anyone else may swap the residual `extra` without depositing
   * anything, and receives exactly what the pool pays out, while the
   * adapter is left with none of the input token.
   */
  lemma AnyoneCanTakeOverprovided(s: State, a: Adapter, amount: nat, extra: nat,
                                  tokenIn: Address, tokenOut: Address, amountOut: nat, dude: Address, dudeOut: nat)
    requires a.owner != a.self && a.self != a.pool && dude != a.pool && dude != a.self
    requires s.Balance(tokenIn, a.self) == 0
    requires s.Transfer(tokenIn, a.owner, a.self, amount + extra).Ok?
    requires s.Transfer(tokenIn, a.owner, a.self, amount + extra).value.Swap(a, amount, tokenIn, tokenOut, a.owner, amountOut).Ok?
    requires dudeOut <= s.Transfer(tokenIn, a.owner, a.self, amount + extra).value
                         .Swap(a, amount, tokenIn, tokenOut, a.owner, amountOut).value.Balance(tokenOut, a.pool)
    ensures var swapped := s.Transfer(tokenIn, a.owner, a.self, amount + extra).value
                            .Swap(a, amount, tokenIn, tokenOut, a.owner, amountOut).value;
            && swapped.Swap(a, extra, tokenIn, tokenOut, dude, dudeOut).Ok?
            && swapped.Swap(a, extra, tokenIn, tokenOut, dude, dudeOut).value.Balance(tokenOut, dude)
               == swapped.Balance(tokenOut, dude) + dudeOut
            && swapped.Swap(a, extra, tokenIn, tokenOut, dude, dudeOut).value.Balance(tokenIn, a.self) == 0
  {
    OverprovidedResidual(s, a, amount, extra, tokenIn, tokenOut, amountOut);
    var swapped := s.Transfer(tokenIn, a.owner, a.self, amount + extra).value
                    .Swap(a, amount, tokenIn, tokenOut, a.owner, amountOut).value;
    assert Shift((tokenOut, a.pool), (tokenIn, a.self), (tokenIn, a.pool), extra) >= 0;
    var taken := swapped.Swap(a, extra, tokenIn, tokenOut, dude, dudeOut).value;
    assert taken.Balance(tokenOut, dude) ==
           swapped.Balance(tokenOut, dude)
           + Shift((tokenOut, dude), (tokenIn, a.self), (tokenIn, a.pool), extra)
           + Shift((tokenOut, dude), (tokenOut, a.pool), (tokenOut, dude), dudeOut);
    assert taken.Balance(tokenIn, a.self) ==
           swapped.Balance(tokenIn, a.self)
           + Shift((tokenIn, a.self), (tokenIn, a.self), (tokenIn, a.pool), extra)
           + Shift((tokenIn, a.self), (tokenOut, a.pool), (tokenOut, dude), dudeOut);
  }

  /**
   * "Only Owner can rescue GAS from Adapter": the owner sends `amount` to
   * the adapter, which then holds `amount` more; a `recoverGAS` of it by
   * anyone else reverts, and the owner's moves exactly `amount` back:
   * adapter minus `amount`, owner plus `amount`.
   */
  lemma OnlyOwnerCanRescueGas(s: State, a: Adapter, amount: nat, dude: Address)
    requires a.owner != a.self && dude != a.owner
    requires amount <= s.GasBalance(a.owner)
    ensures s.SendGas(a.owner, a.self, amount).Ok?
    ensures var funded := s.SendGas(a.owner, a.self, amount).value;
            && funded.GasBalance(a.self) == s.GasBalance(a.self) + amount
            && funded.RecoverGAS(a, dude, amount) == Err(NotOwner)
            && funded.RecoverGAS(a, a.owner, amount).Ok?
            && funded.RecoverGAS(a, a.owner, amount).value.GasBalance(a.self) == funded.GasBalance(a.self) - amount
            && funded.RecoverGAS(a, a.owner, amount).value.GasBalance(a.owner) == funded.GasBalance(a.owner) + amount
  {
    var funded := s.SendGas(a.owner, a.self, amount).value;
    assert funded.GasBalance(a.self) == s.GasBalance(a.self) + Shift(a.self, a.owner, a.self, amount);
    var rescued := funded.RecoverGAS(a, a.owner, amount).value;
    assert rescued.GasBalance(a.self) == funded.GasBalance(a.self) + Shift(a.self, a.self, a.owner, amount);
    assert rescued.GasBalance(a.owner) == funded.GasBalance(a.owner) + Shift(a.owner, a.self, a.owner, amount);
  }
}

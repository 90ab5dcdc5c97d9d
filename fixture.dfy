/**
 * The test fixture of the Curve 3pool adapter tests: for every configured
 * token symbol, in order, the token's address and decimals are recorded in the
 * module-level arrays TOKENS and TOKENS_DECIMALS, and the owner is credited
 * 10^12 whole tokens by writing the balance straight into the token's
 * storage; the balance is then read back through the token and compared. The
 * "properly set up" sanity test then checks that the adapter's pool index of
 * TOKENS[i] is `i`.
 *
 * A setup run empties TOKENS but not TOKENS_DECIMALS. The fixture machinery
 * normally runs the body once and restores a snapshot afterwards; the model
 * also admits later runs, in which the decimals pushed by earlier runs stay in
 * front of the new ones.
 */
module Fixture {
  import opened Results
  import opened Abi
  import opened Storage
  import Scenarios

  /**
   * What the configuration and the chain give for one symbol: the token's
   * address, the storage slot of its balance mapping if the slot table names
   * one, and the decimals the token contract reports.
   */
  datatype TokenConfig = TokenConfig(address: Address, slot: Option<nat>, decimals: nat)
  {
    /** The slot setBalance writes at: the configured one, or setBalance's default 0 when there is none. */
    function BalanceSlot(): (p: nat)
      ensures slot.Some? ==> p == slot.value
      ensures slot.None? ==> p == 0
    {
      if slot.Some? then slot.value else 0
    }
  }

  /** The owner's starting balance, in whole tokens. */
  const OWNER_UNITS: int := 1_000_000_000_000

  /** Why a setup stops: a symbol without configuration, an unencodable write, or a read-back mismatch. */
  datatype SetupError =
    | MissingConfig(symbol: string)
    | EncodingFailed(symbol: string, error: AbiError)
    | BalanceMismatch(symbol: string)

  /** The two module-level arrays: TOKENS and TOKENS_DECIMALS. */
  datatype Arrays = Arrays(tokens: seq<Address>, decimals: seq<nat>)

  /** The result of a setup run: the arrays, the chain storage, and whether it completed. */
  datatype SetupResult = SetupResult(arrays: Arrays, storage: StorageMap, outcome: Outcome<SetupError>)

  /**
   * The setup loop over `symbols` from the arrays `arrays` and the storage `m`:
   * look the symbol up, push address and decimals, credit the owner, read the
   * balance back through the token. The token keeps its balances in the
   * mapping at slot `layout(address)`, which need not be the configured slot.
   * The first failure stops the loop with what was done so far.
   */
  function SetupFrom(arrays: Arrays, m: StorageMap, keccak: Bytes -> Word, owner: Address,
                     config: map<string, TokenConfig>, layout: Address -> StorageSlot, scale: (int, nat) -> int,
                     symbols: seq<string>): SetupResult
    decreases |symbols|
  {
    if symbols == [] then SetupResult(arrays, m, Pass)
    else
      var symbol := symbols[0];
      if symbol !in config then SetupResult(arrays, m, Fail(MissingConfig(symbol)))
      else
        var cfg := config[symbol];
        var pushed := Arrays(arrays.tokens + [cfg.address], arrays.decimals + [cfg.decimals]);
        var amount := scale(OWNER_UNITS, cfg.decimals);
        match WriteBalance(m, keccak, owner, cfg.address, amount, cfg.BalanceSlot())
        case Err(e) => SetupResult(pushed, m, Fail(EncodingFailed(symbol, e)))
        case Ok(written) =>
          if MappingBalanceOf(written, keccak, cfg.address, owner, layout(cfg.address)) != amount then
            SetupResult(pushed, written, Fail(BalanceMismatch(symbol)))
          else
            SetupFrom(pushed, written, keccak, owner, config, layout, scale, symbols[1..])
  }

  /** The symbol is configured, and its owner credit can be encoded and written. */
  predicate WritableSymbol(config: map<string, TokenConfig>, scale: (int, nat) -> int, s: string)
  {
    s in config && config[s].BalanceSlot() < WORD_LIMIT && 0 <= scale(OWNER_UNITS, config[s].decimals) < WORD_LIMIT
  }

  /** Every symbol is configured and its owner credit can be encoded and written. */
  predicate Writable(config: map<string, TokenConfig>, scale: (int, nat) -> int, symbols: seq<string>)
  {
    forall s :: s in symbols ==> WritableSymbol(config, scale, s)
  }

  /** If the symbol is configured, its balance slot is the token's real balance-mapping slot. */
  predicate SlotMatches(config: map<string, TokenConfig>, layout: Address -> StorageSlot, s: string)
  {
    s in config ==> config[s].BalanceSlot() == layout(config[s].address)
  }

  /** Every configured symbol's balance slot is the token's real balance-mapping slot. */
  predicate SlotsMatch(config: map<string, TokenConfig>, layout: Address -> StorageSlot, symbols: seq<string>)
  {
    forall s :: s in symbols ==> SlotMatches(config, layout, s)
  }

  /** Both list predicates split into the first symbol and the rest. */
  lemma SymbolsTail(config: map<string, TokenConfig>, layout: Address -> StorageSlot, scale: (int, nat) -> int,
                    symbols: seq<string>)
    requires symbols != []
    ensures Writable(config, scale, symbols) <==>
            WritableSymbol(config, scale, symbols[0]) && Writable(config, scale, symbols[1..])
    ensures SlotsMatch(config, layout, symbols) <==>
            SlotMatches(config, layout, symbols[0]) && SlotsMatch(config, layout, symbols[1..])
  {
    assert forall s :: s in symbols <==> s == symbols[0] || s in symbols[1..];
  }

  /** The module-level arrays, which the fixture updates in place. */
  class FixtureArrays {
    var tokens: seq<Address>
    var decimals: seq<nat>

    constructor ()
      ensures tokens == [] && decimals == []
    {
      tokens := [];
      decimals := [];
    }

    /** setupTest's token loop, against the chain `chain`. */
    method SetupTest(chain: Chain, keccak: Bytes -> Word, owner: Address,
                     config: map<string, TokenConfig>, layout: Address -> StorageSlot, scale: (int, nat) -> int)
      returns (r: Outcome<SetupError>)
      modifies this, chain
      ensures SetupResult(Arrays(tokens, decimals), chain.storage, r) ==
              SetupFrom(Arrays([], old(decimals)), old(chain.storage), keccak, owner, config, layout, scale,
                        Scenarios.TOKEN_SYMBOLS)
    {
      ghost var goal := SetupFrom(Arrays([], decimals), chain.storage, keccak, owner, config, layout, scale,
                                  Scenarios.TOKEN_SYMBOLS);
      tokens := [];
      for n := 0 to |Scenarios.TOKEN_SYMBOLS|
        invariant SetupFrom(Arrays(tokens, decimals), chain.storage, keccak, owner, config, layout, scale,
                            Scenarios.TOKEN_SYMBOLS[n..]) == goal
      {
        var symbol := Scenarios.TOKEN_SYMBOLS[n];
        assert Scenarios.TOKEN_SYMBOLS[n..][0] == symbol;
        assert Scenarios.TOKEN_SYMBOLS[n..][1..] == Scenarios.TOKEN_SYMBOLS[n + 1..];
        if symbol !in config {
          return Fail(MissingConfig(symbol));
        }
        var cfg := config[symbol];
        tokens := tokens + [cfg.address];
        decimals := decimals + [cfg.decimals];
        var amount := scale(OWNER_UNITS, cfg.decimals);
        var written;
        if cfg.slot.Some? {
          written := SetBalance(chain, keccak, owner, cfg.address, amount, cfg.slot.value);
        } else {
          written := SetBalance(chain, keccak, owner, cfg.address, amount);
        }
        if written.Fail? {
          return Fail(EncodingFailed(symbol, written.error));
        }
        var balance := MappingBalanceOf(chain.storage, keccak, cfg.address, owner, layout(cfg.address));
        if balance != amount {
          return Fail(BalanceMismatch(symbol));
        }
      }
      assert Scenarios.TOKEN_SYMBOLS[|Scenarios.TOKEN_SYMBOLS|..] == [];
      r := Pass;
    }
  }

  /**
   * A completed setup had every symbol configured and writable; conversely,
   * when every symbol is writable and configured with the token's real balance
   * slot, setup completes, and with the real slots the read-back never fails.
   */
  lemma {:induction false} SetupSucceeds(arrays: Arrays, m: StorageMap, keccak: Bytes -> Word, owner: Address,
                                         config: map<string, TokenConfig>, layout: Address -> StorageSlot,
                                         scale: (int, nat) -> int, symbols: seq<string>)
    decreases |symbols|
    ensures SetupFrom(arrays, m, keccak, owner, config, layout, scale, symbols).outcome.Pass? ==> Writable(config, scale, symbols)
    ensures Writable(config, scale, symbols) && SlotsMatch(config, layout, symbols) ==>
            SetupFrom(arrays, m, keccak, owner, config, layout, scale, symbols).outcome.Pass?
    ensures SlotsMatch(config, layout, symbols) ==>
            !SetupFrom(arrays, m, keccak, owner, config, layout, scale, symbols).outcome.Fail?
            || !SetupFrom(arrays, m, keccak, owner, config, layout, scale, symbols).outcome.error.BalanceMismatch?
  {
    if symbols != [] {
      SymbolsTail(config, layout, scale, symbols);
      if symbols[0] in config {
        var cfg := config[symbols[0]];
        var amount := scale(OWNER_UNITS, cfg.decimals);
        var pushed := Arrays(arrays.tokens + [cfg.address], arrays.decimals + [cfg.decimals]);
        if WriteBalance(m, keccak, owner, cfg.address, amount, cfg.BalanceSlot()).Ok? {
          var written := WriteBalance(m, keccak, owner, cfg.address, amount, cfg.BalanceSlot()).value;
          SetBalanceReadBack(m, keccak, owner, cfg.address, amount, cfg.BalanceSlot());
          SetupSucceeds(pushed, written, keccak, owner, config, layout, scale, symbols[1..]);
        }
      }
    }
  }

  /**
   * The read-back catches a wrong configured slot: if the token keeps its
   * balances elsewhere, the hash separates the two entries, and the owner's
   * real balance is not already the credited amount, setup stops at that
   * symbol with a balance mismatch.
   */
  lemma SetupDetectsWrongSlot(arrays: Arrays, m: StorageMap, keccak: Bytes -> Word, owner: Address,
                              config: map<string, TokenConfig>, layout: Address -> StorageSlot,
                              scale: (int, nat) -> int, symbols: seq<string>)
    requires symbols != [] && symbols[0] in config
    requires config[symbols[0]].BalanceSlot() < WORD_LIMIT
    requires 0 <= scale(OWNER_UNITS, config[symbols[0]].decimals) < WORD_LIMIT
    requires config[symbols[0]].BalanceSlot() != layout(config[symbols[0]].address)
    requires keccak(BalanceSlotPreimage(owner, config[symbols[0]].BalanceSlot()).value)
             != keccak(BalanceSlotPreimage(owner, layout(config[symbols[0]].address)).value)
    requires MappingBalanceOf(m, keccak, config[symbols[0]].address, owner, layout(config[symbols[0]].address))
             != scale(OWNER_UNITS, config[symbols[0]].decimals)
    ensures SetupFrom(arrays, m, keccak, owner, config, layout, scale, symbols).outcome == Fail(BalanceMismatch(symbols[0]))
  {
    var cfg := config[symbols[0]];
    var amount := scale(OWNER_UNITS, cfg.decimals);
    var realKey := BalanceSlotKey(keccak, owner, layout(cfg.address)).value;
    SetBalanceFrame(m, keccak, owner, cfg.address, amount, cfg.BalanceSlot(), cfg.address, realKey);
  }

  /** The configured addresses of `symbols`, in order. */
  function AddressesOf(config: map<string, TokenConfig>, symbols: seq<string>): (r: seq<Address>)
    requires forall s :: s in symbols ==> s in config
    ensures |r| == |symbols|
    ensures forall i :: 0 <= i < |symbols| ==> r[i] == config[symbols[i]].address
  {
    if symbols == [] then [] else [config[symbols[0]].address] + AddressesOf(config, symbols[1..])
  }

  /** The configured decimals of `symbols`, in order. */
  function DecimalsOf(config: map<string, TokenConfig>, symbols: seq<string>): (r: seq<nat>)
    requires forall s :: s in symbols ==> s in config
    ensures |r| == |symbols|
    ensures forall i :: 0 <= i < |symbols| ==> r[i] == config[symbols[i]].decimals
  {
    if symbols == [] then [] else [config[symbols[0]].decimals] + DecimalsOf(config, symbols[1..])
  }

  /**
   * On success each symbol's address and decimals are pushed, in order, after
   * what the arrays held before.
   */
  lemma {:induction false} SetupArrays(arrays: Arrays, m: StorageMap, keccak: Bytes -> Word, owner: Address,
                                       config: map<string, TokenConfig>, layout: Address -> StorageSlot,
                                       scale: (int, nat) -> int, symbols: seq<string>)
    decreases |symbols|
    requires SetupFrom(arrays, m, keccak, owner, config, layout, scale, symbols).outcome.Pass?
    ensures Writable(config, scale, symbols)
    ensures SetupFrom(arrays, m, keccak, owner, config, layout, scale, symbols).arrays ==
            Arrays(arrays.tokens + AddressesOf(config, symbols), arrays.decimals + DecimalsOf(config, symbols))
  {
    SetupSucceeds(arrays, m, keccak, owner, config, layout, scale, symbols);
    if symbols == [] {
      assert arrays.tokens + [] == arrays.tokens && arrays.decimals + [] == arrays.decimals;
    } else {
      var cfg := config[symbols[0]];
      var amount := scale(OWNER_UNITS, cfg.decimals);
      var pushed := Arrays(arrays.tokens + [cfg.address], arrays.decimals + [cfg.decimals]);
      var written := WriteBalance(m, keccak, owner, cfg.address, amount, cfg.BalanceSlot()).value;
      var rest := symbols[1..];
      SetupArrays(pushed, written, keccak, owner, config, layout, scale, rest);
      Scenarios.AppendAssoc(arrays.tokens, [cfg.address], AddressesOf(config, rest));
      Scenarios.AppendAssoc(arrays.decimals, [cfg.decimals], DecimalsOf(config, rest));
    }
  }

  /** No configured symbol of `symbols` names the contract `contract`. */
  predicate Unnamed(config: map<string, TokenConfig>, symbols: seq<string>, contract: Address)
  {
    forall s :: s in symbols && s in config ==> config[s].address != contract
  }

  lemma UnnamedTail(config: map<string, TokenConfig>, symbols: seq<string>, contract: Address)
    requires symbols != [] && Unnamed(config, symbols, contract)
    ensures Unnamed(config, symbols[1..], contract)
    ensures symbols[0] in config ==> config[symbols[0]].address != contract
  {
    assert forall s :: s in symbols[1..] ==> s in symbols;
  }

  /** A contract that none of the configured symbols names keeps its storage through setup. */
  lemma {:induction false} SetupFrame(arrays: Arrays, m: StorageMap, keccak: Bytes -> Word, owner: Address,
                                      config: map<string, TokenConfig>, layout: Address -> StorageSlot,
                                      scale: (int, nat) -> int, symbols: seq<string>, contract: Address, slot: Word)
    decreases |symbols|
    requires Unnamed(config, symbols, contract)
    ensures Lookup(SetupFrom(arrays, m, keccak, owner, config, layout, scale, symbols).storage, contract, slot)
            == Lookup(m, contract, slot)
  {
    if symbols != [] && symbols[0] in config {
      UnnamedTail(config, symbols, contract);
      var cfg := config[symbols[0]];
      var amount := scale(OWNER_UNITS, cfg.decimals);
      var pushed := Arrays(arrays.tokens + [cfg.address], arrays.decimals + [cfg.decimals]);
      if WriteBalance(m, keccak, owner, cfg.address, amount, cfg.BalanceSlot()).Ok? {
        var written := WriteBalance(m, keccak, owner, cfg.address, amount, cfg.BalanceSlot()).value;
        SetBalanceFrame(m, keccak, owner, cfg.address, amount, cfg.BalanceSlot(), contract, slot);
        SetupFrame(pushed, written, keccak, owner, config, layout, scale, symbols[1..], contract, slot);
      }
    }
  }

  /** Configured symbols at different positions name different token addresses. */
  predicate DistinctAddresses(config: map<string, TokenConfig>, symbols: seq<string>)
  {
    forall p, q :: 0 <= p < q < |symbols| && symbols[p] in config && symbols[q] in config ==>
      config[symbols[p]].address != config[symbols[q]].address
  }

  /** Distinct addresses survive dropping the first symbol, which no later symbol shares. */
  lemma DistinctAddressesTail(config: map<string, TokenConfig>, symbols: seq<string>)
    requires symbols != [] && symbols[0] in config
    requires DistinctAddresses(config, symbols)
    ensures DistinctAddresses(config, symbols[1..])
    ensures forall s :: s in symbols[1..] && s in config ==> config[s].address != config[symbols[0]].address
  {
    var rest := symbols[1..];
    forall p, q | 0 <= p < q < |rest| && rest[p] in config && rest[q] in config
      ensures config[rest[p]].address != config[rest[q]].address
    {
      assert rest[p] == symbols[p + 1] && rest[q] == symbols[q + 1];
    }
    forall s | s in rest && s in config
      ensures config[s].address != config[symbols[0]].address
    {
      var q :| 0 <= q < |rest| && rest[q] == s;
      assert symbols[q + 1] == s;
    }
  }

  /**
   * After a completed setup over tokens at distinct addresses, the owner's
   * entry at every token's setBalance slot holds 10^12 whole tokens (scaled by
   * the token's decimals).
   */
  lemma {:induction false} SetupBalances(arrays: Arrays, m: StorageMap, keccak: Bytes -> Word, owner: Address,
                                         config: map<string, TokenConfig>, layout: Address -> StorageSlot,
                                         scale: (int, nat) -> int, symbols: seq<string>)
    decreases |symbols|
    requires SetupFrom(arrays, m, keccak, owner, config, layout, scale, symbols).outcome.Pass?
    requires DistinctAddresses(config, symbols)
    ensures Writable(config, scale, symbols)
    ensures forall s :: s in symbols ==>
              MappingBalanceOf(SetupFrom(arrays, m, keccak, owner, config, layout, scale, symbols).storage,
                               keccak, config[s].address, owner, config[s].BalanceSlot())
              == scale(OWNER_UNITS, config[s].decimals)
  {
    SetupSucceeds(arrays, m, keccak, owner, config, layout, scale, symbols);
    if symbols != [] {
      var cfg := config[symbols[0]];
      var amount := scale(OWNER_UNITS, cfg.decimals);
      var pushed := Arrays(arrays.tokens + [cfg.address], arrays.decimals + [cfg.decimals]);
      var written := WriteBalance(m, keccak, owner, cfg.address, amount, cfg.BalanceSlot()).value;
      var rest := symbols[1..];
      assert SetupFrom(arrays, m, keccak, owner, config, layout, scale, symbols)
             == SetupFrom(pushed, written, keccak, owner, config, layout, scale, rest);
      DistinctAddressesTail(config, symbols);
      SetupBalances(pushed, written, keccak, owner, config, layout, scale, rest);
      var key := BalanceSlotKey(keccak, owner, cfg.BalanceSlot()).value;
      SetupFrame(pushed, written, keccak, owner, config, layout, scale, rest, cfg.address, key);
      SetBalanceReadBack(m, keccak, owner, cfg.address, amount, cfg.BalanceSlot());
      assert forall s :: s in symbols <==> s == symbols[0] || s in rest;
    }
  }

  /**
   * TOKENS_DECIMALS[i] is the decimals of TOKENS[i] after a completed setup,
   * although TOKENS_DECIMALS is never emptied: after a first run it starts
   * from no entries, and if the loop runs again it pushes the same values
   * behind those already there. (The fixture runs this over the symbol list
   * of the tests.)
   */
  lemma RepeatedSetupKeepsDecimals(decimals: seq<nat>, m: StorageMap, keccak: Bytes -> Word, owner: Address,
                                   config: map<string, TokenConfig>, layout: Address -> StorageSlot,
                                   scale: (int, nat) -> int, symbols: seq<string>)
    requires SetupFrom(Arrays([], decimals), m, keccak, owner, config, layout, scale, symbols).outcome.Pass?
    requires decimals == [] ||
             (|decimals| >= |symbols| &&
              forall i :: 0 <= i < |symbols| ==> symbols[i] in config && decimals[i] == config[symbols[i]].decimals)
    ensures Writable(config, scale, symbols)
    ensures var out := SetupFrom(Arrays([], decimals), m, keccak, owner, config, layout, scale, symbols).arrays;
            && |out.tokens| == |symbols| <= |out.decimals|
            && forall i :: 0 <= i < |out.tokens| ==>
                 && symbols[i] in config
                 && out.tokens[i] == config[symbols[i]].address && out.decimals[i] == config[symbols[i]].decimals
  {
    SetupArrays(Arrays([], decimals), m, keccak, owner, config, layout, scale, symbols);
    forall i | 0 <= i < |symbols|
      ensures symbols[i] in config
    {
      assert WritableSymbol(config, scale, symbols[i]);
    }
    assert [] + AddressesOf(config, symbols) == AddressesOf(config, symbols);
    if decimals == [] {
      assert [] + DecimalsOf(config, symbols) == DecimalsOf(config, symbols);
    }
  }

  /**
   * The "Curve Adapter is properly set up" test: the adapter's pool is the
   * configured one, and the adapter reports index `i` for TOKENS[i]. The
   * adapter's answers are the parameters `pool` and `tokenIndex`.
   */
  method AdapterSetUpCheck(pool: Address, configuredPool: Address, tokens: seq<Address>, tokenIndex: Address -> int)
    returns (ok: bool)
    ensures ok <==> pool == configuredPool && forall i :: 0 <= i < |tokens| ==> tokenIndex(tokens[i]) == i
  {
    if pool != configuredPool {
      return false;
    }
    for i := 0 to |tokens|
      invariant forall p :: 0 <= p < i ==> tokenIndex(tokens[p]) == p
    {
      if tokenIndex(tokens[i]) != i {
        return false;
      }
    }
    return true;
  }

  /**
   * For an adapter whose index of each coin of a pool with distinct coins is
   * its position among them, and tokens that are all pool coins, the index
   * check holds exactly when the tokens are the pool's first coins in pool order.
   */
  lemma RegistrationMatchesPoolOrder(coins: seq<Address>, tokens: seq<Address>, tokenIndex: Address -> int)
    requires forall p, q :: 0 <= p < q < |coins| ==> coins[p] != coins[q]
    requires forall p :: 0 <= p < |coins| ==> tokenIndex(coins[p]) == p
    requires forall i :: 0 <= i < |tokens| ==> tokens[i] in coins
    ensures (forall i :: 0 <= i < |tokens| ==> tokenIndex(tokens[i]) == i) <==>
            (|tokens| <= |coins| && tokens == coins[..|tokens|])
  {
    if forall i :: 0 <= i < |tokens| ==> tokenIndex(tokens[i]) == i {
      forall i | 0 <= i < |tokens|
        ensures i < |coins| && tokens[i] == coins[i]
      {
        var p :| 0 <= p < |coins| && coins[p] == tokens[i];
        assert tokenIndex(tokens[i]) == p;
      }
      if |tokens| > 0 {
        var last := |tokens| - 1;
        var p :| 0 <= p < |coins| && coins[p] == tokens[last];
        assert tokenIndex(tokens[last]) == p;
      }
    }
  }
}

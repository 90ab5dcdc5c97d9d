# Curve 3pool adapter test harness, modelled in Dafny

This project models the Curve 3pool (Ethereum) adapter test suite of a
swap-adapter repository, together with its storage-override helper. It
covers four parts.

- **Balance injection** (`setBalance`). The storage key of a holder's entry
  in a Solidity `mapping(address => uint256)` at slot `p` is computed as
  keccak256 of the holder and `p`, each packed as a 32-byte big-endian
  `uint256`. The amount is ABI-encoded as one `uint256` word, and exactly
  that one word of the token's storage is overwritten through
  `hardhat_setStorageAt`.
  - Keccak-256 is a function parameter `keccak`, so every result holds for
    any hash function.
  - The padding, the 64-byte preimage, the word encoding and the storage
    write are modelled exactly (modules `Abi` and `Storage`).
  - The chain's storage is a `Chain` object updated in place.
- **The swap matrix** (`range`, `testAdapter`, the constants).
  - `TestAdapter` is the harness's nested loop: repetitions, then
    from-tokens, then to-tokens, then amounts. It skips the diagonal and
    numbers the calls with a running counter.
  - It is proved equal to a recursive specification `Sweep` over scenario
    coordinates. `Sweep` is characterised on its own as exactly the
    off-diagonal coordinates in strictly increasing lexicographic order.
  - It makes `times × (off-diagonal pairs) × |amounts|` calls. That gives
    120 and 90 for the two "Adapter Swaps" tests.
  - The `n`-th call carries swap number `n + 1`, the from-token, the
    to-token, the amount scaled by the from-token's decimals, and the
    underquoting flag (module `Scenarios`).
- **The fixture's token loop.** `TOKENS` and `TOKENS_DECIMALS` are
  module-level arrays updated in place (class `Fixture.FixtureArrays`).
  - For every symbol, in order, the loop pushes the address and decimals,
    credits the owner 10^12 whole tokens with `setBalance`, and reads the
    balance back through the token.
  - The slot table may lack a symbol; `setBalance` then writes at its
    default slot 0.
  - The token's real balance-mapping slot is a separate parameter
    `layout`. When every configured slot is the real one and every credit
    is encodable, setup completes; a wrong slot makes the read-back fail
    (given the hash separates the two entries and the owner's real balance
    differs from the credit).
  - The owner ends with the credited balance at every written slot, and no
    other contract's storage changes.
  - One run of the setup body empties `TOKENS` (line 88) but never empties
    `TOKENS_DECIMALS`. The fixture wrapper (`deployments.createFixture`,
    line 83) runs the body once and later restores a snapshot, so nothing in
    the source shows the body running twice. The model also admits later
    runs, as an over-approximation, in which the decimals are appended
    behind the earlier entries. `RepeatedSetupKeepsDecimals` shows the
    arrays agree on the indices the tests read in both cases.
  - The registration check of the "properly set up" test is modelled as
    well (module `Fixture`).
- **The sanity tests as a ledger.** ERC20 balances per (token, holder) and
  native balances move through `transfer`, the adapter's `swap`, the
  owner-only `recoverERC20` and `recoverGAS`, and a plain native payment.
  - Each is a function on a `State` value with an exact pointwise effect.
  - Each also has the same operation as a method of the in-place `Ledger`
    class, proved equal to that function.
  - The four sanity tests are lemmas over sequences of these operations
    (module `AdapterLedger`).

Source paths below are relative to the repository root:
`test/adapters/curve/eth/curve3pool.ts` and `test/adapters/utils/helpers.ts`.

## Model

| member | source | states |
|---|---|---|
| Abi.EncodeUint256 | test/adapters/utils/helpers.ts:17 | encoding as `uint256` succeeds exactly for 0 <= x < 2^256 (anything else is an error), and the word decodes back to x |
| Abi.DecodeUint256 | test/adapters/utils/helpers.ts:17 | the value of a word is below 2^256 |
| Abi.EncodeDecodeUint256 | test/adapters/utils/helpers.ts:17 | every 32-byte word is the encoding of its own value (the inverse direction of the round trip) |
| Abi.FromToBigEndian | test/adapters/utils/helpers.ts:17 | reading back the n-byte big-endian form of x < 256^n gives x |
| Abi.ToFromBigEndian | test/adapters/utils/helpers.ts:17 | the big-endian form of a byte string's value is that byte string |
| Abi.ToBigEndianPadding | test/adapters/utils/helpers.ts:9-12 | widening a value that fits in m bytes to n bytes only prepends n - m zero bytes |
| Abi.EncodeUint256Padding | test/adapters/utils/helpers.ts:9-12 | a `uint256` word holding an m-byte value is 32 - m zeros followed by its m bytes |
| Abi.AddressWord | test/adapters/utils/helpers.ts:9-12 | an address packed as `uint256` is 12 zero bytes followed by its 20 big-endian bytes |
| Storage.BalanceSlotPreimage | test/adapters/utils/helpers.ts:9-12 | the hash input fails exactly when the slot does not fit in 256 bits; otherwise it is 64 bytes, its first word is the zero-padded address, and its two words decode to the user and the slot |
| Storage.BalanceSlotPreimageInjective | test/adapters/utils/helpers.ts:9-12 | equal preimages come from equal (user, slot) pairs |
| Storage.BalanceSlotKey | test/adapters/utils/helpers.ts:9-12 | the slot key exists exactly when the slot fits in 256 bits, and it is the hash of the 64-byte preimage of (user, slot) |
| Storage.MappingBalanceOf | test/adapters/curve/eth/curve3pool.ts:112 | the balance a token with a mapping at the given slot reports is below 2^256, and the word stored at the holder's entry is exactly its `uint256` encoding |
| Storage.BalanceOverride | test/adapters/utils/helpers.ts:6-17 | the (key, value) pair exists exactly when slot and amount fit in 256 bits; the key is the mapping slot key and the value decodes to the amount |
| Storage.Chain.SetStorageAt | test/adapters/utils/helpers.ts:14-18 | the storage map afterwards is the old one with exactly that one (contract, slot) word replaced |
| Storage.SetBalance | test/adapters/utils/helpers.ts:5-19 | succeeds exactly when slot and amount are encodable; on success the storage is the old storage with the balance word written; on failure the storage is unchanged; the slot defaults to 0 |
| Storage.SetBalanceReadBack | test/adapters/utils/helpers.ts:14-18 | after the write, the token's mapping reports exactly `amount` for the user |
| Storage.SetBalanceFrame | test/adapters/utils/helpers.ts:14-18 | every (contract, slot) pair other than the written one reads as before |
| Storage.SetBalanceKeys | test/adapters/utils/helpers.ts:14-18 | the written key is the only key that may be added to the storage map |
| Storage.SetBalanceLastWriteWins | test/adapters/utils/helpers.ts:14-18 | a second write of the same entry gives the same storage as writing only the second amount, and repeating the same write changes nothing |
| Storage.SetBalanceOtherHolder | test/adapters/utils/helpers.ts:9-12 | another holder's balance in the same mapping is unchanged unless the hash collides on the two (distinct) preimages |
| Scenarios.Range | test/adapters/curve/eth/curve3pool.ts:42 | `range(n)` has length n and holds k at position k |
| Scenarios.AllTokensValue | test/adapters/curve/eth/curve3pool.ts:43 | ALL_TOKENS is [0, 1, 2] |
| Scenarios.AmountsFromLength | test/adapters/curve/eth/curve3pool.ts:68-78 | the amount loop from position m emits na - m coordinates |
| Scenarios.AmountsFromMember | test/adapters/curve/eth/curve3pool.ts:68-78 | the amount loop from position m emits exactly the coordinates of the current pair with amount position in [m, na) |
| Scenarios.AmountsFromOrdered | test/adapters/curve/eth/curve3pool.ts:68-78 | the amount loop emits its coordinates in strictly increasing order |
| Scenarios.SweepFromMember | test/adapters/curve/eth/curve3pool.ts:59-80 | from any loop position the rest of the sweep holds exactly the off-diagonal, in-range coordinates at or after that position |
| Scenarios.SweepFromOrdered | test/adapters/curve/eth/curve3pool.ts:59-80 | from any loop position the rest of the sweep is strictly lexicographically increasing |
| Scenarios.SweepFromLength | test/adapters/curve/eth/curve3pool.ts:59-80 | from any loop position the rest of the sweep has the remaining pairs of this repetition plus the full pair count of each later repetition, each times the number of amounts |
| Scenarios.SweepMembers | test/adapters/curve/eth/curve3pool.ts:59-80 | a coordinate is visited if and only if its repetition, positions and amount are in range and its from-token differs from its to-token (the diagonal is skipped) |
| Scenarios.SweepOrdered | test/adapters/curve/eth/curve3pool.ts:59-80 | coordinates are visited in strictly increasing lexicographic order: repetition, from-position, to-position, amount; so none is visited twice |
| Scenarios.SweepLength | test/adapters/curve/eth/curve3pool.ts:59-80 | the number of visited coordinates is times × (off-diagonal pairs) × number of amounts |
| Scenarios.AllTokensPairs | test/adapters/curve/eth/curve3pool.ts:42-43 | ALL_TOKENS against itself has 6 off-diagonal pairs |
| Scenarios.TestNameCounts | test/adapters/curve/eth/curve3pool.ts:256-268 | the two swap tests make 120 and 90 calls, as their names say |
| Scenarios.CallAt | test/adapters/curve/eth/curve3pool.ts:70-77 | the call for a coordinate passes the adapter, the underquoting flag and the swap number; for an in-range coordinate it passes `tokens[i]`, `tokens[j]` and the amount scaled by the decimals of the from-token i |
| Scenarios.CallsAt | test/adapters/curve/eth/curve3pool.ts:69-77 | one call per visited coordinate |
| Scenarios.CallsAtIndex | test/adapters/curve/eth/curve3pool.ts:69-77 | the n-th call (from 0) is the call of the n-th coordinate with swap number n + 1 |
| Scenarios.CallsAtAppend | test/adapters/curve/eth/curve3pool.ts:69-77 | one more coordinate adds exactly one call, numbered one past the previous ones |
| Scenarios.TestAdapter | test/adapters/curve/eth/curve3pool.ts:49-81 | the loop's calls are exactly the calls of the specified sweep, in order, and there are times × (off-diagonal pairs) × number of amounts of them |
| Scenarios.TestAdapterCalls | test/adapters/curve/eth/curve3pool.ts:58-77 | the n-th call carries swap number n + 1 (consecutive from 1), the underquoting flag and the adapter, swaps `tokens[i]` for `tokens[j]` with i different from j, and scales its amount by the decimals of i |
| Fixture.FixtureArrays.constructor | test/adapters/curve/eth/curve3pool.ts:31-37 | both arrays start empty |
| Fixture.TokenConfig.BalanceSlot | test/adapters/curve/eth/curve3pool.ts:102-111 | the slot passed to setBalance is the slot table's entry, or setBalance's default 0 when the table has none |
| Fixture.FixtureArrays.SetupTest | test/adapters/curve/eth/curve3pool.ts:88-113 | one run of the setup body: empties TOKENS but not TOKENS_DECIMALS, then runs the token loop, calling setBalance with or without a slot and reading the balance back at the token's real slot; the arrays, the chain storage and the outcome are those of the specified setup run |
| Fixture.SetupSucceeds | test/adapters/curve/eth/curve3pool.ts:100-113 | a completed setup had every symbol configured with an encodable slot and credit; conversely, with those and every configured slot being the token's real balance slot, setup completes, and with real slots the read-back never fails |
| Fixture.SetupDetectsWrongSlot | test/adapters/curve/eth/curve3pool.ts:111-112 | when the configured slot is not the token's real one, the hash separates the two entries and the owner's real balance is not the credit, the read-back stops setup with a balance mismatch at that symbol |
| Fixture.AddressesOf | test/adapters/curve/eth/curve3pool.ts:100-107 | one address per symbol, position by position |
| Fixture.DecimalsOf | test/adapters/curve/eth/curve3pool.ts:108-109 | one decimals value per symbol, position by position |
| Fixture.SetupArrays | test/adapters/curve/eth/curve3pool.ts:100-109 | after a completed setup both arrays hold their old contents followed by the symbols' addresses (respectively decimals) in symbol order |
| Fixture.SetupFrame | test/adapters/curve/eth/curve3pool.ts:111 | a contract that no configured symbol names keeps every storage word through setup |
| Fixture.SetupBalances | test/adapters/curve/eth/curve3pool.ts:110-112 | after a completed setup over distinct token addresses, the owner's entry at every token's setBalance slot holds the scaled 10^12 |
| Fixture.RepeatedSetupKeepsDecimals | test/adapters/curve/eth/curve3pool.ts:88-109 | whether TOKENS_DECIMALS starts empty (the first run) or holds the same values from an earlier run (which the model admits), afterwards TOKENS[i] and TOKENS_DECIMALS[i] are the i-th symbol's address and decimals |
| Fixture.AdapterSetUpCheck | test/adapters/curve/eth/curve3pool.ts:152-162 | the check passes if and only if the adapter's pool is the configured one and the adapter reports index i for TOKENS[i] for every i |
| Fixture.RegistrationMatchesPoolOrder | test/adapters/curve/eth/curve3pool.ts:157-161 | for a pool with distinct coins indexed by position, the index check holds if and only if the tokens are the pool's first coins in pool order |
| AdapterLedger.Move | test/adapters/curve/eth/curve3pool.ts:170 | a move succeeds exactly when the sender holds enough (otherwise it reverts for insufficient balance), and every balance changes by exactly its signed share of the move |
| AdapterLedger.MoveBack | test/adapters/curve/eth/curve3pool.ts:170 | moving the same amount back succeeds and restores every balance |
| AdapterLedger.State.Transfer | test/adapters/curve/eth/curve3pool.ts:170 | an ERC20 transfer succeeds exactly when the sender holds enough, changes only the two balances involved by the amount, and leaves native balances alone |
| AdapterLedger.State.Swap | test/adapters/curve/eth/curve3pool.ts:171-178 | a swap reverts for insufficient balance whenever the adapter holds less than the input amount; it succeeds exactly when the adapter holds the input and the pool the output; on success the input goes adapter to pool and the output pool to recipient, and nothing else changes |
| AdapterLedger.State.RecoverERC20 | test/adapters/curve/eth/curve3pool.ts:196-204 | reverts as not-owner exactly when the caller is not the owner; succeeds exactly for the owner when the adapter holds the amount; moves exactly that amount of that token from adapter to owner |
| AdapterLedger.State.SendGas | test/adapters/curve/eth/curve3pool.ts:238-243 | a native payment succeeds exactly when the sender holds enough and moves exactly that amount |
| AdapterLedger.State.RecoverGAS | test/adapters/curve/eth/curve3pool.ts:245-251 | reverts as not-owner exactly when the caller is not the owner; succeeds exactly for the owner when the adapter holds the amount; moves exactly that amount from adapter to owner |
| AdapterLedger.Ledger.Transfer | test/adapters/curve/eth/curve3pool.ts:170 | the in-place transfer has the effect of `State.Transfer`, and a revert leaves the ledger unchanged |
| AdapterLedger.Ledger.Swap | test/adapters/curve/eth/curve3pool.ts:171-178 | the in-place swap has the effect of `State.Swap`, and a revert (also one after the input was debited) leaves the ledger unchanged |
| AdapterLedger.Ledger.RecoverERC20 | test/adapters/curve/eth/curve3pool.ts:196-204 | the in-place token rescue has the effect of `State.RecoverERC20`, and a revert leaves the ledger unchanged |
| AdapterLedger.Ledger.SendGas | test/adapters/curve/eth/curve3pool.ts:238-243 | the in-place native payment has the effect of `State.SendGas`, and a revert leaves the ledger unchanged |
| AdapterLedger.Ledger.RecoverGAS | test/adapters/curve/eth/curve3pool.ts:245-251 | the in-place gas rescue has the effect of `State.RecoverGAS`, and a revert leaves the ledger unchanged |
| AdapterLedger.SwapFailsIfTransferTooLittle | test/adapters/curve/eth/curve3pool.ts:164-179 | with nothing deposited before, sending amount - 1 to the adapter leaves it holding amount - 1, and a swap of amount then reverts whoever calls it |
| AdapterLedger.OverprovidedResidual | test/adapters/curve/eth/curve3pool.ts:182-194 | depositing amount + extra and swapping amount leaves exactly extra on the adapter |
| AdapterLedger.OnlyOwnerCanRescueOverprovided | test/adapters/curve/eth/curve3pool.ts:181-205 | after that swap, a non-owner's recoverERC20 of extra reverts as not-owner, and the owner's succeeds, raises the owner's balance by exactly extra and empties the adapter |
| AdapterLedger.AnyoneCanTakeOverprovided | test/adapters/curve/eth/curve3pool.ts:207-234 | after that swap, another account can swap the residual extra without depositing anything; it receives exactly what the pool pays out, and the adapter is left with none of the input token |
| AdapterLedger.OnlyOwnerCanRescueGas | test/adapters/curve/eth/curve3pool.ts:236-252 | the owner's payment raises the adapter's native balance by the amount; a non-owner's recoverGAS reverts as not-owner; the owner's moves exactly the amount: adapter minus amount, owner plus amount |

## Left out

- Keccak-256 itself: the hash is the parameter `keccak`, and nothing is assumed about it beyond being a function of the preimage.
- `getBigNumber` (from `test/bridge/utilities`, which is not part of this model): the decimal scaling is the parameter `scale`, with no formula assumed.
- The `TestAdapterSwap` contract, its `testSwap` and the underquoting comparison it makes: the model records each call as a `TestSwapCall` value. The tolerance 1 passed to its deployment (lines 97-98) is not modelled.
- Curve pool pricing and `query`: the output amount of every swap is a parameter.
- AdapterLedger.AnyoneCanTakeOverprovided: does not state that the payout equals the quote for `extra` plus one (line 233), because pool pricing and `query` are not modelled.
- `depositAddress(tokenFrom, tokenTo)` is taken to be the adapter itself: its implementation is not part of this model.
- The adapter's own code, which is not part of this model. Its `swap` is modelled as the tests observe it: it consumes the deposited input or reverts. A revert for a short input is reported as insufficient balance, and the source's reason is not modelled.
- The Hardhat fixture machinery is not modelled: `deployments.fixture`, the `createFixture` snapshot and restore, the fork reset to a fixed block, the signer lookups, the contract deployments (lines 95-98, 115-124) and the approvals (lines 126-128). `createFixture` runs the setup body on its first call and restores a snapshot on later calls. The model does not capture that caching: `SetupTest` is one run of the body, and the lemmas also cover a run that starts from the arrays an earlier run left, which is an over-approximation.
- The raw RPC transport (`network.provider.send`): only its effect, one storage-word write, is modelled.
- Reading `config[CHAIN]` and calling `token.decimals()`: they are the `config` map parameter with an optional slot. A symbol absent from the address table stops setup with an error instead of the source's failure on an undefined address. A symbol absent only from the slot table gets slot 0, as in the source.
- `getUserTokenBalance`: it is modelled as the token reporting the word of its balance mapping at its real slot `layout(address)`. Tokens that do not keep balances in a plain `mapping(address => uint256)` are not modelled.
- chai/waffle matcher mechanics and the revert message text: authorisation is a plain owner check with the revert `NotOwner`.
- The `isPoolToken` expectation (line 159) has no matcher and so asserts nothing; it is not modelled.
- The `transfer` calls at lines 170, 188 and 214 are not awaited; the model assumes they complete in order.
- Transaction fees and gas accounting: `SendGas` and `RecoverGAS` move exactly the stated amount.
- Ledger balances are unbounded naturals: the `uint256` limit of ERC20 and native balances is not modelled in `AdapterLedger`.
- Scenarios.TestAdapter: the calls are those of a run in which every awaited `testSwap` (line 70) returns. A reverting `testSwap` ends the source's loop after that call, and the model does not capture that early end.
- Scenarios.TestAdapter: requires every from-index to name a token and a decimals entry and every to-index to name a token. With a bad index the source fails on reading an undefined address, which is not modelled.
- Scenarios.CallAt: a coordinate outside the lists gives a placeholder call, because the function is total; `SweepMembers` shows that the sweep never visits such a coordinate.
- Storage.SetBalance: the slot is a natural number; negative slots are outside the model's domain. A negative amount is in the domain and gives the encoding error.

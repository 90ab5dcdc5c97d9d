/**
 * Balance injection: writing an account's ERC20 balance straight into a
 * token contract's storage. Solidity keeps the entry of a
 * `mapping(address => uint256)` declared at slot `p` for key `k` at the slot
 * keccak256(pad32(k) ++ pad32(p)) (Solidity documentation, "Layout of State
 * Variables in Storage", section "Mappings and Dynamic Arrays"). The hash
 * itself is a parameter `keccak` of every member that needs it, so all that
 * is proved holds for whatever function the chain uses.
 */
module Storage {
  import opened Results
  import opened Abi

  /** The storage of every contract on the chain: (contract, slot) to word. */
  type StorageMap = map<(Address, Word), Word>

  /** What the chain returns for a slot: the word written there, zero if none was. */
  function Lookup(m: StorageMap, contract: Address, slot: Word): Word
  {
    if (contract, slot) in m then m[(contract, slot)] else Zeros(32)
  }

  /**
   * The 64-byte hash input for the balance entry of `user` in a mapping at
   * slot `slot`: both packed as `uint256`, the user first. Packing fails when
   * the slot does not fit in 256 bits.
   */
  function BalanceSlotPreimage(user: Address, slot: nat): (r: Result<Bytes, AbiError>)
    ensures r.Ok? <==> slot < WORD_LIMIT
    ensures r.Ok? ==> |r.value| == 64
    ensures r.Ok? ==> r.value[..32] == Zeros(12) + ToBigEndian(user, 20)
    ensures r.Ok? ==> DecodeUint256(r.value[..32]) == user && DecodeUint256(r.value[32..]) == slot
  {
    AddressWord(user);
    match EncodeUint256(slot)
    case Err(e) => Err(e)
    case Ok(slotWord) =>
      var userWord := EncodeUint256(user).value;
      assert (userWord + slotWord)[..32] == userWord && (userWord + slotWord)[32..] == slotWord;
      Ok(userWord + slotWord)
  }

  /** A mapping's declaration slot as the chain sees it: a `uint256`. */
  type StorageSlot = s: nat | s < WORD_LIMIT

  /**
   * The storage slot of `user`'s entry in the balance mapping at `slot`: the
   * hash of the 64-byte preimage, or the packing error for a slot that does
   * not fit in 256 bits.
   */
  function BalanceSlotKey(keccak: Bytes -> Word, user: Address, slot: nat): (r: Result<Word, AbiError>)
    ensures r.Ok? <==> slot < WORD_LIMIT
    ensures r.Ok? ==> r.value == keccak(BalanceSlotPreimage(user, slot).value)
  {
    match BalanceSlotPreimage(user, slot)
    case Err(e) => Err(e)
    case Ok(preimage) => Ok(keccak(preimage))
  }

  /** Distinct (user, slot) pairs have distinct preimages: only the hash can collide. */
  lemma BalanceSlotPreimageInjective(user1: Address, slot1: nat, user2: Address, slot2: nat)
    requires BalanceSlotPreimage(user1, slot1).Ok? && BalanceSlotPreimage(user2, slot2).Ok?
    requires BalanceSlotPreimage(user1, slot1) == BalanceSlotPreimage(user2, slot2)
    ensures user1 == user2 && slot1 == slot2
  {
  }

  /**
   * The (slot key, value) pair that setBalance hands to the chain, or the
   * encoding error that stops it before anything is written.
   */
  function BalanceOverride(keccak: Bytes -> Word, user: Address, amount: int, slot: nat): (r: Result<(Word, Word), AbiError>)
    ensures r.Ok? <==> slot < WORD_LIMIT && 0 <= amount < WORD_LIMIT
    ensures r.Ok? ==> BalanceSlotKey(keccak, user, slot) == Ok(r.value.0)
    ensures r.Ok? ==> DecodeUint256(r.value.1) == amount
  {
    match BalanceSlotKey(keccak, user, slot)
    case Err(e) => Err(e)
    case Ok(key) =>
      match EncodeUint256(amount)
      case Err(e) => Err(e)
      case Ok(word) => Ok((key, word))
  }

  /** The chain storage after setBalance, or the error it throws. */
  function WriteBalance(m: StorageMap, keccak: Bytes -> Word, user: Address, token: Address, amount: int, slot: nat): Result<StorageMap, AbiError>
  {
    match BalanceOverride(keccak, user, amount, slot)
    case Err(e) => Err(e)
    case Ok(write) => Ok(m[(token, write.0) := write.1])
  }

  /**
   * The balance a token that keeps its balances in a `mapping(address => uint256)`
   * at slot `slot` reports for `user`.
   */
  function MappingBalanceOf(m: StorageMap, keccak: Bytes -> Word, token: Address, user: Address, slot: nat): (v: nat)
    requires slot < WORD_LIMIT
    ensures v < WORD_LIMIT
    ensures EncodeUint256(v) == Ok(Lookup(m, token, BalanceSlotKey(keccak, user, slot).value))
  {
    EncodeDecodeUint256(Lookup(m, token, BalanceSlotKey(keccak, user, slot).value));
    DecodeUint256(Lookup(m, token, BalanceSlotKey(keccak, user, slot).value))
  }

  /** The chain node's storage, which a state override rewrites in place. */
  class Chain {
    var storage: StorageMap

    constructor (initial: StorageMap)
      ensures storage == initial
    {
      storage := initial;
    }

    /** hardhat_setStorageAt: replaces one word of one contract's storage. */
    method SetStorageAt(contract: Address, slot: Word, value: Word)
      modifies this
      ensures storage == old(storage)[(contract, slot) := value]
    {
      storage := storage[(contract, slot) := value];
    }
  }

  /**
   * setBalance: computes the balance slot of `user`, encodes `amount` as a
   * `uint256` word and writes that word into `token`'s storage. The slot
   * defaults to 0. An encoding error is raised before anything is written.
   */
  method SetBalance(chain: Chain, keccak: Bytes -> Word, user: Address, token: Address, amount: int, storage: nat := 0)
    returns (r: Outcome<AbiError>)
    modifies chain
    ensures r.Pass? <==> storage < WORD_LIMIT && 0 <= amount < WORD_LIMIT
    ensures WriteBalance(old(chain.storage), keccak, user, token, amount, storage) ==
            (if r.Pass? then Ok(chain.storage) else Err(r.error))
    ensures r.Fail? ==> chain.storage == old(chain.storage)
  {
    var index := BalanceSlotKey(keccak, user, storage);
    if index.Err? {
      return Fail(index.error);
    }
    var word := EncodeUint256(amount);
    if word.Err? {
      return Fail(word.error);
    }
    chain.SetStorageAt(token, index.value, word.value);
    return Pass;
  }

  /** Read after write: the token then reports exactly `amount` for `user`. */
  lemma SetBalanceReadBack(m: StorageMap, keccak: Bytes -> Word, user: Address, token: Address, amount: int, slot: nat)
    requires WriteBalance(m, keccak, user, token, amount, slot).Ok?
    ensures slot < WORD_LIMIT
    ensures MappingBalanceOf(WriteBalance(m, keccak, user, token, amount, slot).value, keccak, token, user, slot) == amount
  {
  }

  /** Exactly one word changes: every other (contract, slot) pair reads as before. */
  lemma SetBalanceFrame(m: StorageMap, keccak: Bytes -> Word, user: Address, token: Address, amount: int, slot: nat,
                        contract: Address, other: Word)
    requires WriteBalance(m, keccak, user, token, amount, slot).Ok?
    requires (contract, other) != (token, BalanceSlotKey(keccak, user, slot).value)
    ensures Lookup(WriteBalance(m, keccak, user, token, amount, slot).value, contract, other) == Lookup(m, contract, other)
  {
  }

  /** The written entry is the only key that may be new. */
  lemma SetBalanceKeys(m: StorageMap, keccak: Bytes -> Word, user: Address, token: Address, amount: int, slot: nat)
    requires WriteBalance(m, keccak, user, token, amount, slot).Ok?
    ensures WriteBalance(m, keccak, user, token, amount, slot).value.Keys ==
            m.Keys + {(token, BalanceSlotKey(keccak, user, slot).value)}
  {
  }

  /**
   * Last write wins: a second setBalance of the same entry replaces the
   * first; with equal amounts the second call changes nothing.
   */
  lemma SetBalanceLastWriteWins(m: StorageMap, keccak: Bytes -> Word, user: Address, token: Address,
                                first: int, second: int, slot: nat)
    requires WriteBalance(m, keccak, user, token, first, slot).Ok?
    ensures WriteBalance(WriteBalance(m, keccak, user, token, first, slot).value, keccak, user, token, second, slot) ==
            WriteBalance(m, keccak, user, token, second, slot)
    ensures WriteBalance(WriteBalance(m, keccak, user, token, first, slot).value, keccak, user, token, first, slot) ==
            WriteBalance(m, keccak, user, token, first, slot)
  {
    var write := BalanceOverride(keccak, user, first, slot).value;
    assert m[(token, write.0) := write.1][(token, write.0) := write.1] == m[(token, write.0) := write.1];
    if BalanceOverride(keccak, user, second, slot).Ok? {
      var rewrite := BalanceOverride(keccak, user, second, slot).value;
      assert rewrite.0 == write.0;
      assert m[(token, write.0) := write.1][(token, write.0) := rewrite.1] == m[(token, write.0) := rewrite.1];
    }
  }

  /**
   * Setting one holder's balance leaves another holder's balance in the same
   * mapping unchanged unless the hash collides on their two preimages.
   */
  lemma SetBalanceOtherHolder(m: StorageMap, keccak: Bytes -> Word, token: Address, user: Address, other: Address,
                              amount: int, slot: nat)
    requires WriteBalance(m, keccak, user, token, amount, slot).Ok?
    requires user != other
    requires BalanceSlotPreimage(user, slot) != BalanceSlotPreimage(other, slot) ==>
             keccak(BalanceSlotPreimage(user, slot).value) != keccak(BalanceSlotPreimage(other, slot).value)
    ensures slot < WORD_LIMIT
    ensures MappingBalanceOf(WriteBalance(m, keccak, user, token, amount, slot).value, keccak, token, other, slot) ==
            MappingBalanceOf(m, keccak, token, other, slot)
  {
    if BalanceSlotPreimage(user, slot) == BalanceSlotPreimage(other, slot) {
      BalanceSlotPreimageInjective(user, slot, other, slot);
      assert false;
    }
  }
}

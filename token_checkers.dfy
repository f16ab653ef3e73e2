/** Validation of SPL Token accounts (`TokenAccountInfo`): the account must
    belong to the Token or Token-2022 program, and its data is read at the
    token account layout's fixed offsets: the mint in bytes 0..32, the owner
    in bytes 32..64 and the balance, a little-endian u64, in bytes 64..72. */
module TokenCheckers {
  import opened Types
  import opened Wrappers
  import opened Accounts

  const MINT_OFFSET: nat := 0
  const OWNER_OFFSET: nat := 32
  const AMOUNT_OFFSET: nat := 64
  const AMOUNT_END: nat := 72

  /** A validated token account. */
  datatype TokenAccountInfo = TokenAccountInfo(info: AccountInfo)

  /** The account belongs to one of the two token programs. */
  predicate OwnedByTokenProgram(ids: ProgramIds, info: AccountInfo) {
    info.owner == ids.splToken || info.owner == ids.token2022
  }

  /** `TokenAccountInfo::new`: the owner is checked before the data is
      borrowed; data shorter than a mint key panics at the slice. */
  function New(ids: ProgramIds, info: AccountInfo, mint: Pubkey): (r: Result<TokenAccountInfo>)
    ensures !OwnedByTokenProgram(ids, info) ==> r == Err(IllegalOwner)
    ensures OwnedByTokenProgram(ids, info) && info.borrow == MutablyBorrowed ==> r == Err(AccountBorrowFailed)
    ensures OwnedByTokenProgram(ids, info) && info.borrow != MutablyBorrowed && |info.data| < OWNER_OFFSET ==>
              r == Err(Panic)
    ensures r.Ok? <==>
              OwnedByTokenProgram(ids, info) && info.borrow != MutablyBorrowed
              && |info.data| >= OWNER_OFFSET && info.data[MINT_OFFSET..OWNER_OFFSET] == mint
    ensures r.Ok? ==> r.value == TokenAccountInfo(info)
    ensures r.Err? && OwnedByTokenProgram(ids, info) && info.borrow != MutablyBorrowed && |info.data| >= OWNER_OFFSET ==>
              r.error == InvalidAccountData
  {
    var owned :- Require(info.owner == ids.splToken || info.owner == ids.token2022, IllegalOwner);
    var bytes :- TryBorrowData(info);
    if |bytes| < OWNER_OFFSET then Err(Panic)
    else
      var minted :- Require(bytes[MINT_OFFSET..OWNER_OFFSET] == mint, InvalidAccountData);
      Ok(TokenAccountInfo(info))
  }

  /** `get_owner`: bytes 32..64. The borrow and the slice are unwrapped, so
      a borrowed or short account panics. */
  function GetOwner(t: TokenAccountInfo): (r: Result<Pubkey>)
    ensures r.Ok? <==> t.info.borrow != MutablyBorrowed && |t.info.data| >= AMOUNT_OFFSET
    ensures r.Ok? ==> r.value == t.info.data[OWNER_OFFSET..AMOUNT_OFFSET]
    ensures r.Err? ==> r.error == Panic
  {
    match TryBorrowData(t.info)
    case Err(_) => Err(Panic)
    case Ok(bytes) =>
      if |bytes| < AMOUNT_OFFSET then Err(Panic) else Ok(bytes[OWNER_OFFSET..AMOUNT_OFFSET])
  }

  /** `get_balance_atoms`: bytes 64..72 as a little-endian u64, panicking
      like `get_owner`. */
  function GetBalanceAtoms(t: TokenAccountInfo): (r: Result<u64>)
    ensures r.Ok? <==> t.info.borrow != MutablyBorrowed && |t.info.data| >= AMOUNT_END
    ensures r.Ok? ==> r.value == LeDecode(t.info.data[AMOUNT_OFFSET..AMOUNT_END])
    ensures r.Err? ==> r.error == Panic
  {
    match TryBorrowData(t.info)
    case Err(_) => Err(Panic)
    case Ok(bytes) =>
      if |bytes| < AMOUNT_END then Err(Panic) else Ok(U64FromLeBytes(bytes[AMOUNT_OFFSET..AMOUNT_END]))
  }

  /** `TokenAccountInfo::new_with_owner`: `new`, then the owner in bytes
      32..64, whose mismatch is an owner error. */
  function NewWithOwner(ids: ProgramIds, info: AccountInfo, mint: Pubkey, owner: Pubkey): (r: Result<TokenAccountInfo>)
    ensures New(ids, info, mint).Err? ==> r == Err(New(ids, info, mint).error)
    ensures New(ids, info, mint).Ok? && |info.data| < AMOUNT_OFFSET ==> r == Err(Panic)
    ensures r.Ok? <==>
              New(ids, info, mint).Ok? && |info.data| >= AMOUNT_OFFSET
              && info.data[OWNER_OFFSET..AMOUNT_OFFSET] == owner
    ensures r.Ok? ==> r.value == TokenAccountInfo(info)
    ensures r.Err? && New(ids, info, mint).Ok? && |info.data| >= AMOUNT_OFFSET ==> r.error == IllegalOwner
  {
    var t :- New(ids, info, mint);
    // `new` borrowed the same data and released it, so this borrow succeeds too.
    var bytes := TryBorrowData(info).value;
    if |bytes| < AMOUNT_OFFSET then Err(Panic)
    else
      var owned :- Require(bytes[OWNER_OFFSET..AMOUNT_OFFSET] == owner, IllegalOwner);
      Ok(t)
  }

  /** `TokenAccountInfo::new_with_owner_and_key`: the account's key is
      checked before anything else. */
  function NewWithOwnerAndKey(ids: ProgramIds, info: AccountInfo, mint: Pubkey, owner: Pubkey, key: Pubkey)
    : (r: Result<TokenAccountInfo>)
    ensures info.key != key ==> r == Err(InvalidInstructionData)
    ensures info.key == key ==> r == NewWithOwner(ids, info, mint, owner)
  {
    var keyed :- Require(info.key == key, InvalidInstructionData);
    NewWithOwner(ids, info, mint, owner)
  }

  /** An account accepted for `owner` reports `owner` as its owner. */
  lemma NewWithOwnerThenGetOwner(ids: ProgramIds, info: AccountInfo, mint: Pubkey, owner: Pubkey)
    requires NewWithOwner(ids, info, mint, owner).Ok?
    ensures GetOwner(NewWithOwner(ids, info, mint, owner).value) == Ok(owner)
  {
  }

  /** The token account laid out from a mint, an owner and a balance: the
      mint, the owner and the balance's eight little-endian bytes, then any
      further fields. */
  function TokenAccountData(mint: Pubkey, owner: Pubkey, amount: u64, rest: seq<u8>): (data: seq<u8>)
    ensures |data| == AMOUNT_END + |rest|
  {
    Pow256Of8();
    mint + owner + LeEncode(amount, 8) + rest
  }

  /** Validating a readable token-program account laid out from `mint`,
      `owner` and `amount` succeeds, and reading it back gives `owner` and
      `amount`. */
  lemma TokenAccountRoundTrip(ids: ProgramIds, key: Pubkey, tokenProgram: Pubkey, borrow: BorrowState,
                              mint: Pubkey, owner: Pubkey, amount: u64, rest: seq<u8>)
    requires tokenProgram == ids.splToken || tokenProgram == ids.token2022
    requires borrow != MutablyBorrowed
    ensures var info := AccountInfo(key, tokenProgram, TokenAccountData(mint, owner, amount, rest), borrow);
            var r := NewWithOwner(ids, info, mint, owner);
            r == Ok(TokenAccountInfo(info))
            && GetOwner(r.value) == Ok(owner)
            && GetBalanceAtoms(r.value) == Ok(amount)
  {
    var data := TokenAccountData(mint, owner, amount, rest);
    Pow256Of8();
    assert data[MINT_OFFSET..OWNER_OFFSET] == mint;
    assert data[OWNER_OFFSET..AMOUNT_OFFSET] == owner;
    assert data[AMOUNT_OFFSET..AMOUNT_END] == LeEncode(amount, 8);
    LeDecodeEncode(amount, 8);
  }
}

/** The parts of a runtime account the validators and loaders look at: its
    key, owning program, data bytes and the borrow state of those bytes,
    plus the program identities they are checked against. */
module Accounts {
  import opened Types
  import opened Wrappers

  /** Outstanding borrows of an account's data at the time of a call. */
  datatype BorrowState = Unborrowed | Borrowed | MutablyBorrowed

  datatype AccountInfo = AccountInfo(key: Pubkey, owner: Pubkey, data: seq<u8>, borrow: BorrowState)

  /** The program identities accounts are checked against: this program,
      the SPL Token program and the Token-2022 program. */
  datatype ProgramIds = ProgramIds(manifest: Pubkey, splToken: Pubkey, token2022: Pubkey)

  /** `try_borrow_data`: a shared borrow fails only while the data is
      mutably borrowed. */
  function TryBorrowData(info: AccountInfo): (r: Result<seq<u8>>)
    ensures r.Ok? <==> info.borrow != MutablyBorrowed
    ensures r.Ok? ==> r.value == info.data
    ensures r.Err? ==> r.error == AccountBorrowFailed
  {
    if info.borrow == MutablyBorrowed then Err(AccountBorrowFailed) else Ok(info.data)
  }

  /** `try_borrow_mut_data`: a mutable borrow fails while any borrow is
      outstanding. */
  function TryBorrowMutData(info: AccountInfo): (r: Result<seq<u8>>)
    ensures r.Ok? <==> info.borrow == Unborrowed
    ensures r.Ok? ==> r.value == info.data
    ensures r.Err? ==> r.error == AccountBorrowFailed
  {
    if info.borrow != Unborrowed then Err(AccountBorrowFailed) else Ok(info.data)
  }
}

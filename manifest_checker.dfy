/** Validation of accounts this program owns (`ManifestAccountInfo`): the
    owner check, the header discriminant check of `new` and the "exactly a
    zeroed header" check of `new_init`. The checker is generic over the
    header type in the program; here the type is a `HeaderKind`, which
    fixes the header size and the discriminant expected in the header's
    first eight bytes. */
module ManifestChecker {
  import opened Types
  import opened Wrappers
  import opened Constants
  import opened Accounts

  /** The header types the checker is used with. */
  datatype HeaderKind = MarketHeader | GlobalHeader

  /** `size_of::<T>()` of the header type. */
  function HeaderSize(kind: HeaderKind): nat {
    if kind == MarketHeader then MARKET_FIXED_SIZE else GLOBAL_FIXED_SIZE
  }

  /** The discriminant the header type's `verify_discriminant` expects. */
  function ExpectedDiscriminant(kind: HeaderKind): u64 {
    if kind == MarketHeader then MARKET_FIXED_DISCRIMINANT else GLOBAL_FIXED_DISCRIMINANT
  }

  /** A validated account of this program, with the header type it was
      validated as. */
  datatype ManifestAccountInfo = ManifestAccountInfo(info: AccountInfo, kind: HeaderKind)

  /** `verify_owned_by_manifest`. */
  function VerifyOwnedByManifest(ids: ProgramIds, owner: Pubkey): (r: Result<()>)
    ensures r.Ok? <==> owner == ids.manifest
    ensures r.Err? ==> r.error == IllegalOwner
  {
    Require(owner == ids.manifest, IllegalOwner)
  }

  /** The header's `verify_discriminant`, read off the header's bytes. It is
      `Market.VerifyDiscriminant` or `GlobalLedger.VerifyDiscriminant`
      applied to the header those bytes hold: both headers start with the
      discriminant as a little-endian u64, so the check is on its first
      eight bytes. */
  function VerifyHeaderDiscriminant(kind: HeaderKind, header: seq<u8>): (r: Result<()>)
    requires |header| == HeaderSize(kind)
    ensures r.Ok? <==> LeDecode(header[..8]) == ExpectedDiscriminant(kind)
    ensures r.Err? ==> r.error == InvalidAccountData
  {
    Require(U64FromLeBytes(header[..8]) == ExpectedDiscriminant(kind), InvalidAccountData)
  }

  /** `ManifestAccountInfo::new`: the owner is checked before the data is
      borrowed; splitting off a header longer than the data panics. */
  function New(ids: ProgramIds, kind: HeaderKind, info: AccountInfo): (r: Result<ManifestAccountInfo>)
    ensures info.owner != ids.manifest ==> r == Err(IllegalOwner)
    ensures info.owner == ids.manifest && info.borrow == MutablyBorrowed ==> r == Err(AccountBorrowFailed)
    ensures info.owner == ids.manifest && info.borrow != MutablyBorrowed && |info.data| < HeaderSize(kind) ==>
              r == Err(Panic)
    ensures r.Ok? <==>
              info.owner == ids.manifest && info.borrow != MutablyBorrowed && |info.data| >= HeaderSize(kind)
              && LeDecode(info.data[..8]) == ExpectedDiscriminant(kind)
    ensures r.Ok? ==> r.value == ManifestAccountInfo(info, kind)
    ensures r.Err? && info.owner == ids.manifest && info.borrow != MutablyBorrowed && |info.data| >= HeaderSize(kind) ==>
              r.error == InvalidAccountData
  {
    var owned :- VerifyOwnedByManifest(ids, info.owner);
    var bytes :- TryBorrowData(info);
    if |bytes| < HeaderSize(kind) then Err(Panic)
    else
      var header := bytes[..HeaderSize(kind)];
      assert header[..8] == bytes[..8];
      var verified :- VerifyHeaderDiscriminant(kind, header);
      Ok(ManifestAccountInfo(info, kind))
  }

  /** Every byte is zero. */
  predicate AllZero(bytes: seq<u8>) {
    forall i :: 0 <= i < |bytes| ==> bytes[i] == 0
  }

  /** `verify_uninitialized`: the data is exactly one header long and all
      zero. */
  function VerifyUninitialized(kind: HeaderKind, info: AccountInfo): (r: Result<()>)
    ensures r.Ok? <==> info.borrow != MutablyBorrowed && |info.data| == HeaderSize(kind) && AllZero(info.data)
    ensures info.borrow == MutablyBorrowed ==> r == Err(AccountBorrowFailed)
    ensures r.Err? && info.borrow != MutablyBorrowed ==> r.error == InvalidAccountData
  {
    var bytes :- TryBorrowData(info);
    var sized :- Require(HeaderSize(kind) == |bytes|, InvalidAccountData);
    Require(AllZero(bytes), InvalidAccountData)
  }

  /** `ManifestAccountInfo::new_init`: the owner first, then the zeroed
      header. */
  function NewInit(ids: ProgramIds, kind: HeaderKind, info: AccountInfo): (r: Result<ManifestAccountInfo>)
    ensures info.owner != ids.manifest ==> r == Err(IllegalOwner)
    ensures r.Ok? <==>
              info.owner == ids.manifest && info.borrow != MutablyBorrowed
              && |info.data| == HeaderSize(kind) && AllZero(info.data)
    ensures r.Ok? ==> r.value == ManifestAccountInfo(info, kind)
  {
    var owned :- VerifyOwnedByManifest(ids, info.owner);
    var uninitialized :- VerifyUninitialized(kind, info);
    Ok(ManifestAccountInfo(info, kind))
  }

  /** An account `new_init` accepts is one `new` rejects: its zeroed header
      carries the discriminant 0, which neither header type expects. */
  lemma NewInitExcludesNew(ids: ProgramIds, kind: HeaderKind, info: AccountInfo)
    requires NewInit(ids, kind, info).Ok?
    ensures New(ids, kind, info) == Err(InvalidAccountData)
  {
    var head := info.data[..8];
    assert forall i :: 0 <= i < |head| ==> head[i] == info.data[i];
    LeDecodeZero(head);
  }

  /** An account of this program, readable, whose data starts with the
      little-endian encoding of the expected discriminant and is at least a
      header long, is accepted by `new`. */
  lemma NewAcceptsEncodedHeader(ids: ProgramIds, kind: HeaderKind, info: AccountInfo)
    requires info.owner == ids.manifest && info.borrow != MutablyBorrowed
    requires |info.data| >= HeaderSize(kind)
    requires info.data[..8] == LeEncode(ExpectedDiscriminant(kind), 8)
    ensures New(ids, kind, info) == Ok(ManifestAccountInfo(info, kind))
  {
    Pow256Of8();
    LeDecodeEncode(ExpectedDiscriminant(kind), 8);
  }

  /** `new` reads only the header: accounts that agree on owner, borrow
      state and the header's bytes are validated alike. */
  lemma NewReadsOnlyHeader(ids: ProgramIds, kind: HeaderKind, a: AccountInfo, b: AccountInfo)
    requires a.owner == b.owner && a.borrow == b.borrow
    requires |a.data| >= HeaderSize(kind) && |b.data| >= HeaderSize(kind)
    requires a.data[..HeaderSize(kind)] == b.data[..HeaderSize(kind)]
    ensures New(ids, kind, a).Ok? <==> New(ids, kind, b).Ok?
    ensures New(ids, kind, a).Err? ==> New(ids, kind, b) == Err(New(ids, kind, a).error)
  {
    assert a.data[..8] == a.data[..HeaderSize(kind)][..8];
    assert b.data[..8] == b.data[..HeaderSize(kind)][..8];
  }
}

/** The on-chain profile registry program (an Anchor program): a profile account per
    handle, created once by `initialize_profile` and changed field by field by
    `update_enc_pk` and `update_allowlist`, only on behalf of its owner. */
module Registry {
  import opened Bytes
  import opened Wrappers

  const MAX_HANDLE_LEN: nat := 32
  const MAX_ALLOWLIST_LEN: nat := 32

  /** Bytes of Anchor's account discriminator, written before the fields. */
  const DISCRIMINATOR_LEN: nat := 8

  /** `Profile::SIZE`: the space allocated for a profile account. A handle is counted
      at its maximum length and the allowlist at its maximum count. */
  const SIZE: nat := DISCRIMINATOR_LEN + 32 + (4 + MAX_HANDLE_LEN) + 32 + (4 + 32 * MAX_ALLOWLIST_LEN) + 1

  type Pubkey = Bytes32

  /** The `Profile` account. `handle` is the byte string of the Rust `String`. */
  datatype Profile = Profile(
    owner: Pubkey,
    handle: seq<byte>,
    encPk: Bytes32,
    allowlist: seq<Pubkey>,
    bump: byte)

  /** The program's own error codes. */
  datatype ErrorCode = InvalidHandle | AllowlistTooLarge

  /** What a rejected instruction reports: one of the program's codes, or a failed
      account constraint that Anchor checks before the instruction body runs. */
  datatype ProgramError =
    | Custom(code: ErrorCode)
    | AccountAlreadyInUse     // `init` on a handle whose account already exists
    | AccountNotInitialized   // an update names a handle with no account
    | ConstraintHasOne        // `has_one = owner`: the signer is not the stored owner

  /** Limits `initialize_profile` enforces (and `update_allowlist` keeps). */
  predicate WithinLimits(p: Profile)
  {
    1 <= |p.handle| <= MAX_HANDLE_LEN && |p.allowlist| <= MAX_ALLOWLIST_LEN
  }

  /** The two `require!` checks of `initialize_profile`, in their order. */
  function ValidateInit(handle: seq<byte>, allowlist: seq<Pubkey>): (r: Option<ErrorCode>)
    ensures r == None <==> 1 <= |handle| <= MAX_HANDLE_LEN && |allowlist| <= MAX_ALLOWLIST_LEN
    ensures r == Some(InvalidHandle) <==> |handle| == 0 || |handle| > MAX_HANDLE_LEN
    ensures r == Some(AllowlistTooLarge) <==>
              1 <= |handle| <= MAX_HANDLE_LEN && |allowlist| > MAX_ALLOWLIST_LEN
  {
    if handle == [] || |handle| > MAX_HANDLE_LEN then Some(InvalidHandle)
    else if |allowlist| > MAX_ALLOWLIST_LEN then Some(AllowlistTooLarge)
    else None
  }

  // ---------------------------------------------------------------------------
  // Borsh serialisation of the account fields, in declaration order.

  /** A `Vec<Pubkey>` body: the keys back to back. */
  function Flatten(keys: seq<Pubkey>): (bytes: seq<byte>)
    ensures |bytes| == 32 * |keys|
  {
    if keys == [] then [] else keys[0] + Flatten(keys[1..])
  }

  /** Key `i` of a flattened list occupies bytes `32*i .. 32*i + 32`. */
  lemma {:induction false} FlattenAt(keys: seq<Pubkey>, i: nat)
    requires i < |keys|
    ensures 32 * i + 32 <= |Flatten(keys)|
    ensures Flatten(keys)[32 * i .. 32 * i + 32] == keys[i]
  {
    if i > 0 {
      FlattenAt(keys[1..], i - 1);
      var rest := Flatten(keys[1..]);
      assert Flatten(keys) == keys[0] + rest;
      assert Flatten(keys)[32 * i .. 32 * i + 32] == rest[32 * (i - 1) .. 32 * (i - 1) + 32];
    }
  }

  /** Borsh can encode the string and vector lengths as `u32`. */
  predicate Encodable(p: Profile)
  {
    |p.handle| < Pow256(4) && |p.allowlist| < Pow256(4)
  }

  /** The account data after the discriminator: owner, u32-LE length and handle bytes,
      enc_pk, u32-LE count and keys, bump. */
  function Serialize(p: Profile): (bytes: seq<byte>)
    requires Encodable(p)
    ensures |bytes| == 32 + 4 + |p.handle| + 32 + 4 + 32 * |p.allowlist| + 1
  {
    p.owner + ToLE(|p.handle|, 4) + p.handle + p.encPk
      + ToLE(|p.allowlist|, 4) + Flatten(p.allowlist) + [p.bump]
  }

  /** `Profile::SIZE` is 1137 bytes, enough for every profile within the limits, and
      exactly enough for one with a 32-byte handle and 32 allowed keys. */
  lemma SerializedFits(p: Profile)
    requires WithinLimits(p)
    ensures SIZE == 1137
    ensures Encodable(p) && DISCRIMINATOR_LEN + |Serialize(p)| <= SIZE
    ensures |p.handle| == MAX_HANDLE_LEN && |p.allowlist| == MAX_ALLOWLIST_LEN ==>
              DISCRIMINATOR_LEN + |Serialize(p)| == SIZE
  {
    assert Pow256(4) == 4294967296;
  }

  // ---------------------------------------------------------------------------
  // The program's accounts, one per handle (the PDA seeded by "profile" and the handle).

  class ProfileRegistry {
    var accounts: map<seq<byte>, Profile>

    /** Every account sits at its own handle's address and respects the limits. */
    ghost predicate Valid()
      reads this
    {
      forall h :: h in accounts ==> accounts[h].handle == h && WithinLimits(accounts[h])
    }

    constructor ()
      ensures Valid() && accounts == map[]
    {
      accounts := map[];
    }

    /** `initialize_profile`, signed by `signer`; `bump` is the canonical bump Anchor
        found for the handle's address. */
    method InitializeProfile(signer: Pubkey, handle: seq<byte>, encPk: Bytes32,
                             allowlist: seq<Pubkey>, bump: byte)
      returns (r: Result<(), ProgramError>)
      requires Valid()
      modifies this
      ensures Valid()
      ensures handle in old(accounts) ==> r == Failure(AccountAlreadyInUse)
      ensures handle !in old(accounts) && ValidateInit(handle, allowlist).Some? ==>
                r == Failure(Custom(ValidateInit(handle, allowlist).value))
      ensures r.Success? <==> handle !in old(accounts) && ValidateInit(handle, allowlist) == None
      ensures r.Success? ==>
                accounts == old(accounts)[handle := Profile(signer, handle, encPk, allowlist, bump)]
      ensures r.Failure? ==> accounts == old(accounts)
    {
      if handle in accounts {
        return Failure(AccountAlreadyInUse);
      }
      if handle == [] || |handle| > MAX_HANDLE_LEN {
        return Failure(Custom(InvalidHandle));
      }
      if |allowlist| > MAX_ALLOWLIST_LEN {
        return Failure(Custom(AllowlistTooLarge));
      }
      accounts := accounts[handle := Profile(signer, handle, encPk, allowlist, bump)];
      r := Success(());
    }

    /** `update_enc_pk`: replaces the encryption key and nothing else. */
    method UpdateEncPk(signer: Pubkey, handle: seq<byte>, newEncPk: Bytes32)
      returns (r: Result<(), ProgramError>)
      requires Valid()
      modifies this
      ensures Valid()
      ensures handle !in old(accounts) ==> r == Failure(AccountNotInitialized)
      ensures handle in old(accounts) && old(accounts)[handle].owner != signer ==>
                r == Failure(ConstraintHasOne)
      ensures r.Success? <==> handle in old(accounts) && old(accounts)[handle].owner == signer
      ensures r.Success? ==>
                accounts == old(accounts)[handle := old(accounts)[handle].(encPk := newEncPk)]
      ensures r.Failure? ==> accounts == old(accounts)
    {
      if handle !in accounts {
        return Failure(AccountNotInitialized);
      }
      var profile := accounts[handle];
      if profile.owner != signer {
        return Failure(ConstraintHasOne);
      }
      accounts := accounts[handle := profile.(encPk := newEncPk)];
      r := Success(());
    }

    /** `update_allowlist`: replaces the allowlist and nothing else, within the limit. */
    method UpdateAllowlist(signer: Pubkey, handle: seq<byte>, allowlist: seq<Pubkey>)
      returns (r: Result<(), ProgramError>)
      requires Valid()
      modifies this
      ensures Valid()
      ensures handle !in old(accounts) ==> r == Failure(AccountNotInitialized)
      ensures handle in old(accounts) && old(accounts)[handle].owner != signer ==>
                r == Failure(ConstraintHasOne)
      ensures (handle in old(accounts) && old(accounts)[handle].owner == signer &&
               |allowlist| > MAX_ALLOWLIST_LEN) ==> r == Failure(Custom(AllowlistTooLarge))
      ensures r.Success? <==> handle in old(accounts) && old(accounts)[handle].owner == signer &&
                              |allowlist| <= MAX_ALLOWLIST_LEN
      ensures r.Success? ==>
                accounts == old(accounts)[handle := old(accounts)[handle].(allowlist := allowlist)]
      ensures r.Failure? ==> accounts == old(accounts)
    {
      if handle !in accounts {
        return Failure(AccountNotInitialized);
      }
      var profile := accounts[handle];
      if profile.owner != signer {
        return Failure(ConstraintHasOne);
      }
      if |allowlist| > MAX_ALLOWLIST_LEN {
        return Failure(Custom(AllowlistTooLarge));
      }
      accounts := accounts[handle := profile.(allowlist := allowlist)];
      r := Success(());
    }
  }

  /** Every stored account fits the space `init` allocated for it. */
  lemma StoredProfilesFit(accounts: map<seq<byte>, Profile>, h: seq<byte>)
    requires forall k :: k in accounts ==> WithinLimits(accounts[k])
    requires h in accounts
    ensures Encodable(accounts[h]) && DISCRIMINATOR_LEN + |Serialize(accounts[h])| <= SIZE
  {
    SerializedFits(accounts[h]);
  }

  /** The test's scenario: "alice" is created with the signer as the one allowed key and
      the stored account reads back as given; a second creation of "alice" is refused and
      only the owner can change the key. */
  method CreateAliceScenario(wallet: Pubkey, stranger: Pubkey, encPk: Bytes32, newPk: Bytes32)
    requires wallet != stranger
  {
    var registry := new ProfileRegistry();
    var alice: seq<byte> := [97, 108, 105, 99, 101];
    var r := registry.InitializeProfile(wallet, alice, encPk, [wallet], 254);
    assert r.Success?;
    assert registry.accounts[alice].handle == alice;
    assert registry.accounts[alice].owner == wallet;
    assert |registry.accounts[alice].allowlist| == 1;
    r := registry.InitializeProfile(stranger, alice, newPk, [], 253);
    assert r == Failure(AccountAlreadyInUse);
    r := registry.UpdateEncPk(stranger, alice, newPk);
    assert r == Failure(ConstraintHasOne);
    r := registry.UpdateEncPk(wallet, alice, newPk);
    assert registry.accounts[alice] == Profile(wallet, alice, newPk, [wallet], 254);
  }
}

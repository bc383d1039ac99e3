/** The backend's reading of profile accounts: the cursor decoder for the account
    data and the allowlist test applied to an inbox viewer. */
module Chain {
  import opened Bytes
  import opened Wrappers
  import Registry

  type Pubkey = Registry.Pubkey

  /** A decoded profile. `encPk` is whatever the slice held: Python does not check
      that it is 32 bytes long. */
  datatype ProfileOnchain = ProfileOnchain(
    owner: Pubkey,
    handle: seq<byte>,
    encPk: seq<byte>,
    allowlist: seq<Pubkey>,
    bump: byte)

  // ---------------------------------------------------------------------------
  // The profile address: `derive_profile_pda` seeds `find_program_address` with
  // `b"profile"` and the handle's UTF-8 bytes. A seed longer than 32 bytes makes it
  // raise; `b"profile"` is 7 bytes, so only the handle can be too long.

  const MAX_SEED_LEN: nat := 32

  /** The number of bytes a character takes in UTF-8. */
  function Utf8Width(c: char): (w: nat)
    ensures 1 <= w <= 4
    ensures w == 1 <==> c as int < 0x80
  {
    if c as int < 0x80 then 1
    else if c as int < 0x800 then 2
    else if c as int < 0x10000 then 3
    else 4
  }

  /** `len(s.encode("utf-8"))`: one to four bytes per character. */
  function Utf8Len(s: string): (n: nat)
    ensures |s| <= n <= 4 * |s|
  {
    if s == [] then 0 else Utf8Width(s[0]) + Utf8Len(s[1..])
  }

  /** The handle seed fits, so `derive_profile_pda` returns an address. */
  predicate PdaDerivable(handle: string)
  {
    Utf8Len(handle) <= MAX_SEED_LEN
  }

  /** An ASCII handle takes one byte per character, so one of at most 32 characters
      always has an address. */
  lemma {:induction false} AsciiUtf8Len(s: string)
    requires forall i :: 0 <= i < |s| ==> s[i] as int < 0x80
    ensures Utf8Len(s) == |s|
    ensures |s| <= MAX_SEED_LEN ==> PdaDerivable(s)
  {
    if s != [] {
      AsciiUtf8Len(s[1..]);
    }
  }

  /** Characters from U+0080 to U+07FF (such as 'é') take two bytes each, so a handle of
      17 of them is within 32 characters but its seed is 34 bytes. */
  lemma {:induction false} TwoByteUtf8Len(s: string)
    requires forall i :: 0 <= i < |s| ==> 0x80 <= s[i] as int < 0x800
    ensures Utf8Len(s) == 2 * |s|
    ensures PdaDerivable(s) <==> |s| <= MAX_SEED_LEN / 2
  {
    if s != [] {
      TwoByteUtf8Len(s[1..]);
    }
  }

  /** `Pubkey.from_bytes` raised on a slice that is not 32 bytes long. */
  datatype ParseError = MalformedPubkey

  // ---------------------------------------------------------------------------
  // The account layout in closed form: where each field starts.

  const OWNER_OFFSET: nat := 8
  const HANDLE_LEN_OFFSET: nat := 40
  const HANDLE_OFFSET: nat := 44

  function HandleLen(data: seq<byte>): nat
  {
    FromLE(Slice(data, HANDLE_LEN_OFFSET, HANDLE_LEN_OFFSET + 4))
  }

  function EncPkOffset(data: seq<byte>): nat
  {
    HANDLE_OFFSET + HandleLen(data)
  }

  function AllowLen(data: seq<byte>): nat
  {
    FromLE(Slice(data, EncPkOffset(data) + 32, EncPkOffset(data) + 36))
  }

  function KeysOffset(data: seq<byte>): nat
  {
    EncPkOffset(data) + 36
  }

  /** Where the cursor stands after the allowlist: the bump byte, if there is one. */
  function EndOffset(data: seq<byte>): nat
  {
    KeysOffset(data) + 32 * AllowLen(data)
  }

  /** The `n` keys stored back to back from `off`. */
  function Keys(data: seq<byte>, off: nat, n: nat): (keys: seq<Pubkey>)
    requires off + 32 * n <= |data|
    ensures |keys| == n
    ensures forall i :: 0 <= i < n ==> keys[i] == data[off + 32 * i .. off + 32 * i + 32]
    decreases n
  {
    if n == 0 then [] else [data[off .. off + 32]] + Keys(data, off + 32, n - 1)
  }

  /** The meaning of the account data: the owner is bytes 8..40 (the discriminator is
      skipped), a u32-LE handle length at 40 is followed by the handle, then 32 bytes of
      enc_pk, a u32-LE key count and that many 32-byte keys, then an optional bump byte.
      Slices past the end are truncated; only a short owner or key fails. */
  function DecodeProfile(data: seq<byte>): (r: Result<ProfileOnchain, ParseError>)
    ensures r.Success? <==>
              OWNER_OFFSET + 32 <= |data| && (AllowLen(data) == 0 || EndOffset(data) <= |data|)
    ensures r.Success? ==>
              && |r.value.handle| <= HandleLen(data) < Pow256(4)
              && (|r.value.handle| < HandleLen(data) <==> 0 < HandleLen(data) && |data| < EncPkOffset(data))
              && |r.value.encPk| <= 32
              && |r.value.allowlist| == AllowLen(data) < Pow256(4)
  {
    if |data| < OWNER_OFFSET + 32 then Failure(MalformedPubkey)
    else if AllowLen(data) > 0 && EndOffset(data) > |data| then Failure(MalformedPubkey)
    else
      var keys := if AllowLen(data) == 0 then [] else Keys(data, KeysOffset(data), AllowLen(data));
      Success(ProfileOnchain(
        data[OWNER_OFFSET .. OWNER_OFFSET + 32],
        Slice(data, HANDLE_OFFSET, EncPkOffset(data)),
        Slice(data, EncPkOffset(data), EncPkOffset(data) + 32),
        keys,
        if EndOffset(data) < |data| then data[EndOffset(data)] else 0))
  }

  /** `parse_profile`: walks a cursor through the account data, field by field. */
  method ParseProfile(data: seq<byte>) returns (r: Result<ProfileOnchain, ParseError>)
    ensures r == DecodeProfile(data)
  {
    var idx: nat := 8;
    var ownerBytes := Slice(data, idx, idx + 32);
    if |ownerBytes| != 32 {
      return Failure(MalformedPubkey);
    }
    var owner: Pubkey := ownerBytes;
    idx := idx + 32;

    var handleLen := FromLE(Slice(data, idx, idx + 4));
    idx := idx + 4;
    var handle := Slice(data, idx, idx + handleLen);
    idx := idx + handleLen;
    assert idx == EncPkOffset(data);

    var encPk := Slice(data, idx, idx + 32);
    idx := idx + 32;

    var allowLen := FromLE(Slice(data, idx, idx + 4));
    idx := idx + 4;
    assert idx == KeysOffset(data) && allowLen == AllowLen(data);
    var allowlist: seq<Pubkey> := [];
    ghost var start := idx;
    for k := 0 to allowLen
      invariant idx == start + 32 * k
      invariant idx <= |data| || k == 0
      invariant |allowlist| == k
      invariant forall i :: 0 <= i < k ==> allowlist[i] == data[start + 32 * i .. start + 32 * i + 32]
    {
      var key := Slice(data, idx, idx + 32);
      if |key| != 32 {
        assert EndOffset(data) >= idx + 32 > |data|;
        return Failure(MalformedPubkey);
      }
      allowlist := allowlist + [key];
      idx := idx + 32;
    }
    assert idx == EndOffset(data) && (allowLen > 0 ==> idx <= |data|);
    assert allowLen > 0 ==> allowlist == Keys(data, start, allowLen);

    var bump := if idx < |data| then data[idx] else 0;
    r := Success(ProfileOnchain(owner, handle, encPk, allowlist, bump));
  }

  // ---------------------------------------------------------------------------
  // Properties of the layout.

  /** Parsing never looks past the bump byte: cutting the data anywhere after it, or
      padding it (an account is allocated at `Profile::SIZE` bytes), changes nothing. */
  lemma DecodeReadsOnlyPrefix(data: seq<byte>, k: nat)
    requires EndOffset(data) < k <= |data|
    ensures DecodeProfile(data[..k]) == DecodeProfile(data)
  {
    var d := data[..k];
    assert Slice(d, HANDLE_LEN_OFFSET, HANDLE_LEN_OFFSET + 4) == Slice(data, HANDLE_LEN_OFFSET, HANDLE_LEN_OFFSET + 4);
    assert EncPkOffset(d) == EncPkOffset(data);
    assert Slice(d, EncPkOffset(d) + 32, EncPkOffset(d) + 36) == Slice(data, EncPkOffset(data) + 32, EncPkOffset(data) + 36);
    assert EndOffset(d) == EndOffset(data);
    assert Slice(d, HANDLE_OFFSET, EncPkOffset(d)) == Slice(data, HANDLE_OFFSET, EncPkOffset(data));
    assert Slice(d, EncPkOffset(d), EncPkOffset(d) + 32) == Slice(data, EncPkOffset(data), EncPkOffset(data) + 32);
    if AllowLen(data) > 0 {
      var n := AllowLen(data);
      var off := KeysOffset(data);
      var a, b := Keys(d, off, n), Keys(data, off, n);
      forall i | 0 <= i < n ensures a[i] == b[i] {
        assert d[off + 32 * i .. off + 32 * i + 32] == data[off + 32 * i .. off + 32 * i + 32];
      }
      assert a == b;
    }
    assert d[OWNER_OFFSET .. OWNER_OFFSET + 32] == data[OWNER_OFFSET .. OWNER_OFFSET + 32];
    assert d[EndOffset(d)] == data[EndOffset(data)];
  }

  /** The view the backend gets of a program account. */
  function View(p: Registry.Profile): ProfileOnchain
  {
    ProfileOnchain(p.owner, p.handle, p.encPk, p.allowlist, p.bump)
  }

  lemma KeysOfFlatten(data: seq<byte>, off: nat, keys: seq<Pubkey>)
    requires off + 32 * |keys| <= |data|
    requires data[off .. off + 32 * |keys|] == Registry.Flatten(keys)
    ensures Keys(data, off, |keys|) == keys
  {
    var got := Keys(data, off, |keys|);
    forall i | 0 <= i < |keys| ensures got[i] == keys[i] {
      Registry.FlattenAt(keys, i);
      SliceOfSlice(data, off, off + 32 * |keys|, 32 * i, 32 * i + 32);
    }
  }

  /** The bytes of a program account holding `p`. */
  function Account(disc: seq<byte>, p: Registry.Profile, padding: seq<byte>): seq<byte>
    requires Registry.Encodable(p)
  {
    disc + Registry.Serialize(p) + padding
  }

  /** Where the program put each field, relative to the start of the serialised fields. */
  lemma SerializedFields(p: Registry.Profile)
    requires Registry.Encodable(p)
    ensures var s, h, n := Registry.Serialize(p), |p.handle|, |p.allowlist|;
      && s[..32] == p.owner
      && s[32..36] == ToLE(h, 4)
      && s[36..36 + h] == p.handle
      && s[36 + h..68 + h] == p.encPk
      && s[68 + h..72 + h] == ToLE(n, 4)
      && s[72 + h..72 + h + 32 * n] == Registry.Flatten(p.allowlist)
      && s[72 + h + 32 * n] == p.bump
  {
  }

  /** A slice of the fields is the same slice of the account, 8 bytes further on. */
  lemma AccountSlice(disc: seq<byte>, p: Registry.Profile, padding: seq<byte>, x: nat, y: nat)
    requires |disc| == Registry.DISCRIMINATOR_LEN && Registry.Encodable(p)
    requires x <= y <= |Registry.Serialize(p)|
    ensures Slice(Account(disc, p, padding), 8 + x, 8 + y) == Registry.Serialize(p)[x..y]
  {
    var s := Registry.Serialize(p);
    var data := Account(disc, p, padding);
    forall j | x <= j < y ensures data[8 + j] == s[j] { }
  }

  /** In a program account, the two length prefixes read back as the handle length and
      the key count, and the bump byte is inside the data. */
  lemma AccountLengths(disc: seq<byte>, p: Registry.Profile, padding: seq<byte>)
    requires |disc| == Registry.DISCRIMINATOR_LEN && Registry.Encodable(p)
    ensures var data := Account(disc, p, padding);
      && HandleLen(data) == |p.handle|
      && AllowLen(data) == |p.allowlist|
      && EndOffset(data) == 80 + |p.handle| + 32 * |p.allowlist| < |data|
  {
    var h := |p.handle|;
    SerializedFields(p);
    FromToLE(h, 4);
    FromToLE(|p.allowlist|, 4);
    AccountSlice(disc, p, padding, 32, 36);
    AccountSlice(disc, p, padding, 68 + h, 72 + h);
  }

  /** In a program account, each field sits where the decoder looks for it. */
  lemma AccountFields(disc: seq<byte>, p: Registry.Profile, padding: seq<byte>)
    requires |disc| == Registry.DISCRIMINATOR_LEN && Registry.Encodable(p)
    ensures var data, h, n := Account(disc, p, padding), |p.handle|, |p.allowlist|;
      && data[8..40] == p.owner
      && Slice(data, 44, 44 + h) == p.handle
      && Slice(data, 44 + h, 76 + h) == p.encPk
      && (n > 0 ==> Keys(data, 80 + h, n) == p.allowlist)
      && data[80 + h + 32 * n] == p.bump
  {
    var h, n := |p.handle|, |p.allowlist|;
    var data := Account(disc, p, padding);
    SerializedFields(p);
    AccountSlice(disc, p, padding, 0, 32);
    AccountSlice(disc, p, padding, 36, 36 + h);
    AccountSlice(disc, p, padding, 36 + h, 68 + h);
    AccountSlice(disc, p, padding, 72 + h, 72 + h + 32 * n);
    if n > 0 {
      KeysOfFlatten(data, 80 + h, p.allowlist);
    }
    assert data[80 + h + 32 * n] == Registry.Serialize(p)[72 + h + 32 * n];
  }

  /** Round trip: the backend's parser reads back every field the program wrote, behind
      any 8-byte discriminator and before any padding. */
  lemma {:induction false} DecodeSerialized(disc: seq<byte>, p: Registry.Profile, padding: seq<byte>)
    requires |disc| == Registry.DISCRIMINATOR_LEN && Registry.Encodable(p)
    ensures DecodeProfile(Account(disc, p, padding)) == Success(View(p))
  {
    AccountLengths(disc, p, padding);
    AccountFields(disc, p, padding);
  }

  // ---------------------------------------------------------------------------
  // is_allowed

  /** `any(str(pk) == viewer for pk in keys)`, scanning in order. */
  function AnyShownAs(keys: seq<Pubkey>, viewer: string, show: Pubkey -> string): (found: bool)
    ensures found <==> exists i :: 0 <= i < |keys| && show(keys[i]) == viewer
  {
    if keys == [] then false
    else if show(keys[0]) == viewer then true
    else
      var rest := AnyShownAs(keys[1..], viewer, show);
      assert forall i :: 1 <= i < |keys| ==> keys[i] == keys[1..][i - 1];
      rest
  }

  /** `is_allowed`: the viewer (a key in its printed form; `show` is `str(Pubkey)`) may
      read the inbox when it is the owner or any key on the allowlist. */
  function IsAllowed(profile: ProfileOnchain, viewer: string, show: Pubkey -> string): (allowed: bool)
    ensures allowed <==>
              show(profile.owner) == viewer ||
              exists i :: 0 <= i < |profile.allowlist| && show(profile.allowlist[i]) == viewer
    ensures show(profile.owner) == viewer ==> allowed
  {
    if show(profile.owner) == viewer then true
    else AnyShownAs(profile.allowlist, viewer, show)
  }
}

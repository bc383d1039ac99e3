/** The backend's challenge store and inbox authorisation: a nonce is issued per
    challenge, the viewer signs the stored challenge text with a wallet key, and the
    inbox is returned only when the challenge, the signature, the profile and the
    allowlist all check out, at which point the nonce is spent. */
module Inbox {
  import opened Wrappers
  import opened Bytes
  import opened Chain
  import opened Mailbox
  import Registry

  const CHALLENGE_TTL_SECONDS: int := 300
  const CHALLENGE_PREFIX: string := "blueshift-inbox:"

  /** An entry of the challenge store, keyed by its nonce. */
  datatype Challenge = Challenge(handle: string, message: string, expiresAt: int)

  /** What `get_challenge` returns. */
  datatype ChallengeOut = ChallengeOut(nonce: string, message: string, expiresAt: int)

  /** The body of an inbox request: `pubkey` and `signature` are as the client sent them. */
  datatype InboxRequest = InboxRequest(handle: string, pubkey: string, signature: string, nonce: string)

  /** What the RPC call inside `fetch_profile` gives for a handle, before the account
      data is parsed: an RPC error, no account (or an account without data), or the
      account's bytes. */
  datatype FetchOutcome = RpcFailed | NoAccount | AccountData(data: seq<byte>)

  /** Why an inbox request was refused: one per `HTTPException` of `get_inbox`, and one
      per exception raised inside `fetch_profile` that `get_inbox` does not catch:
      `HandleSeedTooLong` from `derive_profile_pda`, `MalformedAccount` from
      `parse_profile`. */
  datatype Denial =
    | InvalidChallenge | SignatureFailed | RpcUnavailable | ProfileNotFound | NotInAllowlist
    | HandleSeedTooLong | MalformedAccount

  /** The refusals that are uncaught exceptions rather than an `HTTPException`. */
  predicate Uncaught(d: Denial)
  {
    d == HandleSeedTooLong || d == MalformedAccount
  }

  /** The HTTP status of each refusal; an uncaught exception is answered with 500. */
  function StatusCode(d: Denial): (code: int)
    ensures 400 <= code < 600
    ensures code == 500 <==> Uncaught(d)
    ensures code < 500 <==> !(d == RpcUnavailable || Uncaught(d))
  {
    match d
    case InvalidChallenge => 400
    case SignatureFailed => 401
    case RpcUnavailable => 502
    case ProfileNotFound => 404
    case NotInAllowlist => 403
    case HandleSeedTooLong => 500
    case MalformedAccount => 500
  }

  /** Each `HTTPException` has its own status code; only the two uncaught exceptions
      share one, 500. */
  lemma StatusCodesDistinct(d1: Denial, d2: Denial)
    ensures StatusCode(d1) == StatusCode(d2) <==> d1 == d2 || (Uncaught(d1) && Uncaught(d2))
  {
  }

  /** The characters `secrets.token_urlsafe` draws from (URL-safe base64). */
  predicate IsUrlSafeChar(c: char)
  {
    ('A' <= c <= 'Z') || ('a' <= c <= 'z') || ('0' <= c <= '9') || c == '-' || c == '_'
  }

  predicate IsUrlSafeToken(nonce: string)
  {
    forall i :: 0 <= i < |nonce| ==> IsUrlSafeChar(nonce[i])
  }

  // ---------------------------------------------------------------------------
  // The challenge text

  /** `_challenge_message`: the fixed prefix, the handle, a colon, the nonce. */
  function ChallengeMessage(handle: string, nonce: string): (m: string)
    ensures |m| == |CHALLENGE_PREFIX| + |handle| + 1 + |nonce|
    ensures m[..|CHALLENGE_PREFIX|] == CHALLENGE_PREFIX
    ensures m[|m| - |nonce| - 1] == ':' && m[|m| - |nonce|..] == nonce
  {
    CHALLENGE_PREFIX + handle + ":" + nonce
  }

  /** The handle sits between the prefix and the last colon. */
  lemma ChallengeMessageHandle(handle: string, nonce: string)
    ensures var m := ChallengeMessage(handle, nonce);
      m[|CHALLENGE_PREFIX|..|m| - |nonce| - 1] == handle
  {
  }

  /** After the colon that precedes a URL-safe nonce there is no other colon. */
  lemma ColonFreeTail(handle: string, nonce: string)
    requires IsUrlSafeToken(nonce)
    ensures var m := ChallengeMessage(handle, nonce);
      forall i :: |m| - |nonce| <= i < |m| ==> m[i] != ':'
  {
    var m := ChallengeMessage(handle, nonce);
    forall i | |m| - |nonce| <= i < |m| ensures m[i] != ':' {
      assert m[i] == nonce[i - (|m| - |nonce|)];
    }
  }

  /** Domain separation: as nonces hold no colon, the signed text determines the
      handle and the nonce it was issued for, so a signature over one challenge is
      never a signature over another. */
  lemma {:induction false} ChallengeMessageInjective(h1: string, n1: string, h2: string, n2: string)
    requires IsUrlSafeToken(n1) && IsUrlSafeToken(n2)
    requires ChallengeMessage(h1, n1) == ChallengeMessage(h2, n2)
    ensures h1 == h2 && n1 == n2
  {
    ColonFreeTail(h1, n1);
    ColonFreeTail(h2, n2);
    assert |n1| == |n2|;
    ChallengeMessageHandle(h1, n1);
    ChallengeMessageHandle(h2, n2);
  }

  // ---------------------------------------------------------------------------
  // The challenge store

  /** `_cleanup_challenges` at time `now`: the entries that expired strictly before
      `now` are gone, every other entry is kept as it was. */
  function Sweep(store: map<string, Challenge>, now: int): (swept: map<string, Challenge>)
    ensures forall n :: n in swept <==> n in store && now <= store[n].expiresAt
    ensures forall n :: n in swept ==> swept[n] == store[n]
  {
    map n | n in store && !(store[n].expiresAt < now) :: store[n]
  }

  /** Every stored challenge was issued by `get_challenge`: a URL-safe nonce and the text
      built from its handle and nonce. */
  ghost predicate WellFormedStore(store: map<string, Challenge>)
  {
    forall n :: n in store ==>
      IsUrlSafeToken(n) && store[n].message == ChallengeMessage(store[n].handle, n)
  }

  /** Two live challenges never ask for the same signed text. */
  lemma LiveChallengesSignDistinctTexts(store: map<string, Challenge>, n1: string, n2: string)
    requires WellFormedStore(store) && n1 in store && n2 in store
    requires store[n1].message == store[n2].message
    ensures n1 == n2 && store[n1].handle == store[n2].handle
  {
    ChallengeMessageInjective(store[n1].handle, n1, store[n2].handle, n2);
  }

  // ---------------------------------------------------------------------------
  // The inbox decision

  /** The checks of `get_inbox` on the swept store, in their order: the challenge is
      present and bound to the requested handle; the signature verifies over the stored
      text; the handle has a profile address, and the account can be fetched, exists and
      parses; the viewer is allowed.
      `verify` is the Ed25519 check, `fetch` the RPC lookup, `show` the printed form of
      a key. */
  function InboxDecision(store: map<string, Challenge>, req: InboxRequest,
                         verify: (string, string, string) -> bool,
                         fetch: string -> FetchOutcome, show: Pubkey -> string,
                         rows: seq<MessageRow>): (r: Result<seq<MessageOut>, Denial>)
    ensures r == Failure(InvalidChallenge) <==>
              req.nonce !in store || store[req.nonce].handle != req.handle
    ensures r.Success? ==> forall m :: m in r.value ==> m.handle == req.handle
  {
    if req.nonce !in store || store[req.nonce].handle != req.handle then Failure(InvalidChallenge)
    else if !verify(req.pubkey, req.signature, store[req.nonce].message) then Failure(SignatureFailed)
    else if !PdaDerivable(req.handle) then Failure(HandleSeedTooLong)
    else match fetch(req.handle)
      case RpcFailed => Failure(RpcUnavailable)
      case NoAccount => Failure(ProfileNotFound)
      case AccountData(data) =>
        match DecodeProfile(data)
        case Failure(_) => Failure(MalformedAccount)
        case Success(profile) =>
          if !IsAllowed(profile, req.pubkey, show) then Failure(NotInAllowlist)
          else Success(FetchMessages(rows, req.handle))
  }

  /** Access is granted exactly when all four checks pass, and then the answer is the
      handle's whole mailbox. */
  lemma InboxGrantedExactly(store: map<string, Challenge>, req: InboxRequest,
                            verify: (string, string, string) -> bool,
                            fetch: string -> FetchOutcome, show: Pubkey -> string,
                            rows: seq<MessageRow>)
    ensures var r := InboxDecision(store, req, verify, fetch, show, rows);
      r.Success? <==>
        && req.nonce in store && store[req.nonce].handle == req.handle
        && verify(req.pubkey, req.signature, store[req.nonce].message)
        && PdaDerivable(req.handle)
        && fetch(req.handle).AccountData?
        && DecodeProfile(fetch(req.handle).data).Success?
        && IsAllowed(DecodeProfile(fetch(req.handle).data).value, req.pubkey, show)
    ensures var r := InboxDecision(store, req, verify, fetch, show, rows);
      r.Success? ==> r.value == FetchMessages(rows, req.handle)
  {
  }

  /** The signature is checked over the text stored for the nonce, which is the text
      built from the requested handle and nonce; a bad signature is refused whatever the
      profile lookup would have said. */
  lemma SignatureOverStoredText(store: map<string, Challenge>, req: InboxRequest,
                                verify: (string, string, string) -> bool,
                                fetch: string -> FetchOutcome, show: Pubkey -> string,
                                rows: seq<MessageRow>)
    requires WellFormedStore(store)
    requires req.nonce in store && store[req.nonce].handle == req.handle
    ensures var r := InboxDecision(store, req, verify, fetch, show, rows);
      r == Failure(SignatureFailed) <==>
        !verify(req.pubkey, req.signature, ChallengeMessage(req.handle, req.nonce))
  {
  }

  /** Account data that does not parse (a short owner or allowlist key) makes
      `parse_profile` raise; nothing in `get_inbox` catches it, so the request ends in a
      500 after the challenge and signature checks passed. */
  lemma MalformedAccountDenied(store: map<string, Challenge>, req: InboxRequest,
                               verify: (string, string, string) -> bool,
                               fetch: string -> FetchOutcome, show: Pubkey -> string,
                               rows: seq<MessageRow>)
    requires req.nonce in store && store[req.nonce].handle == req.handle
    requires verify(req.pubkey, req.signature, store[req.nonce].message)
    requires fetch(req.handle).AccountData?
    ensures var r := InboxDecision(store, req, verify, fetch, show, rows);
      var data := fetch(req.handle).data;
      r == Failure(MalformedAccount) <==>
        PdaDerivable(req.handle) &&
        (|data| < OWNER_OFFSET + 32 || (AllowLen(data) > 0 && EndOffset(data) > |data|))
  {
  }

  /** Once the challenge and the signature pass, the lookup decides: a handle whose seed
      is too long raises before any RPC (500), an RPC error is a 502, a missing account a
      404, and an account that parses but does not list the viewer a 403. */
  lemma LookupOutcomes(store: map<string, Challenge>, req: InboxRequest,
                       verify: (string, string, string) -> bool,
                       fetch: string -> FetchOutcome, show: Pubkey -> string,
                       rows: seq<MessageRow>)
    requires req.nonce in store && store[req.nonce].handle == req.handle
    requires verify(req.pubkey, req.signature, store[req.nonce].message)
    ensures var r, f := InboxDecision(store, req, verify, fetch, show, rows), fetch(req.handle);
      && (r == Failure(HandleSeedTooLong) <==> !PdaDerivable(req.handle))
      && (r == Failure(RpcUnavailable) <==> PdaDerivable(req.handle) && f.RpcFailed?)
      && (r == Failure(ProfileNotFound) <==> PdaDerivable(req.handle) && f.NoAccount?)
      && (r == Failure(NotInAllowlist) <==>
            && PdaDerivable(req.handle) && f.AccountData? && DecodeProfile(f.data).Success?
            && !IsAllowed(DecodeProfile(f.data).value, req.pubkey, show))
  {
  }

  /** An account the program wrote always parses, so for it the inbox decision comes
      down to the allowlist of the profile the program stored. */
  lemma {:induction false} ProgramAccountDecides(store: map<string, Challenge>, req: InboxRequest,
                                                 verify: (string, string, string) -> bool,
                                                 fetch: string -> FetchOutcome, show: Pubkey -> string,
                                                 rows: seq<MessageRow>,
                                                 disc: seq<byte>, p: Registry.Profile, padding: seq<byte>)
    requires |disc| == Registry.DISCRIMINATOR_LEN && Registry.Encodable(p)
    requires fetch(req.handle) == AccountData(Account(disc, p, padding))
    ensures var r := InboxDecision(store, req, verify, fetch, show, rows);
      && r != Failure(MalformedAccount)
      && (r.Success? <==>
            && req.nonce in store && store[req.nonce].handle == req.handle
            && verify(req.pubkey, req.signature, store[req.nonce].message)
            && PdaDerivable(req.handle)
            && (show(p.owner) == req.pubkey || AnyShownAs(p.allowlist, req.pubkey, show)))
  {
    DecodeSerialized(disc, p, padding);
  }

  /** A challenge that expired before the request is swept first and so never admits. */
  lemma ExpiredChallengeDenied(store: map<string, Challenge>, now: int, req: InboxRequest,
                               verify: (string, string, string) -> bool,
                               fetch: string -> FetchOutcome, show: Pubkey -> string,
                               rows: seq<MessageRow>)
    requires req.nonce in store && store[req.nonce].expiresAt < now
    ensures InboxDecision(Sweep(store, now), req, verify, fetch, show, rows) == Failure(InvalidChallenge)
  {
  }

  /** Replay: once a request succeeded and its nonce was removed, the same request is
      refused at any later time, whatever the verifier, the chain or the table say. */
  lemma ReplayDenied(store: map<string, Challenge>, now: int, later: int, req: InboxRequest,
                     verify: (string, string, string) -> bool,
                     fetch: string -> FetchOutcome, show: Pubkey -> string,
                     rows: seq<MessageRow>,
                     verify': (string, string, string) -> bool,
                     fetch': string -> FetchOutcome, rows': seq<MessageRow>)
    requires InboxDecision(Sweep(store, now), req, verify, fetch, show, rows).Success?
    ensures InboxDecision(Sweep(Sweep(store, now) - {req.nonce}, later), req, verify', fetch', show, rows')
              == Failure(InvalidChallenge)
  {
  }

  // ---------------------------------------------------------------------------
  // The backend's state: the module-level challenge dictionary and the message table.

  class Backend {
    var challenges: map<string, Challenge>
    const log: MessageLog

    ghost predicate Valid()
      reads this, log
    {
      log.Valid() && WellFormedStore(challenges)
    }

    constructor (log: MessageLog)
      requires log.Valid()
      ensures Valid() && this.log == log && challenges == map[]
    {
      this.log := log;
      challenges := map[];
    }

    /** `_cleanup_challenges`: collects the expired nonces, then pops them one by one. */
    method CleanupChallenges(now: int)
      requires Valid()
      modifies this
      ensures Valid()
      ensures challenges == Sweep(old(challenges), now)
    {
      var expired := set n | n in challenges && challenges[n].expiresAt < now;
      while expired != {}
        invariant expired <= challenges.Keys
        invariant challenges.Keys == Sweep(old(challenges), now).Keys + expired
        invariant forall n :: n in challenges ==> challenges[n] == old(challenges)[n]
        decreases expired
      {
        var n :| n in expired;
        challenges := challenges - {n};
        expired := expired - {n};
      }
    }

    /** `get_challenge`: sweeps, then stores and returns a challenge for `handle` under
        the freshly drawn `nonce`, valid for 300 seconds from `now`. */
    method GetChallenge(handle: string, now: int, nonce: string) returns (out: ChallengeOut)
      requires Valid()
      requires 1 <= |handle| <= 32 && IsUrlSafeToken(nonce)
      modifies this
      ensures Valid()
      ensures challenges == Sweep(old(challenges), now)[nonce :=
                Challenge(handle, ChallengeMessage(handle, nonce), now + CHALLENGE_TTL_SECONDS)]
      ensures out == ChallengeOut(nonce, challenges[nonce].message, challenges[nonce].expiresAt)
    {
      CleanupChallenges(now);
      var message := ChallengeMessage(handle, nonce);
      var expiresAt := now + CHALLENGE_TTL_SECONDS;
      challenges := challenges[nonce := Challenge(handle, message, expiresAt)];
      out := ChallengeOut(nonce, message, expiresAt);
    }

    /** `post_message`: appends the message to the table; anyone may post. */
    method PostMessage(msg: MessageIn, createdAt: string)
      requires Valid() && ValidMessageIn(msg)
      modifies log
      ensures Valid()
      ensures challenges == old(challenges)
      ensures log.rows == old(log.rows) +
                [MessageRow(log.lastId, msg.handle, msg.ciphertext, msg.nonce, msg.epk, msg.nickname, createdAt)]
      ensures log.lastId == old(log.lastId) + 1
    {
      log.InsertMessage(msg, createdAt);
    }

    /** `get_inbox`: sweeps, runs the checks in order (parsing the fetched account with
        the cursor decoder) and, only when all pass, pops the nonce and returns the
        handle's messages; a refused request, including one that ends in a 500, leaves
        the store as the sweep left it. */
    method GetInbox(req: InboxRequest, now: int,
                    verify: (string, string, string) -> bool,
                    fetch: string -> FetchOutcome, show: Pubkey -> string)
      returns (r: Result<seq<MessageOut>, Denial>)
      requires Valid()
      modifies this
      ensures Valid()
      ensures r == InboxDecision(Sweep(old(challenges), now), req, verify, fetch, show, log.rows)
      ensures challenges == if r.Success? then Sweep(old(challenges), now) - {req.nonce}
                            else Sweep(old(challenges), now)
    {
      CleanupChallenges(now);
      if req.nonce !in challenges || challenges[req.nonce].handle != req.handle {
        return Failure(InvalidChallenge);
      }
      var message := challenges[req.nonce].message;
      if !verify(req.pubkey, req.signature, message) {
        return Failure(SignatureFailed);
      }
      if !PdaDerivable(req.handle) {
        return Failure(HandleSeedTooLong);
      }
      var outcome := fetch(req.handle);
      if outcome.RpcFailed? {
        return Failure(RpcUnavailable);
      }
      if outcome.NoAccount? {
        return Failure(ProfileNotFound);
      }
      var parsed := ParseProfile(outcome.data);
      if parsed.Failure? {
        return Failure(MalformedAccount);
      }
      if !IsAllowed(parsed.value, req.pubkey, show) {
        return Failure(NotInAllowlist);
      }
      challenges := challenges - {req.nonce};
      r := Success(FetchMessages(log.rows, req.handle));
    }
  }

  /** The account bytes the program stores for "alice", owned by `ownerKey` with an
      empty allowlist: they parse back to that owner and allowlist, and the handle has
      an address. */
  method AliceAccount(ownerKey: Pubkey) returns (data: seq<byte>)
    ensures DecodeProfile(data).Success?
    ensures DecodeProfile(data).value.owner == ownerKey && DecodeProfile(data).value.allowlist == []
    ensures PdaDerivable("alice")
  {
    AsciiUtf8Len("alice");
    assert Pow256(4) == 4294967296;
    var encPk: Bytes32 := seq(32, _ => 0 as byte);
    var profile := Registry.Profile(ownerKey, [97, 108, 105, 99, 101], encPk, [], 255);
    data := Account(seq(8, _ => 0 as byte), profile, []);
    DecodeSerialized(seq(8, _ => 0 as byte), profile, []);
  }

  /** The challenge for "alice" under nonce "abc" asks for `blueshift-inbox:alice:abc`,
      valid until 300 seconds after it was issued. */
  method ChallengeTextScenario()
  {
    var log := new MessageLog();
    var backend := new Backend(log);
    var issued := backend.GetChallenge("alice", 1000, "abc");
    assert issued == ChallengeOut("abc", "blueshift-inbox:alice:abc", 1300);
  }

  /** The flow end to end: a message is posted to "alice", a challenge is issued at time
      1000 and redeemed by the owner at 1300, the last second it lives, and the message
      comes back. */
  method InboxDeliveryScenario(ownerKey: Pubkey, show: Pubkey -> string)
  {
    var log := new MessageLog();
    var backend := new Backend(log);
    backend.PostMessage(MessageIn("alice", "c1", "n1", "e1", None), "2024-01-01T00:00:00Z");
    var issued := backend.GetChallenge("alice", 1000, "abc");

    var data := AliceAccount(ownerKey);
    var verify := (key: string, sig: string, text: string) => text == issued.message;
    var fetch := (h: string) => AccountData(data);
    var req := InboxRequest("alice", show(ownerKey), "sig", "abc");
    assert IsAllowed(DecodeProfile(data).value, req.pubkey, show);

    var r := backend.GetInbox(req, 1300, verify, fetch, show);
    assert r.Success? && |r.value| == 1 && r.value[0].ciphertext == "c1";
  }

  /** A granted request spends its challenge: the same request is refused next time. */
  method InboxReplayScenario(ownerKey: Pubkey, show: Pubkey -> string)
  {
    var log := new MessageLog();
    var backend := new Backend(log);
    var issued := backend.GetChallenge("alice", 1000, "abc");
    var data := AliceAccount(ownerKey);
    var verify := (key: string, sig: string, text: string) => text == issued.message;
    var fetch := (h: string) => AccountData(data);
    var req := InboxRequest("alice", show(ownerKey), "sig", "abc");
    assert IsAllowed(DecodeProfile(data).value, req.pubkey, show);

    var r := backend.GetInbox(req, 1100, verify, fetch, show);
    assert r.Success?;
    r := backend.GetInbox(req, 1100, verify, fetch, show);
    assert r == Failure(InvalidChallenge);
  }

  /** A challenge issued at time 1000 is refused at 1301, even with a good signature. */
  method InboxExpiryScenario(ownerKey: Pubkey, show: Pubkey -> string)
  {
    var log := new MessageLog();
    var backend := new Backend(log);
    var issued := backend.GetChallenge("alice", 1000, "xyz");
    var data := AliceAccount(ownerKey);
    var verify := (key: string, sig: string, text: string) => true;
    var fetch := (h: string) => AccountData(data);
    var r := backend.GetInbox(InboxRequest("alice", show(ownerKey), "sig", "xyz"), 1301, verify, fetch, show);
    assert r == Failure(InvalidChallenge);
  }

  /** Account data too short to hold an owner ends the request in a 500 and keeps the
      challenge, so the same request succeeds once the account reads correctly. */
  method MalformedAccountScenario(ownerKey: Pubkey, show: Pubkey -> string)
  {
    var log := new MessageLog();
    var backend := new Backend(log);
    var issued := backend.GetChallenge("alice", 1000, "pqr");
    var data := AliceAccount(ownerKey);
    var verify := (key: string, sig: string, text: string) => true;
    var req := InboxRequest("alice", show(ownerKey), "sig", "pqr");

    var short := (h: string) => AccountData(seq(39, _ => 0 as byte));
    var r := backend.GetInbox(req, 1100, verify, short, show);
    assert r == Failure(MalformedAccount) && StatusCode(r.error) == 500;

    var fetch := (h: string) => AccountData(data);
    assert IsAllowed(DecodeProfile(data).value, req.pubkey, show);
    r := backend.GetInbox(req, 1100, verify, fetch, show);
    assert r.Success?;
  }

  /** A handle of 17 'é' passes the 32-character limit of `get_challenge`, but its seed is
      34 bytes: the inbox request ends in a 500 and the challenge stays. */
  method MultibyteHandleScenario(ownerKey: Pubkey, show: Pubkey -> string)
  {
    var log := new MessageLog();
    var backend := new Backend(log);
    var handle := seq(17, _ => 'é');
    TwoByteUtf8Len(handle);
    var issued := backend.GetChallenge(handle, 1000, "uvw");
    var verify := (key: string, sig: string, text: string) => true;
    var fetch := (h: string) => NoAccount;
    var r := backend.GetInbox(InboxRequest(handle, show(ownerKey), "sig", "uvw"), 1100, verify, fetch, show);
    assert r == Failure(HandleSeedTooLong) && StatusCode(r.error) == 500;
    assert "uvw" in backend.challenges;
  }
}

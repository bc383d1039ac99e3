# Blueshift inbox: a Dafny model

Blueshift is a handle-addressed encrypted mailbox. Anyone may post a message, already encrypted,
to a handle. Only the handle's owner, or a key on the handle's allowlist, may read the inbox.
Handles live on chain as profile accounts of a small Anchor program. A viewer proves control of
a key by signing a one-off challenge issued by the backend.

This project models four parts of that system and proves properties of them:

- `registry.dfy` (module `Registry`): the on-chain program in `programs/solana-demo/src/lib.rs`.
  It covers the `Profile` account, its Borsh layout and `Profile::SIZE`, and the three
  instructions. The program's accounts are a `ProfileRegistry` class that holds a map from
  handle to profile, because each account's address is derived from its handle. Anchor's
  account checks run before the instruction body: `init` on an address already in use,
  a missing account, and `has_one = owner`.
- `chain.dfy` (module `Chain`): the backend's account decoder and allowlist test in
  `backend/app/chain.py`. `DecodeProfile` states the layout in closed form, giving the offset
  of every field. `ParseProfile` is the cursor loop of `parse_profile`, proved equal to it.
  Python's slices clamp at the end of the data, and the model keeps that: a short handle or
  `enc_pk` is truncated, while a short owner or allowlist key fails, as `Pubkey.from_bytes`
  raises.
- `mailbox.dfy` (module `Mailbox`): the `messages` table of `backend/app/db.py`. It is an
  append-only `MessageLog` class: a sequence of rows in id order plus the AUTOINCREMENT
  counter. The `fetch_messages` query is a function over the rows.
- `inbox.dfy` (module `Inbox`): the challenge store and the request handlers of
  `backend/app/main.py`. The module-level `CHALLENGES` dictionary and the table together form
  the `Backend` class. The store is swept by `CleanupChallenges`, filled by `GetChallenge` and
  spent by `GetInbox`. The handlers' inputs from the outside world are parameters:
  - the current second `now`;
  - the nonce drawn by `secrets.token_urlsafe`;
  - the Ed25519 verifier `verify`;
  - the profile lookup `fetch`;
  - the printed form of a key, `show`.
- `bytes.dfy` and `wrappers.dfy` hold shared helpers: bytes, Python's clamping slice,
  little-endian integers, `Option` and `Result`.

Behaviours of the code that a reader might not expect, all kept by the model:

- The signed text is `blueshift-inbox:<handle>:<nonce>`.
- A challenge is removed only when an inbox request succeeds. A refused request leaves the
  challenge in place, so it can be retried until it expires.
- Expiry is enforced only by the sweep, which removes entries whose `expires_at` is strictly
  before the current second. A challenge is still usable in its expiry second.
- Issuing a challenge does not retire earlier ones for the same handle, so several can be
  live at once.
- Account data that does not parse (a short owner or allowlist key) makes `parse_profile`
  raise inside `fetch_profile`. `get_inbox` catches only the RPC error, so the request ends
  in a 500 and the challenge stays.
- `get_challenge` limits the handle to 32 characters, but the profile address takes its
  UTF-8 bytes as a seed of at most 32 bytes. A handle such as 17 × `é` (34 bytes) gets a
  challenge, and its inbox request then ends in a 500 that keeps the challenge.
- The inbox is returned newest first (`ORDER BY id DESC`).
- `post_message` does not check that the handle has a profile.
- `initialize_profile` does not require the owner to be on the allowlist. Instead,
  `is_allowed` admits the owner separately.

## Model

| member | source | states |
|---|---|---|
| `Registry.ValidateInit` | programs/solana-demo/src/lib.rs:18-25 | no error exactly when the handle is 1 to 32 bytes and the allowlist has at most 32 keys; `InvalidHandle` exactly when the handle is empty or too long; `AllowlistTooLarge` exactly when the handle is fine and the list too long (the handle check comes first) |
| `Registry.ProfileRegistry.InitializeProfile` | programs/solana-demo/src/lib.rs:12-34 | an existing account for the handle makes creation fail (`init` at the handle's address), so a handle is created once; otherwise the `require!` errors; on success exactly one new account appears, with owner = signer and handle, `enc_pk`, allowlist and bump as given; on failure nothing changes; the registry invariant (handle at its own address, limits respected) is kept |
| `Registry.ProfileRegistry.UpdateEncPk` | programs/solana-demo/src/lib.rs:36-40 | fails on a missing account or a signer other than the stored owner (`has_one = owner`); otherwise only that account's `enc_pk` changes; on failure nothing changes |
| `Registry.ProfileRegistry.UpdateAllowlist` | programs/solana-demo/src/lib.rs:42-53 | missing account, then owner mismatch, then more than 32 keys fail in that order and change nothing; otherwise only that account's allowlist changes |
| `Registry.Flatten` | programs/solana-demo/src/lib.rs:101 | a serialised `Vec<Pubkey>` body is 32 bytes per key |
| `Registry.FlattenAt` | programs/solana-demo/src/lib.rs:101 | key `i` occupies bytes `32*i .. 32*i+32` of the body |
| `Registry.Serialize` | programs/solana-demo/src/lib.rs:96-103 | the Borsh fields of a profile take `32 + 4 + len(handle) + 32 + 4 + 32*n + 1` bytes |
| `Registry.SerializedFits` | programs/solana-demo/src/lib.rs:105-112 | `Profile::SIZE` is 1137; every profile within the limits fits in it together with the 8-byte discriminator; a 32-byte handle with 32 keys fills it exactly |
| `Registry.StoredProfilesFit` | programs/solana-demo/src/lib.rs:59-64 | every account the registry holds fits the space `init` allocates |
| `Bytes.Slice` | backend/app/chain.py:42-48 | Python's `data[lo:hi]`: the bounds clamp to the length; within bounds it is the exact slice |
| `Bytes.ToLE` | programs/solana-demo/src/lib.rs:99-101 | a Borsh length prefix has exactly the requested width |
| `Bytes.FromToLE` | backend/app/chain.py:42 | `int.from_bytes(..., "little")` reads back any number written in little-endian of a width it fits |
| `Chain.DecodeProfile` | backend/app/chain.py:36-64 | the closed-form meaning of `parse_profile`: it succeeds exactly when the data holds the 32 owner bytes after the 8-byte discriminator and, if the allowlist is not empty, all its keys; the handle is at most its u32 length and shorter exactly when the data ends inside it; `enc_pk` has at most 32 bytes; the allowlist has exactly the stored count of keys, below 2^32 |
| `Bytes.FromLE` | backend/app/chain.py:42 | `int.from_bytes(..., "little")` of `k` bytes is an unsigned number below 256^k; the handle length and key count read at chain.py:42 and 50 are therefore below 2^32 |
| `Chain.Utf8Len` | backend/app/chain.py:30-33 | `len(handle.encode("utf-8"))`: one to four bytes per character, so between `len(handle)` and four times it |
| `Chain.AsciiUtf8Len` | backend/app/chain.py:30-33 | an ASCII handle takes one byte per character, so any ASCII handle of at most 32 characters has a profile address |
| `Chain.TwoByteUtf8Len` | backend/app/chain.py:30-33 | characters from U+0080 to U+07FF take two bytes each, so such a handle has an address exactly when it has at most 16 characters |
| `Chain.Keys` | backend/app/chain.py:52-55 | `n` keys read back to back from an offset: there are `n`, and key `i` is the 32 bytes at `off + 32*i` |
| `Chain.ParseProfile` | backend/app/chain.py:36-64 | the cursor decoder equals the closed-form layout: it skips the 8 discriminator bytes, reads the owner at 8..40, a u32-LE handle length at 40 and that many handle bytes, then 32 bytes of `enc_pk`, then a u32-LE count `n` and `n` keys in order; the bump is the next byte if any, else 0; a short owner or key fails |
| `Chain.DecodeReadsOnlyPrefix` | backend/app/chain.py:38-57 | parsing never reads past the bump byte: any cut of the data after `8+32+4+len(handle)+32+4+32*n` gives the same result |
| `Chain.SerializedFields` | programs/solana-demo/src/lib.rs:96-103 | the serialised fields lie in declaration order: owner, length and handle, `enc_pk`, count and keys, bump |
| `Chain.KeysOfFlatten` | backend/app/chain.py:50-55 | reading `n` keys from a serialised `Vec<Pubkey>` gives back the vector |
| `Chain.DecodeSerialized` | backend/app/chain.py:36-64 | round trip: the program's account data (any discriminator, the serialised fields, any padding) is parsed back to the same owner, handle, `enc_pk`, allowlist and bump |
| `Chain.AnyShownAs` | backend/app/chain.py:132 | the scan over the allowlist is true exactly when some key prints as the viewer |
| `Chain.IsAllowed` | backend/app/chain.py:129-132 | the viewer is allowed exactly when it is the owner or appears on the allowlist; the owner is allowed even when absent from the list |
| `Mailbox.FetchMessages` | backend/app/db.py:58-74 | the query returns no more rows than the table holds, all for the requested handle |
| `Mailbox.ToOutKeepsEveryColumn` | backend/app/db.py:64-72 | building a `MessageOut` from a row loses no column: two rows give the same message exactly when they are the same row |
| `Mailbox.FetchExactly` | backend/app/db.py:61-73 | every stored row for the handle is returned, and every returned message is a stored row for the handle with its fields copied unchanged |
| `Mailbox.FetchNewestFirst` | backend/app/db.py:61 | ids strictly decrease along the result (`ORDER BY id DESC`) |
| `Mailbox.FetchAfterInsertOther` | backend/app/db.py:46-61 | appending a message for another handle leaves this handle's inbox unchanged, whatever the table holds |
| `Mailbox.FetchAfterInsertSame` | backend/app/db.py:46-61 | appending a message for this handle puts it at the head of the inbox, ahead of the unchanged older ones, whatever the table holds |
| `Mailbox.MessageLog.InsertMessage` | backend/app/db.py:46-55 | appends exactly one row carrying the given fields and `created_at`; its id is one past the counter and above every earlier id; earlier rows are untouched; the table invariant (ids increase and never exceed the counter) is kept |
| `Inbox.ChallengeMessage` | backend/app/main.py:44-45 | the challenge text starts with `blueshift-inbox:`, ends with `:` and the nonce, and is as long as prefix, handle, colon and nonce together |
| `Inbox.ChallengeMessageHandle` | backend/app/main.py:44-45 | the handle is the text between the prefix and the colon before the nonce |
| `Inbox.ColonFreeTail` | backend/app/main.py:61-62 | a URL-safe nonce puts no colon after the separating colon |
| `Inbox.ChallengeMessageInjective` | backend/app/main.py:44-45 | the challenge text determines both the handle and the nonce it was built from, when nonces are URL-safe as `token_urlsafe` makes them |
| `Inbox.Sweep` | backend/app/main.py:37-41 | the sweep keeps exactly the entries with `now <= expires_at`, unchanged, and drops those with `expires_at < now` |
| `Inbox.LiveChallengesSignDistinctTexts` | backend/app/main.py:61-64 | no two live challenges ask for the same signed text |
| `Inbox.StatusCode` | backend/app/main.py:117-130 | every refusal is an HTTP error status; 500 answers exactly the two uncaught exceptions (a handle seed over 32 bytes, a malformed account); only the RPC failure (502) and those two are server-side (5xx) |
| `Inbox.StatusCodesDistinct` | backend/app/main.py:117-130 | each `HTTPException` has a status code of its own; two refusals share a code only when both are uncaught exceptions (500) |
| `Inbox.InboxDecision` | backend/app/main.py:114-133 | `get_inbox`'s ordered check chain on the swept store: it refuses as an invalid challenge exactly when the nonce is missing or bound to another handle, and a granted answer holds only messages for the requested handle |
| `Inbox.InboxGrantedExactly` | backend/app/main.py:112-134 | the inbox is granted exactly when the challenge is present for the handle, the signature verifies over the stored text, the handle's UTF-8 form fits a seed, the account is found and parses and the viewer is allowed; the answer is then `fetch_messages(handle)` |
| `Inbox.SignatureOverStoredText` | backend/app/main.py:119-121 | for a present challenge, the request is refused for its signature exactly when the signature fails over `blueshift-inbox:<handle>:<nonce>`, whatever the profile lookup would return |
| `Inbox.MalformedAccountDenied` | backend/app/main.py:123-126 | once the challenge and signature pass, fetched account data ends the request in a 500 exactly when the handle has an address and the data is too short for the owner or for a key of a non-empty allowlist |
| `Inbox.ProgramAccountDecides` | backend/app/main.py:123-130 | account data the program wrote never ends in the malformed-account 500: the request is granted exactly when the challenge and signature pass, the handle has an address, and the viewer is the stored owner or on the stored allowlist |
| `Inbox.LookupOutcomes` | backend/app/main.py:123-130 | once the challenge and signature pass: a handle seed over 32 bytes gives the 500 whatever the chain holds; otherwise an RPC error gives 502, a missing account 404, and an account that parses without admitting the viewer 403, each exactly in its case |
| `Inbox.ExpiredChallengeDenied` | backend/app/main.py:114-117 | a challenge that expired before the request is swept first, so the request is refused as an invalid challenge |
| `Inbox.ReplayDenied` | backend/app/main.py:132-134 | after a granted request has removed its nonce, the same request is refused after any later sweep, whatever the verifier, the chain or the table then say, unless that nonce is issued again |
| `Inbox.Backend.CleanupChallenges` | backend/app/main.py:37-41 | popping the collected expired nonces one at a time leaves the store equal to `Sweep(old store, now)` |
| `Inbox.Backend.GetChallenge` | backend/app/main.py:58-65 | after the sweep the store maps the nonce to the handle, the challenge text for that handle and nonce, and `now + 300`; the returned triple is the stored one |
| `Inbox.Backend.PostMessage` | backend/app/main.py:68-72 | the message is appended to the table as `insert_message` does; the challenge store is untouched |
| `Inbox.Backend.GetInbox` | backend/app/main.py:112-134 | the answer is the ordered check chain on the swept store, with the fetched account parsed by the cursor decoder; the nonce is removed only on success, and any refusal, the 500s of an over-long handle seed and of a malformed account included, leaves the swept store as it was |

## Left out

- The encryption codec: the frontend's tweetnacl box and its base64 wrappers are library calls and are not modelled. The backend stores ciphertext, nonce and ephemeral key as opaque text.
- Ed25519 verification and base58 decoding (`backend/app/crypto.py`) are the injected `verify` predicate. `str(Pubkey)` (base58 printing) is the injected `show` function.
- The JSON-RPC calls in `fetch_profile` and `fetch_profiles_by_owner`, and the base64 decoding of account data, are I/O. The RPC lookup is the `fetch` parameter, with three outcomes: an RPC error, no account (or no data), or the account's bytes. The inbox decision itself adds the two exceptions `fetch_profile` raises around that call and `get_inbox` does not catch: `derive_profile_pda` on a handle whose UTF-8 form exceeds the 32-byte seed limit, and `parse_profile` on malformed data. Both end in a 500 that keeps the challenge.
- `derive_profile_pda` and Anchor's address derivation are not modelled beyond the seed-length check, because they rest on SHA-256. Accounts are keyed by handle instead. The on-chain program's own seed limit is not modelled either: there it rejects a handle over 32 bytes before `require!` runs. The bump search of `find_program_address` is taken always to find an address.
- Rent, the payer and the allocation of `Profile::SIZE` bytes by `init` are left out. The discriminator's value (a hash prefix) is an arbitrary 8-byte parameter of the round-trip lemma.
- Chain.ParseProfile: treats the handle as bytes. The UTF-8 decoding of `handle`, and its failure on invalid bytes, are not modelled.
- The clock (`time.time`, `time.strftime`) and the nonce source (`secrets.token_urlsafe`) are parameters. The two clock reads in `get_challenge` are taken to fall in the same second. The nonce is assumed URL-safe, as the library guarantees. Its uniqueness is not assumed: a repeated nonce overwrites its entry, as the dictionary assignment does.
- Concurrency is left out and every handler runs atomically. In the source, `get_inbox` awaits the profile lookup between finding the challenge and popping it. Two concurrent requests with the same nonce can therefore both be granted, which this sequential model cannot show.
- The request-level validation done by pydantic and FastAPI is taken as preconditions: handle lengths of 1 to 32 characters for `get_challenge` and `MessageIn`. The mapping of each denial to an HTTP response is `StatusCode`. The `health`, `on_startup`, `get_profile` and `get_profiles_by_owner` handlers only pass data through and are not modelled.
- The SQLite engine, connections and commits are not modelled. The table is a sequence kept in id order, as a rowid table is, so `Mailbox.FetchNewestFirst` requires increasing ids, which `MessageLog.Valid` guarantees.
- Mailbox.MessageLog.InsertMessage: ids are unbounded naturals. The 64-bit width of a SQLite rowid is not modelled, nor the `SQLITE_FULL` error AUTOINCREMENT raises once the largest id is 2^63-1.
- The frontend (`frontend/src/App.tsx`, `frontend/src/main.tsx`, `frontend/src/lib/api.ts`) is UI and HTTP glue and is not part of this model.

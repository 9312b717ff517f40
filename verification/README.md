# Verification models for Nostr BBS

A Dafny model of the parts of Nostr BBS whose correctness is hardest to see from the code: the
auth worker's CBOR parser and its concurrent SQL protocols, the reviewer telemetry, the ASCII
renderer, and the views the BBS client derives from its message stores. `dafny verify
dfyconfig.toml` checks the whole project.

| files | subject |
|---|---|
| `Cbor`, `CborItems`, `CborTruncation`, `Attestation`, `Registration`, `RegistrationTruncation`, `RegistrationBytes`, `CborRefusals` | the hand-written CBOR / COSE / attestation parser, its grammar (section 3 of RFC 8949), what it accepts beyond that grammar, and the end-to-end registration round trip (section 7.1.1 of RFC 9053, section 6.5 of WebAuthn Level 2) |
| `Invites`, `InviteSafety`, `ZoneGrant` | invite redemption, revocation and cohort granting, one SQL statement per step, any number of handlers |
| `Devices`, `Challenges`, `Receipts` | the device registry, the WebAuthn challenge ledger, the receipt stage ladder |
| `Reviewers`, `Ordering` | reviewer telemetry: grouping, sorting, rank statistics |
| `AsciiPrint`, `AsciiRender` | the ASCII renderer and its printers |
| `Dm`, `Notifications`, `Username`, `Wot` | the inbox, the bounded notification list, the NIP-05 mirror, the web-of-trust table |
| `UriComponent` | percent-encoding and preview URLs |
| `Bytes`, `Texts`, `Sequences`, `Arithmetic`, `Results` | bytes, Rust string helpers, filtering and searching, quotients, `Option` and `Result` |

How the source is rendered:

* Parsers and other loops over immutable input are functions, and methods with the source's own
  loops proved equal to them; the theorems are about the functions.
* Handlers that interleave are programs with a program counter over shared tables: each SQL
  statement (or batch) is one atomic step, an event picks the handler that moves, and an event may
  carry a statement failure where the code tolerates one. A history is a sequence of states.
* Stores whose operations run to completion (`DeviceRegistry`, `DmStore`, `NotificationStore`,
  `UsernameStore`, `WotStore`) are classes that update their fields in place; each method states its
  whole new state.
* Signatures, NIP-98 authentication, JSON, base64, clocks and random values are parameters or flags.
* Rust strings are `seq<char>`, except where the code works on UTF-8 bytes; hash-map iteration order
  and the victim of a full seen set are arbitrary choices.

## Where the code and its comments differ

The model follows the code; each of these is a lemma.

* `invites.rs` calls redemption idempotent. A recorded redeemer's next call succeeds exactly while the
  invite is active, because it is classified first (`InviteSafety.RedeemingAgain`), and one pubkey
  racing itself can spend two uses on one redemption (`InviteSafety.SelfRaceSpendsTwoUses`); uses and
  redemptions agree exactly when every record statement left a row of its own
  (`InviteSafety.UsesAreRecordedPlusPendingIff`).
* A revocation looks the invite up by id or code but updates by id; given a code it answers "revoked"
  and changes nothing (`InviteSafety.RevokeTakesEffectOnlyById`, `InviteSafety.RevokedByCodeStaysActive`).
* A username claim's auto-approved cohorts are added only if no whitelist row exists yet
  (`ZoneGrant.ClaimLandsOnlyWithoutRow`).
* A NIP-98 token may spell its key in capitals, and most handlers store and compare what it says. The
  theorems about spellings hold always, those about keys under the exact conditions named here.
  * Invites: an issuer who authenticates in other letter case redeems their own invite
    (`InviteSafety.IssuerInCapitalsRedeems`, `InviteSafety.OwnInviteIff`), may not revoke it
    (`InviteSafety.IssuerMayRevokeIff`), and a key on record redeems again in another spelling
    (`InviteSafety.OtherSpellingRedeemsIff`, `InviteSafety.KeysRedeemOnceIff`).
  * Cohort grants land in the row of the spelling; the row of the lower-cased key gains nothing from a
    redeemer in capitals (`ZoneGrant.CapitalGrantMissesTheKey`, `ZoneGrant.KeyGainsIff`,
    `ZoneGrant.KeyGrantsLandIff`).
  * Devices: two keys that authenticate in capitals can come to own each other, one registration at a
    time, and an owner can become a device (`Devices.CapitalsMakeACycle`, `Devices.KeysAreAcyclicIff`).
  * Usernames: a key can reserve two names (`Username.TwoNamesOfOneKey`, `Username.SecondNameIff`,
    `Username.KeysKeepOneNameIff`); a dismissal misses a name claimed in capitals
    (`Username.DismissalMissesIff`), and an admin in capitals can delete their own lower-case row
    (`Username.OwnRowIsDeletedIff`).
  * Trust entries: overrides and the referente are stored as given, while the gate is asked about the
    lower-cased key and events are compared by the lower-cased signer. An override in capitals does not
    admit its key, nor end its override in lower case, and one key can be followed and overridden at once
    (`Wot.CapitalsMissTheGate`); `Wot.AddedKeyIsAdmittedIff`, `Wot.RemovedKeyIsAdmittedIff`,
    `Wot.GateDecides` and `Wot.ReferenteSignsIff` are exact.
  * Credentials are the exception: `register_verify` and `login_verify` lower-case the key and refuse a
    token that spells it otherwise, so they are per key (`Challenges.WithoutGapRacesKeysAreUnique`).
* Dismissing a registration or deleting a member leaves the NIP-05 mirror as it was: it is exact again
  exactly when each name so freed has been claimed anew (`Username.MirrorIsExactIff`).
* The notification producer is said never to notify twice. When the seen set is full an old post can be
  processed again; a note shows a second time exactly if truncation dropped it and its time ties with the
  last entry kept (`Notifications.RepeatShowsIff`), and with distinct times evictions never show
  (`Notifications.EvictionsDoNotShow`).
* The principal probe and the device upsert are two statements; interleaved, two keys can end up
  owning each other in lower case too (`Devices.InterleavedProbesMakeACycle`). A key can also be linked
  to itself. A statement closes a cycle exactly when it writes a link to another key that leads to the
  device (`Devices.StatementClosesCycleIff`, over runs `Devices.InterleavedKeysAreAcyclicIff`).
* The duplicate-registration check is not part of the registration batch, so two registrations of one
  pubkey can both be stored (`Challenges.DuplicateIsReachable`); pubkeys are unique exactly while every
  storing commit finds none for its own (`Challenges.PubkeysAreUniqueIff`). This is the table of
  `schema.rs`, lines 33-40, which has no key. `SETUP.md`, lines 75-83, declares `pubkey` its primary key;
  there the second batch would fail instead.
* A zero sign count lets any later count through (`Challenges.ZeroCountReopensTheLadder`, in a run from the
  empty tables `Challenges.LadderIsReopened`).
* A map whose last, unneeded value is cut off inside the string it ends with is accepted
  (`Registration.TruncatedLastValueIsAccepted`), and no other incomplete map is
  (`RegistrationTruncation.CoseMapOverrunsIff`, `RegistrationTruncation.AttestationMapOverrunsIff`).
* The comment on the refresh says overrides are preserved; one that the new list names is not
  (`Wot.OverrideSurvivesIff`). The stored follow count counts repeats (`Wot.FollowCountIff`).
* The decoder's 24-megapixel limit does not keep the renderer's 32-bit products from wrapping
  (`AsciiRender.PixelBudgetAllowsWrapping`). The ramp described as having 70 steps has 69.

## Model

| member | source | states |
|---|---|---|
| Cbor.CborSkipValue | crates/nostr-bbs-auth-worker/src/webauthn.rs:461-550 | the recursive skipper terminates because bytes remain to be read, and computes the specification the grammar theorems are about |
| Cbor.CborSkipMap | crates/nostr-bbs-auth-worker/src/webauthn.rs:528-536 | its map loop skips exactly twice as many values as the head announces, whichever entry fails |
| CborItems.SkipEncoded | crates/nostr-bbs-auth-worker/src/webauthn.rs:461-550 | skipping any nested definite-length item, at any offset of any buffer, consumes exactly its encoded length |
| CborItems.SkipIsExactlyOneItem | crates/nostr-bbs-auth-worker/src/webauthn.rs:461-550 | the skipper's in-buffer results are exactly the encoded items of the grammar, and at most one item stands at an offset |
| CborItems.UniqueItem | crates/nostr-bbs-auth-worker/src/webauthn.rs:461-550 | no encoding is a prefix of another item's encoding |
| CborItems.TypedReadersExact | crates/nostr-bbs-auth-worker/src/webauthn.rs:376-600 | the integer, byte-string and text readers succeed on exactly the items they support, with that item's value and length |
| CborItems.ReadersAgreeWithSkip | crates/nostr-bbs-auth-worker/src/webauthn.rs:349-600 | whenever a typed reader succeeds the skipper succeeds with the same length, so the five header decoders agree |
| CborItems.SkipMayLeaveTheBuffer | crates/nostr-bbs-auth-worker/src/webauthn.rs:516-519 | the skipper can report a length past the end of the buffer where the byte-string reader refuses |
| CborTruncation.SkipLeavesTheBufferIff | crates/nostr-bbs-auth-worker/src/webauthn.rs:511-548 | it does so exactly for an item that is there up to some of the string payload it ends with, and reports that item's full length |
| CborRefusals.HeadRefusals | crates/nostr-bbs-auth-worker/src/webauthn.rs:461-510 | a head is read exactly if the 0, 1, 2, 4 or 8 bytes its initial byte announces are there; missing and reserved are told apart |
| CborRefusals.MapLenIff | crates/nostr-bbs-auth-worker/src/webauthn.rs:349-373 | a map length is 0xA0 + n, or 0xB8 and n, and each other start has its own refusal |
| CborRefusals.IntRefusals | crates/nostr-bbs-auth-worker/src/webauthn.rs:376-415 | which starts the integer reader refuses, and as what: the head before the major type |
| CborRefusals.BstrIff | crates/nostr-bbs-auth-worker/src/webauthn.rs:418-458 | a byte string is 0x40 on, a head of at most two bytes, and exactly the bytes it counts |
| CborRefusals.BstrRefusals | crates/nostr-bbs-auth-worker/src/webauthn.rs:418-458 | each other start has its own refusal, an overrun with the two offsets |
| CborRefusals.TstrIsBstr | crates/nostr-bbs-auth-worker/src/webauthn.rs:553-600 | a text string is the byte string with an initial byte 0x20 higher whose payload is UTF-8 |
| CborRefusals.Utf8Iff | crates/nostr-bbs-auth-worker/src/webauthn.rs:594-598 | the UTF-8 check accepts exactly the encodings of strings (sections 3 and 4 of RFC 3629) |
| Attestation.ExtractCoseEc2Coords | crates/nostr-bbs-auth-worker/src/webauthn.rs:304-346 | the COSE walker, loop included, computes the walk the exactness theorem is about, with every error case |
| Attestation.ParseAttestationObject | crates/nostr-bbs-auth-worker/src/webauthn.rs:606-652 | the same for the attestation-object walker |
| Registration.CoseMapExact | crates/nostr-bbs-auth-worker/src/webauthn.rs:304-346 | a COSE walk that stays in the buffer happens exactly on encoded maps with readable labels and coordinates, and reports the last x and y |
| Registration.AttestationMapExact | crates/nostr-bbs-auth-worker/src/webauthn.rs:606-652 | an attestation walk that stays in the buffer happens exactly on encoded text-keyed maps, and reports the last fmt and authData |
| Registration.TruncatedLastValueIsAccepted | crates/nostr-bbs-auth-worker/src/webauthn.rs:330-345 | a witness: a map whose last, unneeded string is cut off is accepted |
| RegistrationTruncation.CoseMapOverrunsIff | crates/nostr-bbs-auth-worker/src/webauthn.rs:304-346 | a COSE walk succeeds past the end exactly on a proper prefix of a readable map whose missing bytes lie in the string that ends its last entry, one the walk skips |
| RegistrationTruncation.AttestationMapOverrunsIff | crates/nostr-bbs-auth-worker/src/webauthn.rs:606-652 | the same for the attestation walk, so with the two exactness theorems all accepted inputs are described |
| Registration.AuthDataRoundTrip | crates/nostr-bbs-auth-worker/src/webauthn.rs:660-701 | parsing encoded authenticator data returns the credential id and the key bytes, for every id length up to 65535 |
| Registration.RegistrationRoundTrip | crates/nostr-bbs-auth-worker/src/webauthn.rs:604-701 | the three parsers in sequence return exactly fmt, credential id, x and y, whatever the other entries, their order and nesting, and trailing bytes |
| Registration.UsualRegistrationRoundTrip | crates/nostr-bbs-auth-worker/src/webauthn.rs:1937-2014 | the registrations the repository's own encoders build, with an ES256 key and an empty statement, are among those and read back |
| RegistrationBytes.KeyBytesReadBack | crates/nostr-bbs-auth-worker/src/webauthn.rs:1688-1709 | the literal bytes of an ES256 key, labels 0x21 and 0x22, give back x, then y, for all 32-byte x and y |
| RegistrationBytes.KeyAnswer | crates/nostr-bbs-auth-worker/src/webauthn.rs:304-346 | of any readable key x is the last value labelled -2, y the last labelled -3, and a missing x is reported before a missing y |
| RegistrationBytes.KeyRefusals | crates/nostr-bbs-auth-worker/src/webauthn.rs:1722-1755 | the malformed keys of the tests, for all coordinates |
| RegistrationBytes.AttestationAnswer | crates/nostr-bbs-auth-worker/src/webauthn.rs:606-652 | of any readable attestation map, the last value named "fmt" and the last named "authData"; a missing fmt is reported first |
| RegistrationBytes.NothingAfterTheHead | crates/nostr-bbs-auth-worker/src/webauthn.rs:304-322 | heads without entries, and inputs that are no map, have their own refusals in both walkers |
| RegistrationBytes.CredentialIff | crates/nostr-bbs-auth-worker/src/webauthn.rs:660-701 | authenticator data is accepted exactly if it is 53 bytes with flag 0x40 set, a two-byte length, an id of that length and a key that is not empty |
| RegistrationBytes.CredentialRefusals | crates/nostr-bbs-auth-worker/src/webauthn.rs:660-701 | and otherwise refused for the first part that is missing |
| RegistrationBytes.RegistrationBytesReadBack | crates/nostr-bbs-auth-worker/src/webauthn.rs:1937-2014 | the literal bytes of whole registrations go through the three parsers, for every format, id, AAGUID and coordinates |
| InviteSafety.InvKept | crates/nostr-bbs-auth-worker/src/invites.rs:604-678 | every statement of every handler keeps uses equal to the handlers it granted and to recorded, pending and lost redemptions together |
| InviteSafety.RedemptionSafety | crates/nostr-bbs-auth-worker/src/invites.rs:604-667 | in every reachable state redemptions <= uses <= limit, and no redemption is recorded under the issuer's spelling |
| InviteSafety.IssuerKeyNeverRedeems | crates/nostr-bbs-auth-worker/src/invites.rs:612-614 | while tokens spell keys in lower case, no issuer's key has redeemed its own invite in any run |
| InviteSafety.OwnInviteIff | crates/nostr-bbs-auth-worker/src/invites.rs:612-614 | of the issuer's key, the guard turns away exactly the spelling on record and redeems every other |
| InviteSafety.IssuerInCapitalsRedeems | crates/nostr-bbs-auth-worker/src/invites.rs:566-678 | such a redemption is reached from the empty database with nothing interleaving |
| InviteSafety.UsesOverTime | crates/nostr-bbs-auth-worker/src/invites.rs:637-667 | along a run uses never fall, never rise after a committed revocation, and redemptions are never removed |
| InviteSafety.UsesAreRecordedPlusPending | crates/nostr-bbs-auth-worker/src/invites.rs:812-874 | a sufficient condition: without self-races and statement failures, uses are the recorded redemptions plus the handlers between increment and record |
| InviteSafety.UsesAreRecordedPlusPendingIff | crates/nostr-bbs-auth-worker/src/invites.rs:659-667 | in any run that equation holds for every invite exactly when each record statement so far succeeded and met no row of its own pubkey |
| InviteSafety.SelfRaceSpendsTwoUses | crates/nostr-bbs-auth-worker/src/invites.rs:616-667 | two handlers of one pubkey past the count raise uses by two and record one redemption |
| InviteSafety.SelfRaceIsReachable | crates/nostr-bbs-auth-worker/src/invites.rs:588-633 | such a pair of handlers is reached from the empty database |
| InviteSafety.RevokeTakesEffectOnlyById | crates/nostr-bbs-auth-worker/src/invites.rs:733-773 | the write that answers "revoked" revoked the selected invite exactly when the path held its id; with its code nothing changes |
| InviteSafety.RevocationSteps | crates/nostr-bbs-auth-worker/src/invites.rs:725-773 | who may revoke, the answers, and the one row that is stamped |
| InviteSafety.RevokedByCodeStaysActive | crates/nostr-bbs-auth-worker/src/invites.rs:713-773 | a run from the empty database in which the issuer revokes by code, is told so, and the invite stays active |
| InviteSafety.IssuerMayRevokeIff | crates/nostr-bbs-auth-worker/src/invites.rs:746-749 | without being an admin the issuer's key is refused exactly in a spelling not on record |
| InviteSafety.SoloRun | crates/nostr-bbs-auth-worker/src/invites.rs:786-886 | one handler run without interruption computes the sequential redemption |
| InviteSafety.RedeemAloneIs | crates/nostr-bbs-auth-worker/src/invites.rs:586-678 | each answer of a redemption exactly, and what it leaves: one use more, one redemption, and the member joined by that invite; nothing otherwise |
| InviteSafety.SelectionIff | crates/nostr-bbs-auth-worker/src/invites.rs:588-601 | a redemption selects by code, a revocation by code or id, and finds nothing exactly if there is no such invite |
| InviteSafety.RedemptionSteps | crates/nostr-bbs-auth-worker/src/invites.rs:616-678 | whatever interleaves, what the count, the increment, the record and the enrolment each ask, answer and write, over the three tables |
| InviteSafety.RedeemingTwice | crates/nostr-bbs-auth-worker/src/invites.rs:604-633 | with nothing in between but time, the second call changes nothing and succeeds exactly if a use was left and the invite has not expired |
| InviteSafety.RedeemingAgain | crates/nostr-bbs-auth-worker/src/invites.rs:604-633 | for any database and time, a recorded redeemer's call changes nothing and succeeds exactly if the invite is active |
| InviteSafety.RecordedRedeemerReturns | crates/nostr-bbs-auth-worker/src/invites.rs:812-842 | the same at any later state of any run; after a revocation it is refused as revoked |
| InviteSafety.OtherSpellingRedeemsIff | crates/nostr-bbs-auth-worker/src/invites.rs:616-633 | a key on record, in another spelling that is not, redeems again exactly while the invite is active |
| InviteSafety.KeysRedeemOnceIff | crates/nostr-bbs-auth-worker/src/invites.rs:659-667 | in any run each key has redeemed each invite at most once exactly if no record statement so far met its key in another spelling |
| ZoneGrant.MergeCohorts | crates/nostr-bbs-auth-worker/src/invites.rs:196-204 | the merged list extends the old one by exactly the missing cohorts, each once |
| ZoneGrant.NewJoinerCohorts | crates/nostr-bbs-auth-worker/src/zone_approval.rs:30-46 | members first, then exactly the cohorts of auto-approving zones, without repeats |
| ZoneGrant.RunGrows | crates/nostr-bbs-auth-worker/src/invites.rs:223-263 | over any interleaving with claims, no row ever loses a cohort |
| ZoneGrant.GrantLands | crates/nostr-bbs-auth-worker/src/invites.rs:223-263 | once a grant's merge has run on an existing row, and ever after, the row of the redeemer's spelling holds members, the zone's cohorts and all it ever held |
| ZoneGrant.EnsuredGrantLands | crates/nostr-bbs-auth-worker/src/invites.rs:223-263 | both statements of a grant together always land |
| ZoneGrant.MergeLandsIff | crates/nostr-bbs-auth-worker/src/invites.rs:263 | a merge leaves its cohorts in a row exactly if it runs on one or they were there already |
| ZoneGrant.GrantSteps | crates/nostr-bbs-auth-worker/src/invites.rs:223-263 | what each statement writes to the table: "members" and the zone's cohorts, inserted only without a row, merged only into one |
| ZoneGrant.KeyGainsIff | crates/nostr-bbs-auth-worker/src/invites.rs:263 | a merge leaves its cohorts in the row of the lower-cased key exactly if that row is there and the redeemer's token is in lower case, or the row held them already |
| ZoneGrant.UnnamedRowsKept | crates/nostr-bbs-auth-worker/src/invites.rs:223-263 | in any run a row whose spelling no grant and no claim used is untouched |
| ZoneGrant.CapitalGrantMissesTheKey | crates/nostr-bbs-auth-worker/src/invites.rs:223-263 | an undisturbed grant to a redeemer in capitals, after which the row of the key is as before |
| ZoneGrant.KeyGrantsLandIff | crates/nostr-bbs-auth-worker/src/invites.rs:223-263 | at the end a key's row holds all that was granted to the key exactly if what other spellings were granted was there, granted or claimed in lower case too |
| ZoneGrant.KeyGrantsLand | crates/nostr-bbs-auth-worker/src/invites.rs:223-263 | so it does when redeemers authenticate in lower case |
| ZoneGrant.FinalCohorts | crates/nostr-bbs-auth-worker/src/invites.rs:223-263 | when all is done the row holds exactly its start, every grant's cohorts, and those of the claim that created it |
| ZoneGrant.FinalCohortIff | crates/nostr-bbs-auth-worker/src/invites.rs:223-263 | the same cohort by cohort, over the start table and the handlers |
| ZoneGrant.GrantOrderDoesNotMatter | crates/nostr-bbs-auth-worker/src/invites.rs:206-222 | runs that grant the same cohorts end with the same row |
| ZoneGrant.ClaimLandsOnlyWithoutRow | crates/nostr-bbs-auth-worker/src/username.rs:298-319 | a claim's insert adds its cohorts exactly when there was no row |
| Devices.ProofBindsOneLink | crates/nostr-bbs-auth-worker/src/devices.rs:215-262 | one proof of possession is accepted for one device and one owner only, within one short window |
| Devices.ProofIff | crates/nostr-bbs-auth-worker/src/devices.rs:215-262 | accepted exactly: authentic, kind 27236, by the device, first owner tag for the owner, first exp tag in the next 300 seconds |
| Devices.ParseU64OfDecimal | crates/nostr-bbs-auth-worker/src/devices.rs:236-240 | an expiry is its decimal value, with or without a plus sign, up to 2^64 - 1 |
| Devices.DeviceRegistry.HandleRegister | crates/nostr-bbs-auth-worker/src/devices.rs:394-444 | a registration either refuses and leaves the table, or performs the conditional upsert of the state machine |
| Devices.RegistrationWritesIff | crates/nostr-bbs-auth-worker/src/devices.rs:331 | a registration is answered as principal, registered or taken exactly when stated, and writes the one row, keeping an old row's time |
| Devices.DeviceRegistry.HandleRevoke | crates/nostr-bbs-auth-worker/src/devices.rs:521-540 | exactly if the caller owns the row, in the spelling on record, it becomes revoked, and the reply says which |
| Devices.RevokedForGood | crates/nostr-bbs-auth-worker/src/devices.rs:331 | after its owner's revocation a device is revoked in every later table, and registering it again is refused to everyone and changes nothing |
| Devices.RevocationsLast | crates/nostr-bbs-auth-worker/src/devices.rs:521-533 | the same at single-statement interleaving |
| Devices.BindingsArePermanent | crates/nostr-bbs-auth-worker/src/devices.rs:331 | at single-statement interleaving, a row's owner and creation time never change and a revocation is never undone |
| Devices.OwnershipIsAcyclic | crates/nostr-bbs-auth-worker/src/devices.rs:406-444 | with registrations one at a time every chain of stored owners ends within as many links as there are devices, and only a self-link returns to its row |
| Devices.KeyOwnershipIsAcyclic | crates/nostr-bbs-auth-worker/src/devices.rs:391-444 | between keys, in any spelling, the same while authors authenticate in lower case |
| Devices.KeyCycleIff | crates/nostr-bbs-auth-worker/src/devices.rs:289-302 | an operation closes a cycle of keys exactly when it adds a link to another key that leads to the device, and then the device owns something under capitals only |
| Devices.KeysAreAcyclicIff | crates/nostr-bbs-auth-worker/src/devices.rs:391-444 | over any run ownership between keys is acyclic exactly when no operation so far closed such a cycle |
| Devices.CapitalsMakeACycle | crates/nostr-bbs-auth-worker/src/devices.rs:391-436 | two registrations in capitals, one after the other, after which two keys own each other and an owner has become a device |
| Devices.NewLinkClosesCycleIff | crates/nostr-bbs-auth-worker/src/devices.rs:331 | a new link makes a cycle exactly when its owner is another key whose chain leads to the device |
| Devices.OwnersStayPrincipals | crates/nostr-bbs-auth-worker/src/devices.rs:273-302 | a stored owner that is not a device never becomes one |
| Devices.KeyOwnersStayPrincipals | crates/nostr-bbs-auth-worker/src/devices.rs:273-302 | a key that owns a device and is none stays so while authors authenticate in lower case |
| Devices.DemotionIff | crates/nostr-bbs-auth-worker/src/devices.rs:289-302 | an operation makes a device of an owning key exactly when it registers it, it is not listed, and no row spells it in lower case |
| Devices.ProbeThenWriteIsAtomic | crates/nostr-bbs-auth-worker/src/devices.rs:413-438 | probe and upsert with nothing between them are the one-at-a-time registration |
| Devices.InterleavedProbesMakeACycle | crates/nostr-bbs-auth-worker/src/devices.rs:413-438 | interleaved, two registrations reach a table where two keys own each other |
| Devices.InterleavedKeysStayAcyclic | crates/nostr-bbs-auth-worker/src/devices.rs:406-444 | whatever interleaves, ownership between keys stays acyclic as long as no row is written for a device that owns another at that moment |
| Devices.StatementClosesCycleIff | crates/nostr-bbs-auth-worker/src/devices.rs:427-436 | a statement closes a cycle of keys exactly when it writes a link to another key that leads to the device |
| Devices.InterleavedKeysAreAcyclicIff | crates/nostr-bbs-auth-worker/src/devices.rs:406-444 | over any interleaving ownership between keys is acyclic exactly when no statement so far closed a cycle |
| Devices.SelfLinkIsPossible | crates/nostr-bbs-auth-worker/src/devices.rs:273-302 | a key that is no principal can be linked to itself |
| Challenges.CeremoniesAreSeparate | crates/nostr-bbs-auth-worker/src/webauthn.rs:955-977 | in every state of every run a challenge passes the registration check only if issued for a registration, the login check only if issued for that pubkey or discoverably, and never both |
| Challenges.ChallengesAreSpentOnce | crates/nostr-bbs-auth-worker/src/webauthn.rs:1079-1109 | over every interleaving a registration challenge creates at most one credential, carrying exactly the salt issued with it, and a login challenge is accepted at most once |
| Challenges.LoginIff | crates/nostr-bbs-auth-worker/src/webauthn.rs:1236-1480 | a login is accepted exactly if the assertion is sound, for the first credential, with an unexpired challenge of this pubkey or of nobody, and its count is zero or higher; then it sets the counter and spends the challenge, otherwise nothing changes |
| Challenges.AcceptedWereSound | crates/nostr-bbs-auth-worker/src/webauthn.rs:1236-1480 | in every run each accepted login met all of that when it was handled |
| Challenges.RegistrationSteps | crates/nostr-bbs-auth-worker/src/webauthn.rs:955-1109 | what the check, the lookup, the gate and the commit of a registration each ask, and the credential the last one stores |
| Challenges.CredentialsWereChecked | crates/nostr-bbs-auth-worker/src/webauthn.rs:955-1109 | in every run each stored credential is that of a registration whose challenge and salt were less than five minutes old at its check, and that the gate let through |
| Challenges.IssuingSteps | crates/nostr-bbs-auth-worker/src/webauthn.rs:790-830 | issuing sweeps what is older than five minutes and adds one challenge row, and for a registration its salt |
| Challenges.CountersAndReplays | crates/nostr-bbs-auth-worker/src/webauthn.rs:1402-1469 | the stored counter is the last accepted count, each count is zero or exceeds its predecessor, and counts increase strictly exactly when none is zero |
| Challenges.ZeroCountReopensTheLadder | crates/nostr-bbs-auth-worker/src/webauthn.rs:1406-1409 | after an accepted zero count any count is accepted |
| Challenges.LadderIsReopened | crates/nostr-bbs-auth-worker/src/webauthn.rs:1402-1469 | a run from the empty tables in which a credential enrolled with count 9 logs in with 0 and then with 3 |
| Challenges.LateCommitDuplicatesThePubkey | crates/nostr-bbs-auth-worker/src/webauthn.rs:1040-1109 | a commit inserts exactly while its salt row is there, and leaves pubkeys unique exactly if they were and none was stored for its own |
| Challenges.PubkeysAreUniqueIff | crates/nostr-bbs-auth-worker/src/webauthn.rs:1040-1109 | in any run pubkeys are unique exactly when every storing commit so far found none for its pubkey |
| Challenges.WithoutGapRacesPubkeysAreUnique | crates/nostr-bbs-auth-worker/src/webauthn.rs:1040-1109 | they are in every run in which no two handlers of one pubkey are past the lookup at once |
| Challenges.WithoutGapRacesKeysAreUnique | crates/nostr-bbs-auth-worker/src/webauthn.rs:880-907 | and so are keys in any spelling, because the handler lower-cases the pubkey and refuses a token that differs |
| Challenges.DuplicateIsReachable | crates/nostr-bbs-auth-worker/src/webauthn.rs:1040-1109 | a run from the empty tables that stores two credentials of one pubkey |
| Receipts.StageTextRoundTrip | crates/nostr-bbs-core/src/governance.rs:965-1000 | stages and their stored texts correspond one to one |
| Receipts.StoredTexts | crates/nostr-bbs-core/src/governance.rs:967-995 | the ten texts, and that no other is a stage |
| Receipts.AdvanceIff | crates/nostr-bbs-core/src/governance.rs:1080-1105 | exactly five advances are permitted, and why each other one is not |
| Receipts.PlanIff | crates/nostr-bbs-auth-worker/src/governance_api.rs:1055-1090 | a report is permitted exactly to an admin or to the registered agent that owns the case, by hand only to an admin on an approved case, for a permitted advance; every refusal exactly |
| Receipts.ReportAlone | crates/nostr-bbs-auth-worker/src/governance_api.rs:1145-1238 | a report with nothing in between: its refusals, and otherwise the new stage under the caller's name |
| Receipts.ReceiptsOnlyAdvance | crates/nostr-bbs-auth-worker/src/governance_api.rs:1145-1238 | however reporters race, a receipt's recorded stages advance strictly without gaps, at most two are recorded and at most one is terminal |
| Receipts.OnlyTheEntitledAdvance | crates/nostr-bbs-auth-worker/src/governance_api.rs:1060-1078 | over any run every recorded advance is an admin's, or a registered agent's whose key created the receipt's own case, as the endpoint had looked up |
| Receipts.LosingSwapChangesNothing | crates/nostr-bbs-auth-worker/src/governance_api.rs:1202-1238 | a swap wins exactly when the stage is the one it read, and then changes that receipt's stage and author; a losing swap changes and records nothing |
| Receipts.ManualNeedsAdminAndApproval | crates/nostr-bbs-auth-worker/src/governance_api.rs:1055-1090 | every recorded manual application is an admin's, who had read the case of that very receipt as decided and approved |
| Reviewers.AggregateReviewers | crates/nostr-bbs-auth-worker/src/governance_api.rs:1335-1391 | the fold over an ordered map yields the report of its rows: one entry per reviewer, in key order |
| Reviewers.ColumnsCountRows | crates/nostr-bbs-auth-worker/src/governance_api.rs:1338-1391 | each column of an entry is a count of rows: the reviewer's own, or anybody's for the two corpus columns |
| Reviewers.RateCountsRows | crates/nostr-bbs-auth-worker/src/governance_api.rs:1368-1373 | the rate is the share of the reviewer's rows not "approve", in ten-thousandths, halves up |
| Reviewers.TimesCountRanks | crates/nostr-bbs-auth-worker/src/governance_api.rs:1306-1366 | p90 is the reviewer's time of rank ceil(9n/10), the median that of the middle rank or the half sum of the middle two, over the rows that do not predate their request |
| Reviewers.ReportIgnoresRowOrder | crates/nostr-bbs-auth-worker/src/governance_api.rs:1335-1391 | rows in any order give the same report |
| Reviewers.ReportAddsUp | crates/nostr-bbs-auth-worker/src/governance_api.rs:1338-1391 | decisions sum to the rows, superseded and calibration columns to their corpus counts, probes caught to at most the probes seen |
| Reviewers.P90IsTheLeast | crates/nostr-bbs-auth-worker/src/governance_api.rs:1306-1317 | p90 is the least actual time that at least nine tenths of the times do not exceed |
| Reviewers.MedianIsTheMiddle | crates/nostr-bbs-auth-worker/src/governance_api.rs:1319-1329 | at least half the times lie on either side of the median, which never exceeds p90 |
| Reviewers.ReportTimes | crates/nostr-bbs-auth-worker/src/governance_api.rs:1357-1376 | in every entry 0 <= median <= p90; p90 is one of the reviewer's non-negative times, or 0 when there are none |
| Reviewers.ReportRates | crates/nostr-bbs-auth-worker/src/governance_api.rs:1368-1373 | in every entry the rate is the share of non-approvals to half a ten-thousandth, and zero exactly when that share rounds away |
| Reviewers.OverrideRateIsNearest | crates/nostr-bbs-auth-worker/src/governance_api.rs:1369-1373 | no other ten-thousandth is closer to overrides / decisions |
| AsciiPrint.ToHtml | crates/nostr-bbs-ascii/src/lib.rs:148-166 | the run-length printer prints the fragment the reader theorem is about |
| AsciiPrint.PrintRun | crates/nostr-bbs-ascii/src/lib.rs:154-159 | its inner loop consumes exactly the maximal run of equal levels |
| AsciiPrint.ToPlain | crates/nostr-bbs-ascii/src/lib.rs:133-142 | the plain printer writes each row's glyphs and a line end |
| AsciiPrint.HtmlReadsBack | crates/nostr-bbs-ascii/src/lib.rs:148-166 | a reader that rejects empty spans and equal neighbouring levels recovers exactly the grid from the fragment |
| AsciiPrint.HtmlIsInjective | crates/nostr-bbs-ascii/src/lib.rs:148-166 | different grids print differently |
| AsciiPrint.TwoRowsPrinted | crates/nostr-bbs-ascii/src/lib.rs:148-184 | a grid of two rows, literally |
| AsciiPrint.TagsDroppedIsPlain | crates/nostr-bbs-ascii/src/lib.rs:190-197 | dropping the tags and unescaping gives the plain rendering |
| AsciiPrint.ChunksAreRows | crates/nostr-bbs-ascii/src/lib.rs:118-124 | with whole rows, row y is the cells from y * cols on |
| AsciiRender.RenderLuma | crates/nostr-bbs-ascii/src/lib.rs:211-239 | every cell is the exact sample of its position when no sampling product and no source index of this grid reaches 2^32; below 2^32 pixels no index is out of range, and the grid is always printable |
| AsciiRender.CellShows | crates/nostr-bbs-ascii/src/lib.rs:201-236 | an exact cell shows the pixel whose coordinates are its own scaled down and rounded down, with the glyph and level its tone scales down to |
| AsciiRender.RejectedIff | crates/nostr-bbs-ascii/src/lib.rs:215-221 | when nothing is rendered, with the 32-bit product |
| AsciiRender.SmallImagesNeverWrap | crates/nostr-bbs-ascii/src/lib.rs:33-35 | with 400 * width, 300 * height and the area below 2^32 no option makes a product wrap |
| AsciiRender.SamplesSpread | crates/nostr-bbs-ascii/src/lib.rs:231-233 | samples start at the first index, grow strictly and end inside, so the clamp never bites |
| AsciiRender.SamplesExactIff | crates/nostr-bbs-ascii/src/lib.rs:231-233 | 32-bit sampling is exact at every position exactly when the last product fits |
| AsciiRender.PixelBudgetAllowsWrapping | crates/nostr-bbs-ascii/src/lib.rs:251-261 | an image within the pixel budget whose samples wrap |
| AsciiRender.GridFitsImage | crates/nostr-bbs-ascii/src/lib.rs:223-226 | the grid has at least one cell and never more columns or rows than the image or the ceilings |
| AsciiRender.RowCountKeepsAspect | crates/nostr-bbs-ascii/src/lib.rs:224-226 | between its limits the row count is the nearest to the scaled height |
| AsciiRender.RowCountIs | crates/nostr-bbs-ascii/src/lib.rs:224-226 | with its limits: at least 1, at most the request and 300 |
| AsciiRender.ColumnCountIsLargest | crates/nostr-bbs-ascii/src/lib.rs:108-115 | the column count is the largest within the image, 400 and the request |
| AsciiRender.RampsAre | crates/nostr-bbs-ascii/src/lib.rs:59-71 | the three ramps |
| AsciiRender.ToneIsMonotone | crates/nostr-bbs-ascii/src/lib.rs:201-206 | brighter pixels get no earlier glyph and no lower level; inverted, the reverse |
| AsciiRender.ToneHitsBothEnds | crates/nostr-bbs-ascii/src/lib.rs:201-206 | black and white reach the ends of ramp and levels |
| AsciiRender.EveryGlyphAndLevelIsReached | crates/nostr-bbs-ascii/src/lib.rs:59-71 | every glyph of every ramp, and every level, is some luma's |
| Dm.GroupConversations | crates/nostr-bbs-bbs-client/src/dm.rs:448-481 | the inbox lists exactly the peers with a non-empty thread, once each, newest first; preview and time are those of the thread's last message, unread its received messages past the read mark, 0 for the open peer |
| Dm.ThreadIff | crates/nostr-bbs-bbs-client/src/dm.rs:364-441 | a thread holds exactly the messages I sent to its peer and the others its peer sent, each as often as it arrived |
| Dm.InboxIff | crates/nostr-bbs-bbs-client/src/dm.rs:448-481 | the inbox lists a peer exactly if there is such a message |
| Dm.LineShows | crates/nostr-bbs-bbs-client/src/dm.rs:350-481 | a line shows the newest time, the first 60 characters of the last message to arrive with it, and how many were received after the mark |
| Dm.SummaryStep | crates/nostr-bbs-bbs-client/src/dm.rs:456-477 | one round of the fold maintains the summary read off the stably sorted thread |
| Dm.SortByTimeIsStable | crates/nostr-bbs-bbs-client/src/dm.rs:431-441 | a thread holds exactly its peer's messages in time order, ties in arrival order |
| Dm.EveryMessageIsListed | crates/nostr-bbs-bbs-client/src/dm.rs:364-375 | a message is in a listed thread exactly when it has a valid counterparty, in that peer's only, and never newer than the line shows |
| Dm.ReadingClearsOneBadge | crates/nostr-bbs-bbs-client/src/dm.rs:443-447 | reading a thread leaves it unread exactly if something newer was received, and leaves the other lines alone |
| Dm.DmStore.InsertMessage | crates/nostr-bbs-bbs-client/src/dm.rs:199-205 | a message is kept once however often it arrives |
| Dm.DmStore.ReadThrough | crates/nostr-bbs-bbs-client/src/dm.rs:133-147 | opening and closing a thread yields an inbox with that badge cleared and all else as before |
| Dm.EchoTakenBack | crates/nostr-bbs-bbs-client/src/dm.rs:262-275 | a failed send leaves the message list as it was before the echo |
| Notifications.VisibleIsTheHead | crates/nostr-bbs-bbs-client/src/notifications.rs:212-234 | for a stream of new ids the truncated list is always the head of the list that is never truncated |
| Notifications.TruncationCommutes | crates/nostr-bbs-bbs-client/src/notifications.rs:225-232 | truncating before an insertion loses nothing that truncating after it keeps |
| Notifications.BackfillOrderDoesNotMatter | crates/nostr-bbs-bbs-client/src/notifications.rs:225-232 | events with different times give the same list in whatever order they arrive |
| Notifications.AddedIsGood | crates/nostr-bbs-bbs-client/src/notifications.rs:212-234 | every addition keeps the list newest-first, with distinct ids, within 100 |
| Notifications.AddedGoesBefore | crates/nostr-bbs-bbs-client/src/notifications.rs:212-234 | an addition goes after everything newer and before everything else, and the list is cut to 100 |
| Notifications.NotifiableIff | crates/nostr-bbs-bbs-client/src/notifications.rs:456-506 | a post notifies exactly if it p-tags me in any letter case, is not mine and is newer than the floor |
| Notifications.NoteIs | crates/nostr-bbs-bbs-client/src/notifications.rs:463-511 | its entry is unread, under the prefixed id, and a reply exactly if an e tag is marked so |
| Notifications.RecentIsFilter | crates/nostr-bbs-bbs-client/src/notifications.rs:575-589 | a load keeps, in order, what is younger than seven days |
| Notifications.SessionShowsTheNewest | crates/nostr-bbs-bbs-client/src/notifications.rs:305-338 | whatever the relay sends, while no seen id is evicted an account that starts empty sees the head of its full notification history |
| Notifications.EvictionsDoNotShow | crates/nostr-bbs-bbs-client/src/notifications.rs:299-338 | with distinct times the list after any processing, repeats and evictions included, is that of a session that evicts nothing |
| Notifications.OnlyTheSetMatters | crates/nostr-bbs-bbs-client/src/notifications.rs:212-234 | with distinct times neither the order of the notes nor how often each arrives matters |
| Notifications.RepeatShowsIff | crates/nostr-bbs-bbs-client/src/notifications.rs:212-234 | a note added again shows a second time exactly if truncation had dropped it and its time ties with the last entry kept |
| Notifications.NotificationStore.Add | crates/nostr-bbs-bbs-client/src/notifications.rs:212-234 | one addition changes the list as specified and storage mirrors it |
| Notifications.NotificationStore.ProcessPosts | crates/nostr-bbs-bbs-client/src/notifications.rs:298-342 | the producer adds exactly the notifications of the posts it processes and processes every unseen post; nothing is evicted exactly while old and new ids fit in 2000, and then each unseen post is processed once, in order |
| Notifications.NotificationStore.SwitchOwner | crates/nostr-bbs-bbs-client/src/notifications.rs:267-293 | an account switch shows only that account's own state, keeps every account's first-sync floor and touches nobody else's storage |
| Username.ValidateUsername | crates/nostr-bbs-auth-worker/src/username.rs:136-164 | accepts exactly the pattern minus the reserved words, and reports length and reservation errors exactly |
| Username.ValidNameIff | crates/nostr-bbs-auth-worker/src/username.rs:113-164 | the names, character by character, and the ten reserved words |
| Username.RealNameIs | crates/nostr-bbs-auth-worker/src/username.rs:42-53 | a real name is trimmed, cleared when blank, refused beyond 200 bytes |
| Username.ReservedIsAscending | crates/nostr-bbs-auth-worker/src/username.rs:113-128 | the reserved table is in string order, as the binary search in it needs |
| Username.UsernameStore.ClaimUsername | crates/nostr-bbs-auth-worker/src/username.rs:210-326 | for a valid name, UsernameTaken exactly when another pubkey actively holds it, PubkeyHasUsername and the backend error exactly when stated; table and KV change together or not at all |
| Username.ClaimIs | crates/nostr-bbs-auth-worker/src/username.rs:210-284 | a claim stores one active row and its KV entry, or changes the real name of the key's row, or changes nothing, exactly when stated |
| Username.UsernameStore.Release | crates/nostr-bbs-auth-worker/src/username.rs:362-388 | the key's row and its KV entry go together, and nothing else |
| Username.ReleaseIs | crates/nostr-bbs-auth-worker/src/username.rs:362-388 | what a release removes: an active row and its KV entry |
| Username.UsernameStore.DismissRegistration | crates/nostr-bbs-auth-worker/src/username.rs:746-774 | exactly the active row of the key's lower-case spelling becomes dismissed, and the answer says whether there was one |
| Username.DismissalMissesIff | crates/nostr-bbs-auth-worker/src/username.rs:735-764 | after a dismissal the key still holds an active name exactly if it held one in another spelling |
| Username.UsernameStore.DeleteMember | crates/nostr-bbs-auth-worker/src/admins.rs:293-318 | exactly the row of the spelling given goes, unless it is malformed or the caller's own spelling |
| Username.AdminStepsAre | crates/nostr-bbs-auth-worker/src/admins.rs:309-318 | a dismissal marks the active rows of a key, a deletion removes its rows, and neither touches KV |
| Username.OwnRowIsDeletedIff | crates/nostr-bbs-auth-worker/src/admins.rs:293-318 | an admin's deletion takes a row of the admin's own key exactly if it names that row in a spelling other than the caller's |
| Username.RunKeepsDirectory | crates/nostr-bbs-auth-worker/src/username.rs:210-388 | after any run names and stored keys are one to one and every active name resolves; with only claims and releases KV is exactly the active table |
| Username.KeysKeepOneName | crates/nostr-bbs-auth-worker/src/username.rs:231-252 | while claims come in lower case each key, in any spelling, has at most one name |
| Username.SecondNameIff | crates/nostr-bbs-auth-worker/src/username.rs:231-252 | a claim gives a key a second row exactly if it is well formed, the name is free, and the key has a row in another spelling |
| Username.TwoNamesOfOneKey | crates/nostr-bbs-auth-worker/src/username.rs:231-252 | from the empty directory, two claims after which one key actively holds two names |
| Username.KeysKeepOneNameIff | crates/nostr-bbs-auth-worker/src/username.rs:231-388 | after any run each key has at most one name exactly if one of the two rows of every such claim has been removed since |
| Username.HandleIsKept | crates/nostr-bbs-auth-worker/src/username.rs:231-276 | a handle stays with its key, and resolves to it, whatever anyone else does |
| Username.DismissalSticks | crates/nostr-bbs-auth-worker/src/username.rs:712-764 | a dismissed handle stays occupied and its key cannot reserve again, until the member is deleted |
| Username.AdminStepsKeepTheMirrorIff | crates/nostr-bbs-auth-worker/src/admins.rs:309-318 | dismissal and deletion keep KV exact exactly when the key actively held nothing |
| Username.MirrorIsExactIff | crates/nostr-bbs-auth-worker/src/username.rs:712-764 | after any run KV is exact exactly if every name whose active holder was dismissed or deleted has been claimed again since |
| Wot.WotStore.ReplaceFollowed | crates/nostr-bbs-auth-worker/src/wot.rs:310-327 | delete and upsert loop together give F = L and O = O minus L, repeats included |
| Wot.WotStore.Refresh | crates/nostr-bbs-auth-worker/src/wot.rs:265-337 | a refresh succeeds only with a verified kind-3 event of the referente, on record in lower case, or a plain list, and then replaces the followed set |
| Wot.FollowsIff | crates/nostr-bbs-auth-worker/src/wot.rs:99-107 | a kind-3 event follows exactly the lower-cased keys its p tags hold second |
| Wot.ListedAsOften | crates/nostr-bbs-auth-worker/src/wot.rs:299-303 | a plain list lists each key as often as it occurs, in whatever spelling |
| Wot.WotStore.Override | crates/nostr-bbs-auth-worker/src/wot.rs:374-408 | adding moves one spelling of a key to O and keeps its first time, removing shrinks O only |
| Wot.WotStore.IsAllowed | crates/nostr-bbs-auth-worker/src/wot.rs:431-467 | the gate admits exactly the pubkeys in F union O while on, everyone while off |
| Wot.HistoryDecides | crates/nostr-bbs-auth-worker/src/wot.rs:310-408 | a pubkey, as spelled, is followed, or overridden, exactly when the last step that granted it was of that kind and nothing has ended that grant |
| Wot.GateDecides | crates/nostr-bbs-auth-worker/src/webauthn.rs:1059 | over any history the gate, asked by registration about the lower-cased key, admits a key exactly when a grant that names it in lower case stands |
| Wot.HistoryDecidesForKeys | crates/nostr-bbs-auth-worker/src/wot.rs:310-408 | while overrides come in lower case the same decides about keys in any spelling: followed or overridden, never both, and the gate admits exactly their union |
| Wot.AddedKeyIsAdmittedIff | crates/nostr-bbs-auth-worker/src/wot.rs:385-397 | an added override admits its key exactly if it came in lower case or the key was admitted before |
| Wot.RemovedKeyIsAdmittedIff | crates/nostr-bbs-auth-worker/src/wot.rs:398-408 | after a removal the key is admitted exactly if it was and the removal came in capitals or the key is followed |
| Wot.CapitalsArriveIff | crates/nostr-bbs-auth-worker/src/wot.rs:310-408 | a table without capitals stays so exactly if the step brings none |
| Wot.CapitalsMissTheGate | crates/nostr-bbs-auth-worker/src/wot.rs:363-397 | from the empty table: an override in capitals that does not admit, a removal that does not end, a key followed and overridden at once |
| Wot.ReferenteSignsIff | crates/nostr-bbs-auth-worker/src/wot.rs:265-292 | some signer matches the stored referente exactly if it is in lower case |
| Wot.OverrideSurvivesIff | crates/nostr-bbs-auth-worker/src/wot.rs:310-327 | an override survives a refresh exactly when the list does not name it |
| Wot.FollowCountIff | crates/nostr-bbs-auth-worker/src/wot.rs:329-337 | the stored follow count is the number of followed keys exactly when no key repeats |
| UriComponent.EncodeUriComponent | crates/nostr-bbs-bbs-client/src/ascii_img.rs:276-306 | the byte loop computes the encoding the decoding theorem is about |
| UriComponent.DecodeEncoded | crates/nostr-bbs-bbs-client/src/ascii_img.rs:276-306 | percent-decoding undoes it for every byte string |
| UriComponent.EncodedIsCanonical | crates/nostr-bbs-bbs-client/src/ascii_img.rs:274-306 | the output holds only preserved characters and upper-case triples of other bytes |
| UriComponent.EncodeByteIs | crates/nostr-bbs-bbs-client/src/ascii_img.rs:276-306 | which bytes stand for themselves, and the triple of every other |
| UriComponent.CanonicalIsEncoded | crates/nostr-bbs-bbs-client/src/ascii_img.rs:274-306 | every such string is the encoding of what it decodes to |
| UriComponent.PreviewReadsBack | crates/nostr-bbs-bbs-client/src/ascii_img.rs:199-207 | the preview endpoint recovers the image URL's bytes, the column count and the ramp from the URL |
| UriComponent.PreviewIsInjective | crates/nostr-bbs-bbs-client/src/ascii_img.rs:199-207 | two images, sizes or ramps never share a preview URL |
| UriComponent.UrlsAre | crates/nostr-bbs-bbs-client/src/ascii_img.rs:199-213 | the two URLs, with their parameters in order |
| UriComponent.PodUrlIff | crates/nostr-bbs-bbs-client/src/ascii_img.rs:131-145 | a pod's own image is one of the same scheme, host and port |
| UriComponent.AsciiFetchUrls | crates/nostr-bbs-bbs-client/src/ascii_img.rs:188-217 | candidates are the pod's own URL for its images, then the preview URL if an endpoint is configured; none for a blank source |

## Left out

- Cbor.CborSkipValue: offsets and lengths are mathematical integers; on a 32-bit target the original's `usize` additions and its cast from `u64` can wrap.
- Cbor.ReadInt: the `i64` overflow of `-1 - raw` cannot occur for the heads it supports and is not modelled.
- AsciiRender.RowCount: the f32 computation of the row count is an exact rational rounding; where f32 rounds differently near a half the original may differ by one row.
- AsciiRender.RenderLuma: arithmetic wraps as in a release build; a debug build panics instead. `to_ansi` and image decoding are not modelled, and the printers require at least one column because `chunks(0)` panics.
- Reviewers.AggregateReviewers: f64 values are exact rationals (nine tenths of the count, the rate in ten-thousandths), and `i64` times do not overflow.
- Challenges.ChallengesAreSpentOnce: logins are handled one at a time; with interleaved login handlers the code does not promise single use, and neither does the model.
- ZoneGrant.FinalCohorts: a cohort column is a set, because the order and repeats SQLite gives the merged JSON array do not matter here.
- Devices.RegisterOp: its owner probe never fails, while a failed one is read as "no principal" by `is_known_principal`; the interleaved machine has that failure.
- Devices.DeviceRegistry.HandleRegister: blank labels and the case of the submitted device key are normalised before the model starts.
- Receipts.ReceiptsOnlyAdvance: the relay's own projection writes to receipts are not part of this model; a run starts from receipts at whatever stages they have.
- Username.UsernameStore.ClaimUsername: the D1 and KV writes succeed; a lost best-effort KV write leaves the mirror behind. Handlers run one at a time. The whitelist insert of a claim is in ZoneGrant.
- Wot.WotStore.Refresh: handlers run one at a time, and the statements they ignore failures of succeed.
- Notifications.NotificationStore.ProcessPosts: author names and previews are resolved beforehand. Cross-tab reloads are left out.
- UriComponent.AsciiFetchUrls: URL parsing is a parameter that yields an authority or nothing.
- Invite, WebAuthn, zone-grant and receipt handlers are state machines over their statements rather than classes, because they interleave at every await.
- Cryptography, base64, JSON, HTTP routing, CORS, response bodies, schema set-up and configuration reading.
- Invite creation limits, tenure and previews; agent registration and roles in the governance API; probe redaction.
- The relay, mesh, pod and search workers and the UI.

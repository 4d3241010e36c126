# Clique block-chain validation engine, modelled in Dafny

Clique keeps identities and privileges in hash-linked chains of signed JWT blocks. An
identity chain (IdChain of IdBlocks) publishes a subject's public-key thumbprints (the `pkt`
claim). An authorization chain (AuthChain of AuthBlocks) publishes privilege grants. Each block
names its predecessor through the `ant` claim, the SHA-256 hash of the predecessor's compact
serialization. Each block is signed by the key whose thumbprint is in its `kid` header, and
that key must belong to the block's issuer (`iss`).

The Java sources hold three generations of the engine that do not compile together. Each is
its own module here.

- `Current` (current.dfy) covers the `validation` package (AbstractValidator, IdBlockValidator,
  AuthBlockValidator) and the chains of the `chains` package (AbstractChain, IdChain,
  AuthChain). A validator checks one block at a time:
  - first a trust-root short-circuit;
  - then the signature, and the pinning of the chain issuer and subject on the first block;
  - then the antecedent and the issuer's authority;
  - for authorization blocks, the viral-grant rule against the grant table
    `grantee -> privilege -> type`.

  A chain appends a block only after its validator accepted it. `validate` does nothing when
  the validator's cursor is the chain's last block (the same object), and otherwise resets the
  validator and replays. `CurrentBuilders` (current_builders.dfy) holds the two block builders.
- `Intermediate` (intermediate.dfy) covers chains/Validator, chains/AuthBlockValidator,
  chains/IdBlockValidator, sdk/IdBlockValidator and sdk/Chain. It is the same pipeline without
  the trust-root short-circuit, with these differences:
  - a grant-table lookup that dereferences null;
  - an authorization `reset` that clears only the grant table;
  - a chain `validate` that always replays.

  sdk/IdBlockValidator.java is, line for line, chains/IdBlockValidator.java. Both are modelled
  by `Intermediate.Validator.IdValidateIssuer`.
- `Oldest` (oldest.dfy) covers sdk/AuthChain, sdk/IdChain, sdk/AuthBlock and sdk/IdBlock.
  - Chains append without validation.
  - `validate` replays every block through a fresh ChainValidationState whose `ratchet`
    answers true or false.
  - An AuthChain is validated against an expected genesis hash.
  - An IdChain records the order in which it saw each `pkt` (`followsPkt`).

  `OldestBuilders` (oldest_builders.dfy) holds that generation's builders.

Shared modules:
- `Jose` (jose.dfy) holds the claims, the grants and their JSON form, and the exceptions.
  Cryptography is a record of arbitrary functions: sign, parse, verify, hash, thumbprint and
  public part.
- `Blocks` (blocks.dfy) holds the block class, with its sign-once serialization, and the trust-root set.
- `Rules` (rules.dfy) holds the per-block checks as functions, and the grant table with its
  last-write-wins fold.
- `Privileges` (privileges.dfy) holds the newest-first privilege query and its relation to the
  validator's table.

Some modelling choices, in the system's own terms:
- **Classes and state.** Blocks, chains, validators, validation states, builders and the trust-root set are
  classes, so reference identity (the cache test of `AbstractChain.validate`) and in-place
  updates are modelled as such.
- **Java nulls and exceptions.** A Java null is `None`. A thrown exception is the `Throws`/`Raises` value of
  an `Outcome`/`Result`, named after its class.
- **The transport.** It is two maps, keys by thumbprint and identity chains by URI. The trust roots are
  passed in rather than read from a process-wide singleton.
- **Recursion without a cycle guard.** Issuer-chain validation in the source recurses through the transport without a cycle guard.
  Every validating method carries `free`, the validators (chains, in the oldest generation)
  not already being validated further up the call. Reaching one that is busy reports `Cycle`
  where the Java recursion would not end. This also gives the termination measure.

## Model

| member | source | states |
|---|---|---|
| `Jose.NewGrant` | src/main/java/com/cisco/clique/sdk/chains/AuthBlock.java:93-100 | IllegalArgumentException exactly when type, grantee or privilege is missing; otherwise the grant holds exactly those three |
| `Jose.TypeNamed` | src/main/java/com/cisco/clique/sdk/chains/AuthBlock.java:144-148 | `Type.valueOf` succeeds exactly on the three constant names and returns the constant of that name; IllegalArgumentException otherwise |
| `Jose.GrantToJson` | src/main/java/com/cisco/clique/sdk/chains/AuthBlock.java:118-124 | the JSON object has exactly the members type, privilege and grantee, and deserializing it gives back the same grant |
| `Jose.GrantFromJson` | src/main/java/com/cisco/clique/sdk/chains/AuthBlock.java:126-130 | succeeds exactly when the type member names a constant; privilege and grantee are the members' text |
| `Jose.DecodeGrants` | src/main/java/com/cisco/clique/sdk/chains/AuthBlock.java:30-37 | `getGrants` decodes every element in claim order, same length; it throws exactly when some element does not decode |
| `Jose.EncodeGrants` | src/main/java/com/cisco/clique/sdk/chains/AuthBlock.java:75-78 | the grants claim holds one JSON object per grant, in insertion order |
| `Jose.DecodeEncodeGrants` | src/main/java/com/cisco/clique/sdk/chains/AuthBlock.java:71-83 | reading the grants claim that build wrote gives back exactly the builder's grants, in order |
| `Blocks.Block.Build` | src/main/java/com/cisco/clique/sdk/chains/AbstractBlock.java:27-37 | a built block keeps its key, has kid = thumbprint(key) and is not yet serialized |
| `Blocks.Block.Parsed` | src/main/java/com/cisco/clique/sdk/chains/AbstractBlock.java:39-46 | a parsed block has no key and its serialization is the text it was parsed from |
| `Blocks.Block.Pkt` | src/main/java/com/cisco/clique/sdk/chains/IdBlock.java:23-25 | `getPkt` returns the pkt claim, and throws NullPointerException exactly when the claim is absent |
| `Blocks.Block.Grants` | src/main/java/com/cisco/clique/sdk/chains/AuthBlock.java:30-37 | NullPointerException when the grants claim is absent, else the decoded grants in claim order |
| `Blocks.Block.Serialize` | src/main/java/com/cisco/clique/sdk/chains/AbstractBlock.java:89-98 | a memoised serialization is returned unchanged; without one, a keyless block throws IllegalStateException and leaves the block alone, and a keyed block is signed once and the signature kept |
| `Blocks.Block.GetHash` | src/main/java/com/cisco/clique/sdk/chains/AbstractBlock.java:84-87 | succeeds exactly when the block is (or becomes) signed, and is then the hash of its serialization; an existing serialization is never changed |
| `Blocks.Block.Equals` | src/main/java/com/cisco/clique/sdk/chains/AbstractBlock.java:108-122 | true exactly for the same object, or two blocks whose serializations are the same text. Comparing two distinct blocks signs this block when it has a key and no serialization, and then the other block on the same terms once this one is serialized; a block that was already serialized keeps its text |
| `Blocks.ParseBlock` | src/main/java/com/cisco/clique/sdk/chains/AbstractBlock.java:39-46 | IllegalArgumentException for no text, a parse error for text that does not parse, else a fresh keyless block whose serialization is the text |
| `Blocks.ParsedSerializesBack` | src/main/java/com/cisco/clique/sdk/chains/AbstractBlock.java:89-97 | a parsed block serializes back to exactly its text, on every call |
| `Blocks.SignedOnce` | src/main/java/com/cisco/clique/sdk/chains/AbstractBlock.java:90-96 | a second serialize returns the first signature whatever the signer's randomness, so a block's hash never changes |
| `Blocks.TrustRoots.Add` | src/main/java/com/cisco/clique/sdk/chains/IdBlock.java:66-68 | adding a trust root adds that one hash and nothing else |
| `Blocks.TrustRoots.Clear` | src/test/java/com/cisco/clique/sdk/IdentityTest.java:106 | clearing the trust roots empties the set |
| `Blocks.TrustRoots.Contains` | src/main/java/com/cisco/clique/sdk/validation/AbstractValidator.java:53 | membership in the trust-root set |
| `Rules.CheckAntecedent` | src/main/java/com/cisco/clique/sdk/validation/AbstractValidator.java:74-96 | accepted exactly when ant equals the cursor's hash (both absent at genesis); missing, unexpected and mismatching ant each throw their own InvalidBlockException |
| `Rules.CheckSignature` | src/main/java/com/cisco/clique/sdk/validation/AbstractValidator.java:98-116 | accepted exactly when the kid names a transport key under which the token verifies; no kid, no key and a failed verification each throw their own InvalidBlockException |
| `Rules.IdIssuerRoute` | src/main/java/com/cisco/clique/sdk/validation/IdBlockValidator.java:17-37 | the guard chain of the identity issuer check: a trust-root hash passes; key rotation (kid = previous pkt) passes exactly when it applies; delegation to the issuer chain happens exactly for a non-self-issued block from the pinned issuer or at genesis; anything else is InvalidBlockException or the NullPointerException of a dereferenced null |
| `Rules.SelfIssuedGenesisRejected` | src/main/java/com/cisco/clique/sdk/validation/IdBlockValidator.java:30-36 | a self-issued genesis block that is not a trust root is rejected with InvalidBlockException |
| `Rules.ForeignIssuerRejected` | src/main/java/com/cisco/clique/sdk/validation/IdBlockValidator.java:25-36 | a later block from a foreign issuer, signed by a key other than the previous pkt, is rejected |
| `Rules.Put` | src/main/java/com/cisco/clique/sdk/validation/AuthBlockValidator.java:39-41 | putIfAbsent then put: the table's grantees become the old ones plus this grantee |
| `Rules.PutLookup` | src/main/java/com/cisco/clique/sdk/validation/AuthBlockValidator.java:40-41 | a put sets the one entry it names to the grant's type and leaves every other entry unchanged |
| `Rules.FoldLookup` | src/main/java/com/cisco/clique/sdk/validation/AuthBlockValidator.java:38-42 | after folding a block's grants, an entry holds the type of the last grant for it, whatever that type; entries no grant names are untouched (last write wins) |
| `Rules.FoldAppend` | src/main/java/com/cisco/clique/sdk/validation/AuthBlockValidator.java:33-43 | folding two blocks' grants one after the other equals folding their concatenation |
| `Rules.CheckEachGrant` | src/main/java/com/cisco/clique/sdk/validation/AuthBlockValidator.java:58-66 | passes exactly when every grant's privilege is held as VIRAL_GRANT; otherwise the first offending grant decides the exception (missing entry vs. InvalidBlockException) |
| `Rules.CheckGrants` | src/main/java/com/cisco/clique/sdk/validation/AuthBlockValidator.java:45-67 | a genesis block passes unconditionally; an issuer without a row throws InvalidParameterException; otherwise it passes exactly when the grants decode and each is held virally by the issuer |
| `Rules.CheckGrantsUnguarded` | src/main/java/com/cisco/clique/sdk/chains/AuthBlockValidator.java:38-53 | genesis passes; otherwise it passes exactly when every grant is held virally, and a missing row or entry fails (NullPointerException) instead of being reported |
| `Privileges.FirstMatch` | src/main/java/com/cisco/clique/sdk/chains/AuthChain.java:34-38 | the type of the first grant in list order that names the account and the privilege, None exactly when no grant names them |
| `Privileges.Holds` | src/main/java/com/cisco/clique/sdk/chains/AuthChain.java:28-41 | IllegalArgumentException for a missing account or privilege; true exactly when the newest-first deciding grant exists and is not REVOKE; false when none matches, an empty chain included |
| `Privileges.FirstIsLast` | src/main/java/com/cisco/clique/sdk/chains/AuthChain.java:34-38 | in a block that names a pair at most once, the first match and the last match coincide |
| `Privileges.DecisionIsReplayedTable` | src/main/java/com/cisco/clique/sdk/chains/AuthChain.java:32-40 | when no block names the pair twice, the grant hasPrivilege decides on is the entry a validator's replayed grant table holds |
| `Privileges.GrantThenRevokeDisagrees` | src/main/java/com/cisco/clique/sdk/chains/AuthChain.java:34-36 | a block that grants and then revokes the same privilege: hasPrivilege says true while the validator's table holds REVOKE |
| `Current.Validator.constructor` | src/main/java/com/cisco/clique/sdk/validation/AbstractValidator.java:19-22 | a new validator has no cursor, no pinned issuer or subject and an empty grant table |
| `Current.Validator.Reset` | src/main/java/com/cisco/clique/sdk/validation/AbstractValidator.java:32-36 | reset forgets the cursor, chain issuer and chain subject. The authorization override (AuthBlockValidator.java:21-25) also clears the grant table. The trust roots are not touched |
| `Current.Validator.AddTrustRoot` | src/main/java/com/cisco/clique/sdk/validation/AbstractValidator.java:24-26 | adds exactly that hash to the trust roots |
| `Current.Validator.Validate` | src/main/java/com/cisco/clique/sdk/validation/AbstractValidator.java:46-49 | every check runs before post-validation. A block that fails a check never becomes the cursor and leaves the grant table as it was. A trust-root block skips signature, antecedent and issuer checks and pins nothing. Issuer and subject are pinned only while there is no cursor. Success implies `Accepted` against the validator's earlier state: the block is signed and is the cursor; unless it is a trust root its signature verifies, its ant is the previous cursor's hash and an issuer route applied; for authorization the grant check passed on the old table and the table is now its fold with the block's grants |
| `Current.Validator.DoValidation` | src/main/java/com/cisco/clique/sdk/validation/AbstractValidator.java:51-66 | the order of the checks: trust root, signature, pinning, antecedent, issuer, then grants for authorization; each failure's exception is the first failing check's, and state is untouched before the pinning step |
| `Current.Validator.IdValidateIssuer` | src/main/java/com/cisco/clique/sdk/validation/IdBlockValidator.java:17-37 | follows the guard chain: a trust root or a key rotation passes without touching any other chain; a delegation passes only when the issuer chain vouches for the kid; everything else throws the guard's exception |
| `Current.Validator.BaseValidateIssuer` | src/main/java/com/cisco/clique/sdk/validation/AbstractValidator.java:118-145 | throws for a missing kid, a missing issuer or a missing issuer chain, and ClassCastException for an issuer chain that is not an identity chain; on success the issuer's identity chain has been validated (its cursor is its last block) and lists the kid among its pkts |
| `Current.Validator.ValidateGrants` | src/main/java/com/cisco/clique/sdk/validation/AuthBlockValidator.java:45-67 | the loop computes exactly the grant rule `Rules.CheckGrants` |
| `Current.Validator.DoPostValidation` | src/main/java/com/cisco/clique/sdk/validation/AuthBlockValidator.java:33-43 | the block becomes the cursor; an authorization validator's table becomes the fold of the block's grants, or throws when they cannot be read |
| `Current.Validator.FoldIn` | src/main/java/com/cisco/clique/sdk/validation/AuthBlockValidator.java:38-42 | the putIfAbsent/put loop leaves the table equal to the fold of the grants, and nothing else changes |
| `Current.Chain.constructor` | src/main/java/com/cisco/clique/sdk/chains/IdChain.java:13-16 | a new chain has no blocks and no pkts |
| `Current.Chain.LastBlock` | src/main/java/com/cisco/clique/sdk/chains/AbstractChain.java:50-52 | null exactly on an empty chain, else the last block |
| `Current.Chain.Issuer` | src/main/java/com/cisco/clique/sdk/chains/AbstractChain.java:58-60 | null on an empty chain, else the genesis block's issuer |
| `Current.Chain.Subject` | src/main/java/com/cisco/clique/sdk/chains/AbstractChain.java:62-64 | null on an empty chain, else the genesis block's subject |
| `Current.Chain.GenesisHash` | src/main/java/com/cisco/clique/sdk/chains/AbstractChain.java:66-68 | null exactly on an empty chain, else the hash of the genesis block's serialization |
| `Current.Chain.Serialization` | src/main/java/com/cisco/clique/sdk/chains/AbstractChain.java:70-78 | the blocks' serializations, one per block, in chain order |
| `Current.Chain.ContainsPkt` | src/main/java/com/cisco/clique/sdk/chains/IdChain.java:37-42 | IllegalArgumentException for null; otherwise true exactly when some block of the chain carries that pkt |
| `Current.Chain.ActivePkt` | src/main/java/com/cisco/clique/sdk/chains/IdChain.java:44-46 | the last block's pkt; IndexOutOfBoundsException on an empty chain |
| `Current.Chain.ResetValidator` | src/main/java/com/cisco/clique/sdk/chains/AbstractChain.java:89-91 | the validator is reset as `Reset` states, so the next validate replays from genesis |
| `Current.Chain.AddBlock` | src/main/java/com/cisco/clique/sdk/chains/AbstractChain.java:43-46 | a block is appended only if the validator accepted it: whenever blocks change, `Accepted` holds of the block against the validator's state before the call (signature, ant = previous cursor's hash, issuer route or vouching, grant check on the old table, all unless a trust root). It is then the last block and the cursor and, for identity, its pkt joins the pkts. A rejected block leaves blocks and pkts unchanged. The one exception after the append is an identity block without pkt (IdChain.java:28-31). A block that cannot be signed throws IllegalStateException |
| `Current.Chain.AddSerialized` | src/main/java/com/cisco/clique/sdk/chains/IdChain.java:33-35 | parse, then the validating addBlock: on success exactly one block, the parsed one, is appended, and whenever a block is appended the validator accepted it (`Accepted` against its state before the call) |
| `Current.Chain.Validate` | src/main/java/com/cisco/clique/sdk/chains/AbstractChain.java:80-87 | no-op when the cursor is the last block (same object); otherwise Cycle when the validator is busy further up, else reset and replay. On success the cursor is the last block, every block is signed and linked to its predecessor unless it is a trust root, the table is the fold of all grants, and a self-issued identity genesis block is a trust root |
| `Current.Chain.Equals` | src/main/java/com/cisco/clique/sdk/chains/AbstractChain.java:93-103 | the same chain, or block lists of equal length that are pairwise equal blocks |
| `Current.Chain.HasPrivilege` | src/main/java/com/cisco/clique/sdk/chains/AuthChain.java:28-41 | the answer is `Privileges.Holds` over the blocks' grant lists; the chain and the validator are not changed |
| `Current.NewestFirst` | src/main/java/com/cisco/clique/sdk/chains/AuthChain.java:32-40 | the backward loop with early return computes exactly `Privileges.Holds` |
| `Current.EachGrantViral` | src/main/java/com/cisco/clique/sdk/validation/AuthBlockValidator.java:58-66 | the loop that throws at the first non-viral grant computes exactly `Rules.CheckEachGrant` |
| `Current.FirstMatching` | src/main/java/com/cisco/clique/sdk/chains/AuthChain.java:34-38 | the inner loop returns exactly `Privileges.FirstMatch` |
| `Current.Chain.AddText` | src/main/java/com/cisco/clique/sdk/chains/IdChain.java:33-35 | addBlock(String) on a present text: unparsable text throws ParseException; on success exactly the parsed text is appended and is the cursor, and the validator advanced on it (`Advances`: signed, a trust root or signature verified and ant = previous cursor's hash, grants folded into the old table); the blocks already in the chain keep their texts, signatures and replay facts |
| `Current.Chain.LoadNext` | src/main/java/com/cisco/clique/sdk/chains/AbstractChain.java:30-32 | one iteration of the constructor's loop: an unparsable element throws; an added one extends `Loaded` by that element |
| `Current.Chain.LoadAll` | src/main/java/com/cisco/clique/sdk/chains/AbstractChain.java:30-32 | the constructor's loop: on success every element is loaded (`Loaded`): one block per element carrying it as its serialization, each element parses, each block a trust root or signature-verified, the cursor the last block, and from a reset validator a full replay |
| `Current.Deserialize` | src/main/java/com/cisco/clique/sdk/chains/AbstractChain.java:24-33 | IllegalArgumentException for no serialization; an unparsable element makes it throw. On success a new chain whose blocks serialize to exactly the given elements, in order; every block is a trust root or its signature verifies; the validator's cursor is the last block; and from a validator with no cursor (and, for authorization, an empty table) the chain is a complete replay (`ReplayedUpTo` its length: linked, grants folded, a self-issued identity genesis block a trust root) |
| `Current.ReplayGrantsFolds` | src/main/java/com/cisco/clique/sdk/validation/AuthBlockValidator.java:38-42 | the table a replay builds block by block is the fold of all the blocks' grants, in chain order, into an empty table |
| `CurrentBuilders.NextAntecedent` | src/main/java/com/cisco/clique/sdk/chains/IdBlock.java:60-61 | null exactly on an empty chain, else the hash of the chain's last block |
| `CurrentBuilders.IdBlockBuilder.constructor` | src/main/java/com/cisco/clique/sdk/chains/IdBlock.java:35-37 | a builder on the chain with no arguments set |
| `CurrentBuilders.IdBlockBuilder.SetIssuer` | src/main/java/com/cisco/clique/sdk/chains/IdBlock.java:39-42 | sets the issuer and nothing else |
| `CurrentBuilders.IdBlockBuilder.SetIssuerKey` | src/main/java/com/cisco/clique/sdk/chains/IdBlock.java:44-47 | sets the issuer key and nothing else |
| `CurrentBuilders.IdBlockBuilder.SetSubject` | src/main/java/com/cisco/clique/sdk/chains/IdBlock.java:49-52 | sets the subject and nothing else |
| `CurrentBuilders.IdBlockBuilder.SetSubjectPubKey` | src/main/java/com/cisco/clique/sdk/chains/IdBlock.java:54-57 | sets the subject key and nothing else |
| `CurrentBuilders.IdBlockBuilder.Build` | src/main/java/com/cisco/clique/sdk/chains/IdBlock.java:59-72 | a missing argument throws before anything changes. Otherwise: the block's claims are iss, sub, pkt = thumbprint(subject key) and ant = hash of the last block; it is signed with the issuer key; a self-issued block's hash joins the trust roots, and stays there when addBlock throws; on success the block is appended and the chain's validator accepted it (`Accepted` against its state before the build). A self-issued block added against the same trust roots is accepted |
| `CurrentBuilders.AuthBlockBuilder.constructor` | src/main/java/com/cisco/clique/sdk/chains/AuthBlock.java:46-49 | a builder on the chain with no arguments and no grants |
| `CurrentBuilders.AuthBlockBuilder.SetIssuer` | src/main/java/com/cisco/clique/sdk/chains/AuthBlock.java:51-54 | sets the issuer and nothing else |
| `CurrentBuilders.AuthBlockBuilder.SetIssuerKey` | src/main/java/com/cisco/clique/sdk/chains/AuthBlock.java:56-59 | sets the issuer key and nothing else |
| `CurrentBuilders.AuthBlockBuilder.SetSubject` | src/main/java/com/cisco/clique/sdk/chains/AuthBlock.java:61-64 | sets the subject and nothing else |
| `CurrentBuilders.AuthBlockBuilder.AddGrant` | src/main/java/com/cisco/clique/sdk/chains/AuthBlock.java:66-69 | appends the grant to the builder's list |
| `CurrentBuilders.AuthBlockBuilder.Build` | src/main/java/com/cisco/clique/sdk/chains/AuthBlock.java:71-84 | missing issuer or key throws and appends nothing; on success the appended block has iss, the subject passed through unchanged (also on later blocks), ant = hash of the last block, and grants reading back as the builder's list in insertion order, and the validator accepted it: the issuer's chain vouches for the kid and each grant is viral for the issuer in the old table |
| `Intermediate.Validator.constructor` | src/main/java/com/cisco/clique/sdk/chains/Validator.java:17-19 | a new validator has no cursor, no pinning and an empty table |
| `Intermediate.Validator.Reset` | src/main/java/com/cisco/clique/sdk/chains/AuthBlockValidator.java:15-18 | an identity validator forgets cursor, issuer and subject (Validator.java:21-25); an authorization validator clears only its table and keeps its cursor and pinned issuer |
| `Intermediate.Validator.Validate` | src/main/java/com/cisco/clique/sdk/chains/Validator.java:27-30 | the cursor moves only after doValidation succeeds; every block has its signature and antecedent checked, trust root or not. Success implies `Accepted` against the earlier state: signed, the cursor, signature verified, ant = previous cursor's hash, the issuer vouches (authorization) or an issuer route applied (identity), and for authorization the unguarded grant check passed on the old table, which is now folded with the block's grants |
| `Intermediate.Validator.DoValidation` | src/main/java/com/cisco/clique/sdk/chains/Validator.java:32-42 | signature first for every block, pinning only with no cursor, then antecedent, issuer and, for authorization, grants |
| `Intermediate.Validator.IdValidateIssuer` | src/main/java/com/cisco/clique/sdk/chains/IdBlockValidator.java:16-36 | the same guard chain as the current identity check, reached only after signature and antecedent passed |
| `Intermediate.Validator.BaseValidateIssuer` | src/main/java/com/cisco/clique/sdk/chains/Validator.java:94-121 | throws for a missing kid, issuer or issuer chain, and ClassCastException for a non-identity issuer chain; on success the issuer chain was replayed in full from no cursor (`ReplayedUpTo` its length: every block signed and chained) and lists the kid |
| `Intermediate.Validator.ValidateGrants` | src/main/java/com/cisco/clique/sdk/chains/AuthBlockValidator.java:38-53 | the loop computes exactly `Rules.CheckGrantsUnguarded` |
| `Intermediate.Validator.DoPostValidation` | src/main/java/com/cisco/clique/sdk/chains/AuthBlockValidator.java:26-36 | the block becomes the cursor and the table the fold of its grants |
| `Intermediate.Validator.FoldIn` | src/main/java/com/cisco/clique/sdk/chains/AuthBlockValidator.java:31-35 | the loop leaves the table equal to the fold of the grants |
| `Intermediate.Chain.constructor` | src/main/java/com/cisco/clique/sdk/Chain.java:16-19 | a new chain with no blocks |
| `Intermediate.Chain.Pkts` | src/main/java/com/cisco/clique/sdk/chains/Validator.java:117-120 | a kid is on the issuer's chain exactly when some block of it carries that pkt |
| `Intermediate.Chain.LastBlock` | src/main/java/com/cisco/clique/sdk/Chain.java:39-44 | null exactly when the chain is empty, else the last element |
| `Intermediate.Chain.Issuer` | src/main/java/com/cisco/clique/sdk/Chain.java:50-52 | null on an empty chain, else block 0's issuer |
| `Intermediate.Chain.Subject` | src/main/java/com/cisco/clique/sdk/Chain.java:54-56 | null on an empty chain, else block 0's subject |
| `Intermediate.Chain.GenesisHash` | src/main/java/com/cisco/clique/sdk/Chain.java:58-60 | null exactly on an empty chain, else block 0's hash |
| `Intermediate.Chain.Serialization` | src/main/java/com/cisco/clique/sdk/Chain.java:62-70 | the serializations in chain order |
| `Intermediate.Chain.AddBlock` | src/main/java/com/cisco/clique/sdk/Chain.java:32-35 | validates before appending: success implies the validator accepted the block (`Accepted` against its state before the call); a throw leaves the blocks unchanged |
| `Intermediate.Chain.AddSerialized` | src/main/java/com/cisco/clique/sdk/Chain.java:26-29 | one array element parsed and added through the validating addBlock: on success exactly the parsed block is appended and the validator accepted it |
| `Intermediate.Chain.Validate` | src/main/java/com/cisco/clique/sdk/Chain.java:72-77 | Cycle when the validator is busy further up; otherwise it always resets and replays every block. On success every block is signed and carries its predecessor's hash, the first one the hash of whatever cursor the reset left, and an authorization table is the fold of all grants. So once an authorization validator has a cursor, a chain whose genesis block has no ant fails |
| `Intermediate.Chain.AddText` | src/main/java/com/cisco/clique/sdk/Chain.java:28-29 | one present element: unparsable text throws ParseException; on success exactly the parsed text is appended, and the validator advanced on it (`Advances`: signed, the cursor, signature verified, ant = previous cursor's hash, grants folded); the blocks already in the chain keep their texts, signatures and replay facts |
| `Intermediate.Chain.LoadNext` | src/main/java/com/cisco/clique/sdk/Chain.java:27-29 | one iteration of the constructor's loop: an unparsable element throws; an added one extends `Loaded` by that element |
| `Intermediate.Chain.LoadAll` | src/main/java/com/cisco/clique/sdk/Chain.java:27-29 | the constructor's loop: on success every element is loaded: one block per element carrying it, each element parses, each block's signature verifies, the cursor is the last block, and a replay from the starting cursor when one can start there |
| `Intermediate.Deserialize` | src/main/java/com/cisco/clique/sdk/Chain.java:21-30 | IllegalArgumentException for no serialization; an unparsable element makes it throw. On success a new chain of exactly the given elements, in order; every block's signature verifies; the cursor is the last block; and when an identity validator has no cursor or an authorization validator an empty table, the chain is a replay from the cursor it started with (`ReplayedUpTo`: signed, chained from that cursor's hash, grants folded) |
| `Oldest.PktSeqMembers` | src/main/java/com/cisco/clique/sdk/IdChain.java:84-85 | a pkt is among those addBlock recorded exactly when some block carries it |
| `Oldest.PktOrderKeys` | src/main/java/com/cisco/clique/sdk/IdChain.java:85 | the keys of `_pktOrder` are exactly the pkts put into it |
| `Oldest.PktOrderPositions` | src/main/java/com/cisco/clique/sdk/IdChain.java:85 | when no pkt repeats, `_pktOrder` maps each pkt to its position in block order |
| `Oldest.RepeatedPktShares` | src/main/java/com/cisco/clique/sdk/IdChain.java:85 | a repeated pkt overwrites its value with the map's size, which the next new pkt also gets: after a, a, b both map to 1 |
| `Oldest.IdChain.constructor` | src/main/java/com/cisco/clique/sdk/IdChain.java:29-36 | a new chain with no blocks and an empty pkt order |
| `Oldest.IdChain.AddBlock` | src/main/java/com/cisco/clique/sdk/IdChain.java:80-86 | null throws IllegalArgumentException and changes nothing. Otherwise the block is appended without validation and its pkt recorded with value = map size before the put. A block without pkt is appended and throws NullPointerException. The pkt order stays consistent with the blocks |
| `Oldest.IdChain.ContainsPkt` | src/main/java/com/cisco/clique/sdk/IdChain.java:107-112 | IllegalArgumentException for null; otherwise true exactly when some block carries the pkt |
| `Oldest.IdChain.FollowsPkt` | src/main/java/com/cisco/clique/sdk/IdChain.java:97-99 | false when pkt1 is not on the chain; a null pkt1, or a null pkt2 once pkt1 is found, throws IllegalArgumentException as containsPkt does; true only when both are on the chain |
| `Oldest.IdChain.FollowsPktIsBlockOrder` | src/main/java/com/cisco/clique/sdk/IdChain.java:88-99 | when no pkt repeats, followsPkt(p1, p2) holds exactly when both are on the chain and p2's block is not after p1's |
| `Oldest.IdChain.RepeatedPktFollowsBothWays` | src/main/java/com/cisco/clique/sdk/IdChain.java:97-99 | with pkts a, a, b recorded, a follows b and b follows a |
| `Oldest.IdChain.ActivePkt` | src/main/java/com/cisco/clique/sdk/IdChain.java:120-122 | the last block's pkt (IndexOutOfBoundsException when empty, NullPointerException without pkt), which containsPkt then finds |
| `Oldest.IdChain.Validate` | src/main/java/com/cisco/clique/sdk/IdChain.java:143-151 | an empty chain is valid; true implies every block is signed, linked to its predecessor and vouched for by a trust root, a key rotation or the issuer chain's pkts (`AllAccepted`); a linked chain each of whose blocks is a trust root or a key rotation that verifies, with a genesis naming an issuer, is valid |
| `Oldest.IdValidationState.constructor` | src/main/java/com/cisco/clique/sdk/IdChain.java:162-166 | a fresh state: no cursor, no issuer |
| `Oldest.IdValidationState.Ratchet` | src/main/java/com/cisco/clique/sdk/IdChain.java:168-175 | antecedent then signature; the cursor moves to the block only when both hold; the genesis block pins the issuer; a linked block that is a trust root or a verifying key rotation passes |
| `Oldest.IdValidateAntecedent` | src/main/java/com/cisco/clique/sdk/IdBlock.java:61-71 | true exactly when ant is the cursor's hash (both absent at genesis, where iss must be present); genesis pins the state's issuer to iss; the only exception is the NullPointerException of a genesis block (no ant, no cursor) |
| `Oldest.IdValidateSignature` | src/main/java/com/cisco/clique/sdk/IdBlock.java:80-101 | an unsigned block raises IllegalStateException; a trust-root hash passes without verifying; a key rotation (kid = cursor's pkt) answers exactly the signature check under the transport key, NullPointerException without a key; a missing kid or cursor pkt, or a missing issuer chain, is NullPointerException, a chain already being validated Cycle; on the issuer path true implies the issuer chain validated (`AllAccepted`) and records the kid, and an issuer chain of trust roots and rotations that records the kid gives exactly the signature check; true implies `Vouched` |
| `Oldest.AuthAntecedent` | src/main/java/com/cisco/clique/sdk/AuthBlock.java:73-79 | true exactly when ant and cursor are both absent, or ant is the cursor's hash |
| `Oldest.AuthSignature` | src/main/java/com/cisco/clique/sdk/AuthBlock.java:88-99 | true exactly when the signature verifies under the kid's transport key and the issuer's IdChain lists the kid; a missing key or issuer chain throws NullPointerException |
| `Oldest.AuthGrants` | src/main/java/com/cisco/clique/sdk/AuthBlock.java:110-123 | true for genesis, false when exactly one of ant and cursor is absent; otherwise true exactly when every grant is held as VIRAL_GRANT, false only when some held entry is not; when the grants decode, the only exception is the NullPointerException of a missing issuer, row or entry |
| `Oldest.AuthValidationState.constructor` | src/main/java/com/cisco/clique/sdk/AuthChain.java:138-141 | a fresh state: no cursor, empty table |
| `Oldest.AuthValidationState.Ratchet` | src/main/java/com/cisco/clique/sdk/AuthChain.java:143-159 | true exactly when antecedent, signature and grants all hold; then the table is the fold of the block's grants and the cursor is the block; on false or a throw neither changes |
| `Oldest.AuthValidationState.FoldIn` | src/main/java/com/cisco/clique/sdk/AuthChain.java:151-155 | the putIfAbsent/put loop leaves the table equal to the fold of the grants |
| `Oldest.AuthChain.constructor` | src/main/java/com/cisco/clique/sdk/AuthChain.java:21-23 | a new chain with no blocks |
| `Oldest.AuthChain.AddBlock` | src/main/java/com/cisco/clique/sdk/AuthChain.java:64-66 | appends with no validation |
| `Oldest.AuthChain.HasPrivilege` | src/main/java/com/cisco/clique/sdk/AuthChain.java:77-90 | the answer is `Privileges.Holds` over the blocks' grant lists |
| `Oldest.AuthChain.Validate` | src/main/java/com/cisco/clique/sdk/AuthChain.java:113-127 | IllegalArgumentException for no hash; IndexOutOfBoundsException on an empty chain; false when the genesis hash differs; true exactly when the genesis hash matches and every block passes the ratchet after its predecessors |
| `Oldest.AuthChain.Replay` | src/main/java/com/cisco/clique/sdk/AuthChain.java:118-124 | a fresh state ratchets through the blocks; true exactly when every block is admitted with the cursor and table its predecessors left |
| `OldestBuilders.IdBlockBuilder.constructor` | src/main/java/com/cisco/clique/sdk/IdBlock.java:118-120 | a builder on the chain with nothing set |
| `OldestBuilders.IdBlockBuilder.SetIssuer` | src/main/java/com/cisco/clique/sdk/IdBlock.java:128-131 | sets the issuer and nothing else |
| `OldestBuilders.IdBlockBuilder.SetIssuerKey` | src/main/java/com/cisco/clique/sdk/IdBlock.java:139-142 | sets the issuer key and nothing else |
| `OldestBuilders.IdBlockBuilder.SetSubject` | src/main/java/com/cisco/clique/sdk/IdBlock.java:150-153 | sets the subject and nothing else |
| `OldestBuilders.IdBlockBuilder.SetSubjectPubKey` | src/main/java/com/cisco/clique/sdk/IdBlock.java:161-164 | sets the subject key and nothing else |
| `OldestBuilders.IdBlockBuilder.Build` | src/main/java/com/cisco/clique/sdk/IdBlock.java:172-188 | ant is the last block's hash (none on an empty chain). With no subject the block is self-issued: subject = issuer and subject key = the issuer key's public part, written into the builder even when the build then throws. The constructor's NullPointer/IllegalArgument cases append nothing. On success the block is signed, carries iss, sub, pkt and ant, and is appended with its pkt recorded |
| `OldestBuilders.AuthBlockBuilder.constructor` | src/main/java/com/cisco/clique/sdk/AuthBlock.java:140-143 | a builder on the chain with nothing set and no grants |
| `OldestBuilders.AuthBlockBuilder.SetIssuer` | src/main/java/com/cisco/clique/sdk/AuthBlock.java:151-154 | sets the issuer and nothing else |
| `OldestBuilders.AuthBlockBuilder.SetIssuerKey` | src/main/java/com/cisco/clique/sdk/AuthBlock.java:162-165 | sets the issuer key and nothing else |
| `OldestBuilders.AuthBlockBuilder.SetSubject` | src/main/java/com/cisco/clique/sdk/AuthBlock.java:174-177 | sets the subject and nothing else |
| `OldestBuilders.AuthBlockBuilder.AddGrant` | src/main/java/com/cisco/clique/sdk/AuthBlock.java:185-188 | appends the grant |
| `OldestBuilders.AuthBlockBuilder.Build` | src/main/java/com/cisco/clique/sdk/AuthBlock.java:196-215 | on an empty chain the block carries the subject and no ant; otherwise ant = hash of the last block and no subject. A missing issuer or key throws and appends nothing. The grants read back in insertion order, and the still unsigned block is appended |

## Left out

- **Cryptography and encoding.**
  - Not modelled: ES256 signing and verification (section 3.4 of RFC 7518), JWS compact
    serialization and parsing (section 7.1 of RFC 7515), JWK thumbprints (section 3 of
    RFC 7638), SHA-256 and hex encoding. They are arbitrary functions of the `Crypto` record.
  - The signer's randomness is a `nonce` parameter.
- **JSON and text plumbing.**
  - Not modelled: Jackson mapping, pretty printing, `toString`, `getPayload`, `toJson`.
  - A chain's serialization is the sequence of its blocks' serializations.
  - Grants are flat JSON objects of text members.
  - URI syntax is not checked: `getIssuer`/`getSubject` returning null for an invalid URI is
    not modelled, and an absent claim is None.
  - URIs are compared as text. `java.net.URI.equals` ignores the case of the scheme and the
    host, so `HTTP://Alice/x` equals `http://alice/x` in Java but not here. This affects the
    issuer routes (`issuerUri.equals(...)` in validation/IdBlockValidator.java:31), the
    self-issued test of `CurrentBuilders.IdBlockBuilder.Build` (chains/IdBlock.java:66), the
    grant-table keys and the grantee match of hasPrivilege.
  - Grant decoding does not model `URI.create` failing on grantee text that is not a URI.
- **Stores, caches and singletons.**
  - Transport, caches and CliqueCache are two maps.
  - The process-wide trust roots (`Clique.getInstance()`, `SdkUtils`, `SdkCommon`) are passed
    explicitly.
  - The oldest transport holds only identity chains, so its ClassCastException cannot arise.
- **Cycles.** Where the source's recursive issuer validation would not end, the model reports
  `Cycle`. A top-level call must pass every validator (or chain) in `free`.
- **Cross-generation compile breaks.** Each generation is modelled against its own interfaces.
  - `validation/AbstractValidator.java:133` builds a fresh `IdBlockValidator(transport, trustRoots)`
    that does not exist. The model uses the issuer chain the transport holds, with that chain's
    own validator.
  - The two trust-root sets of the current generation are two fields, as in the source. They
    are validation/AbstractValidator.java:17 and the shadowing one at
    validation/IdBlockValidator.java:10.
  - `chains/IdChain.java:18-26` calls `addBlock` from `super(...)` before `_pkts` exists. The
    model's deserialising constructor (`Current.Deserialize`) records each pkt as addBlock
    would on a constructed chain.
  - `IdBlock.java:84,96` reads `cvs._trustRoots` and calls `validate(trustRoots)`, neither of
    which exists: `Oldest.IdChain.Validate` takes the trust roots as a parameter.
  - `AuthChain.java:117` calls `getHash()`, which the sdk chain does not declare. The model
    reads it as `getGenesisHash()` (AbstractChain.java:117-119), the genesis block's hash.
- **Oldest deserialising constructors.** `AuthChain(String)` and `IdChain(cc, String)` are not
  modelled. They parse each element and call the unvalidated `addBlock`, which is modelled.
- **Oldest constructor arguments.** Constructors that throw IllegalArgumentException for a
  null cache (`IdChain(cc)`) have no cache argument to test.
- **Unsigned blocks reaching a validator.**
  - In the source, `getHash` on an unsigned keyed block signs it. The validators here take
    blocks as they are, and an unsigned block where a hash is needed raises
    IllegalStateException (`Oldest.AuthChain.Validate` on the genesis block,
    `Oldest.IdValidateSignature`, the current and intermediate `DoValidation`).
  - In the current generation, chains sign a block before validating it, so this cannot
    happen there.
- **`Oldest.IdChain.Validate`** states one level of the issuer recursion. For a block vouched
  through the issuer chain, true implies only that the chain records the kid; that the issuer
  chain itself validated is stated by `Oldest.IdValidateSignature` (`AllAccepted`). It gives no
  converse for a block that needs the issuer chain: validity is promised for chains of trust
  roots and verifying key rotations only.
- **`Current.Validator.Validate`** states the identity issuer check through `IssuerRoute` and
  `IssuerVouches`. It does not restate that the issuer's chain was validated; that is stated by
  `Current.Validator.BaseValidateIssuer`. The issuer chain's own cursor can move again later in
  the same call (when it is the validating chain), so `Accepted` does not carry that fact.
- **`Current.Deserialize`** does not say which exception a block that fails validation raises;
  the model passes the failing addBlock's exception on unchanged. The replay facts are stated
  only for a validator with no cursor and, for authorization, an empty table. Loading through
  a validator that already has a cursor links the first block to that cursor, which is not
  stated. Whether the issuer check vouched for each block is stated per block by
  `Current.Chain.AddSerialized` (`Accepted`), not restated for the whole chain.
- **`Intermediate.Deserialize`** likewise does not name the exception of a block that fails
  validation, nor restate the issuer check for the whole chain. It states the replay facts only
  when a replay can start from the validator's cursor: always for authorization with an empty
  table, and for identity only without a cursor.
- **`Intermediate.Validator.Validate`** likewise leaves the issuer chain's full replay to
  `Intermediate.Validator.BaseValidateIssuer`.
- **`Intermediate.Chain.Pkts`.** The identity chain the intermediate issuer check consults is
  not part of this model. Its `containsPkt` is read as the set of its blocks' pkt claims.
- **`CurrentBuilders.IdBlockBuilder.Build`** also returns the block it made, so that the
  trust-root insertion for a block that addBlock then refused can be stated. The Java method
  returns it only on success.
- **Concurrency, hashCode, and the demo and facade classes** (Identity, PublicIdentity, Policy,
  Clique, DistributedApp) are not modelled.

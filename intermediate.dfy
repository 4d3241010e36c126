/** The intermediate generation of the engine: chains/Validator with its two subclasses
    chains/AuthBlockValidator and chains/IdBlockValidator (whose issuer check sdk/IdBlockValidator
    repeats), driven by the always-replaying sdk/Chain. Against the current generation: no
    trust-root short-circuit, so every block has its signature and antecedent checked; a
    missing grant-table row or entry is dereferenced; an authorization validator's reset clears
    only the grant table; and validate never reuses earlier work.

    As in the current generation, free is the set of validators that may still be reset and
    replayed, standing in for the unbounded recursion of the issuer check. */
module Intermediate {
  import opened Jose
  import opened Blocks
  import opened Rules
  import Current

  datatype Kind = Identity | Authorization

  /** Public keys by thumbprint and identity chains by subject. */
  class Transport {
    var keys: map<string, Key>
    var chains: map<Uri, Chain>

    constructor (keys: map<string, Key>, chains: map<Uri, Chain>)
      ensures this.keys == keys && this.chains == chains
    {
      this.keys := keys;
      this.chains := chains;
    }
  }

  datatype Snapshot = Snapshot(cursor: Block?, chainIssuer: Option<Uri>, chainSubject: Option<Uri>, grants: GrantTable)

  class Validator {
    const kind: Kind
    const crypto: Crypto
    const transport: Transport
    /** IdBlockValidator._trustRoots, read only by the identity issuer check. */
    const trustRoots: TrustRoots
    /** _currentBlock: the cursor. */
    var currentBlock: Block?
    var chainIssuer: Option<Uri>
    var chainSubject: Option<Uri>
    /** AuthBlockValidator._currentGrants; stays empty for an identity validator. */
    var grants: GrantTable

    constructor (kind: Kind, crypto: Crypto, transport: Transport, trustRoots: TrustRoots)
      ensures this.kind == kind && this.crypto == crypto && this.transport == transport && this.trustRoots == trustRoots
      ensures currentBlock == null && chainIssuer == None && chainSubject == None && grants == map[]
    {
      this.kind := kind;
      this.crypto := crypto;
      this.transport := transport;
      this.trustRoots := trustRoots;
      currentBlock := null;
      chainIssuer := None;
      chainSubject := None;
      grants := map[];
    }

    /** Only signed blocks are ever accepted. */
    predicate Valid()
      reads this, currentBlock
    {
      currentBlock != null ==> currentBlock.Signed()
    }

    function State(): Snapshot
      reads this
    {
      Snapshot(currentBlock, chainIssuer, chainSubject, grants)
    }

    function CursorHash(): Option<string>
      reads this, currentBlock
      requires Valid()
    {
      if currentBlock == null then None else Some(currentBlock.Hash(crypto))
    }

    function CursorPkt(): Option<Option<string>>
      reads this
    {
      if currentBlock == null then None else Some(currentBlock.jwt.claims.pkt)
    }

    function SignatureOutcome(block: Block): Outcome
      reads block, transport
      requires block.Signed()
    {
      CheckSignature(crypto, block.serialization.value, block.Kid(), transport.keys)
    }

    function AntecedentOutcome(block: Block): Outcome
      reads this, currentBlock
      requires Valid()
    {
      CheckAntecedent(block.Antecedent(), CursorHash())
    }

    function IssuerRoute(block: Block): Result<Route>
      reads this, block, trustRoots
      requires block.Signed()
    {
      IdIssuerRoute(block.Hash(crypto) in trustRoots.hashes, block.Kid(), CursorPkt(),
                    block.Issuer(), block.Subject(), chainIssuer)
    }

    function GrantsOutcome(block: Block): Outcome
      reads this
    {
      CheckGrantsUnguarded(grants, block.Antecedent(), block.Issuer(), block.Grants())
    }

    /** The issuer's identity chain is in the transport and lists the block's kid. */
    predicate IssuerVouches(block: Block)
      reads transport, transport.chains.Values
    {
      block.Kid().Some? && block.Issuer().Some? && block.Issuer().value in transport.chains
      && transport.chains[block.Issuer().value].validator.kind == Identity
      && block.Kid().value in transport.chains[block.Issuer().value].Pkts()
    }

    /** What validate promises about a block it accepted, given the validator's state before
        the call: the block is signed and is the new cursor, its signature verifies and its ant
        is the hash of the previous cursor; the issuer check passed; an authorization
        validator's grant check passed on the old table, which now has the block's grants
        folded in. */
    ghost predicate Accepted(block: Block, before: Snapshot)
      reads this, block, before.cursor, trustRoots, transport, transport.chains.Values
    {
      block.Signed() && currentBlock == block
      && (before.cursor != null ==> before.cursor.Signed())
      && SignatureOutcome(block) == Ok
      && block.Antecedent() == HashOf(crypto, before.cursor)
      && (kind == Authorization ==>
            IssuerVouches(block)
            && CheckGrantsUnguarded(before.grants, block.Antecedent(), block.Issuer(), block.Grants()) == Ok
            && block.Grants().Returns? && grants == FoldGrants(before.grants, block.Grants().value))
      && (kind == Identity ==>
            var route := IdIssuerRoute(block.Hash(crypto) in trustRoots.hashes, block.Kid(),
                                       if before.cursor == null then None else Some(before.cursor.jwt.claims.pkt),
                                       block.Issuer(), block.Subject(), before.chainIssuer);
            route.Returns? && (route == Returns(MintDelegation) ==> IssuerVouches(block)))
    }

    /** The part of Accepted that a replay is built from: the block is signed and is the new
        cursor, its signature verifies, its ant is the hash of the previous cursor, and an
        authorization validator has its grants folded into the old table. */
    ghost predicate Advances(block: Block, before: Snapshot)
      reads this, block, before.cursor, transport
    {
      block.Signed() && currentBlock == block
      && (before.cursor != null ==> before.cursor.Signed())
      && SignatureOutcome(block) == Ok
      && block.Antecedent() == HashOf(crypto, before.cursor)
      && (kind == Authorization ==>
            block.Grants().Returns? && grants == FoldGrants(before.grants, block.Grants().value))
    }

    /** reset: Validator.reset forgets the cursor and the pinned issuer and subject; the
        authorization override clears the grant table instead and does not call it, so an
        authorization validator keeps its cursor. */
    method Reset()
      modifies this
      ensures kind == Identity ==> currentBlock == null && chainIssuer == None && chainSubject == None && grants == old(grants)
      ensures kind == Authorization ==> grants == map[] && currentBlock == old(currentBlock)
                                        && chainIssuer == old(chainIssuer) && chainSubject == old(chainSubject)
    {
      if kind == Identity {
        currentBlock := null;
        chainIssuer := None;
        chainSubject := None;
      } else {
        grants := map[];
      }
    }

    /** validate: doValidation, then doPostValidation. Every block has its signature checked
        first, and its antecedent, trust root or not. */
    method Validate(block: Block, free: set<Validator>) returns (r: Outcome)
      requires this !in free && Valid()
      modifies this, free
      decreases free, 4
      ensures Valid()
      ensures r == Ok ==> Accepted(block, old(State()))
      ensures r == Ok ==> currentBlock == block && block.Signed()
      ensures currentBlock == old(currentBlock) || currentBlock == block
      ensures r.Throws? ==> grants == old(grants)
      ensures r.Throws? && currentBlock != old(currentBlock) ==>
                kind == Authorization && block.Grants().Raises? && r == Throws(block.Grants().err)
      ensures r == Ok && kind == Authorization ==>
                block.Grants().Returns? && grants == FoldGrants(old(grants), block.Grants().value)
      ensures kind == Identity ==> grants == old(grants)
      ensures !block.Signed() ==> r == Throws(IllegalState) && State() == old(State())
      ensures block.Signed() && SignatureOutcome(block) != Ok ==> r == SignatureOutcome(block) && State() == old(State())
      ensures old(currentBlock) != null ==> chainIssuer == old(chainIssuer) && chainSubject == old(chainSubject)
      ensures block.Signed() && SignatureOutcome(block) == Ok && old(currentBlock) == null ==>
                chainIssuer == block.Issuer() && chainSubject == block.Subject()
      ensures block.Signed() && SignatureOutcome(block) == Ok && old(AntecedentOutcome(block)) != Ok ==>
                r == old(AntecedentOutcome(block))
      ensures r == Ok ==> SignatureOutcome(block) == Ok && block.Antecedent() == old(CursorHash())
      ensures r == Ok && kind == Authorization ==> IssuerVouches(block) && old(GrantsOutcome(block)) == Ok
      ensures r == Ok && kind == Identity ==>
                old(IssuerRoute(block)).Returns?
                && (old(IssuerRoute(block)) == Returns(MintDelegation) ==> IssuerVouches(block))
      ensures kind == Identity && block.Signed() && SignatureOutcome(block) == Ok && old(AntecedentOutcome(block)) == Ok ==>
                (old(IssuerRoute(block)).Raises? ==> r == Throws(old(IssuerRoute(block)).err))
                && (old(IssuerRoute(block)) in {Returns(TrustedHash), Returns(KeyRotation)} ==> r == Ok)
    {
      r := DoValidation(block, free);
      if r == Ok {
        r := DoPostValidation(block);
      }
    }

    /** doValidation: signature, pinning of the chain issuer and subject while there is no
        cursor, antecedent, issuer; an authorization validator then checks the grants. An
        unsigned block fails at the signature step with IllegalStateException. */
    method DoValidation(block: Block, free: set<Validator>) returns (r: Outcome)
      requires this !in free && Valid()
      modifies this, free
      decreases free, 3
      ensures currentBlock == old(currentBlock) && grants == old(grants)
      ensures r == Ok ==> block.Signed()
      ensures !block.Signed() ==> r == Throws(IllegalState) && State() == old(State())
      ensures block.Signed() && SignatureOutcome(block) != Ok ==> r == SignatureOutcome(block) && State() == old(State())
      ensures old(currentBlock) != null ==> chainIssuer == old(chainIssuer) && chainSubject == old(chainSubject)
      ensures block.Signed() && SignatureOutcome(block) == Ok && old(currentBlock) == null ==>
                chainIssuer == block.Issuer() && chainSubject == block.Subject()
      ensures block.Signed() && SignatureOutcome(block) == Ok && old(AntecedentOutcome(block)) != Ok ==>
                r == old(AntecedentOutcome(block))
      ensures r == Ok ==> SignatureOutcome(block) == Ok && old(AntecedentOutcome(block)) == Ok
      ensures r == Ok && kind == Authorization ==> IssuerVouches(block) && GrantsOutcome(block) == Ok
      ensures r == Ok && kind == Identity ==>
                old(IssuerRoute(block)).Returns?
                && (old(IssuerRoute(block)) == Returns(MintDelegation) ==> IssuerVouches(block))
      ensures kind == Identity && block.Signed() && SignatureOutcome(block) == Ok && old(AntecedentOutcome(block)) == Ok ==>
                (old(IssuerRoute(block)).Raises? ==> r == Throws(old(IssuerRoute(block)).err))
                && (old(IssuerRoute(block)) in {Returns(TrustedHash), Returns(KeyRotation)} ==> r == Ok)
    {
      if !block.Signed() {
        return Throws(IllegalState);
      }
      ghost var route := IssuerRoute(block);
      r := SignatureOutcome(block);
      if r != Ok {
        return;
      }
      if currentBlock == null {
        chainIssuer := block.Issuer();
        chainSubject := block.Subject();
      }
      assert IssuerRoute(block) == route;
      r := AntecedentOutcome(block);
      if r != Ok {
        return;
      }
      if kind == Identity {
        r := IdValidateIssuer(block, free);
      } else {
        r := BaseValidateIssuer(block, free);
        if r != Ok {
          return;
        }
        r := ValidateGrants(block);
      }
    }

    /** IdBlockValidator.validateIssuer (chains/ and sdk/ alike): a trust-root hash or a key
        rotation passes, a non-self-issued block from the pinned issuer (or the first block) is
        checked against its issuer's chain, anything else is rejected. */
    method IdValidateIssuer(block: Block, free: set<Validator>) returns (r: Outcome)
      requires this !in free && block.Signed()
      modifies free
      decreases free, 2
      ensures IssuerRoute(block).Raises? ==> r == Throws(IssuerRoute(block).err)
      ensures IssuerRoute(block) in {Returns(TrustedHash), Returns(KeyRotation)} ==> r == Ok && unchanged(free)
      ensures r == Ok ==> IssuerRoute(block).Returns?
      ensures r == Ok && IssuerRoute(block) == Returns(MintDelegation) ==> IssuerVouches(block)
    {
      var route := IssuerRoute(block);
      match route
      case Raises(e) => r := Throws(e);
      case Returns(how) =>
        if how == MintDelegation {
          r := BaseValidateIssuer(block, free);
        } else {
          r := Ok;
        }
    }

    /** Validator.validateIssuer: kid and issuer present, the issuer's identity chain in the
        transport, that chain replayed without error, and the kid among its key thumbprints. */
    method BaseValidateIssuer(block: Block, free: set<Validator>) returns (r: Outcome)
      requires this !in free
      modifies free
      decreases free, 1
      ensures block.Kid().None? ==> r == Throws(InvalidBlock(NoKid))
      ensures block.Kid().Some? && block.Issuer().None? ==> r == Throws(InvalidBlock(IssuerMissing))
      ensures block.Kid().Some? && block.Issuer().Some? && block.Issuer().value !in transport.chains ==>
                r == Throws(InvalidBlock(IssuerChainNotFound))
      ensures (block.Kid().Some? && block.Issuer().Some? && block.Issuer().value in transport.chains
               && transport.chains[block.Issuer().value].validator.kind != Identity) ==> r == Throws(ClassCast)
      ensures r == Ok ==> IssuerVouches(block)
      ensures r == Ok ==> var c := transport.chains[block.Issuer().value];
                          c.validator in free && c.ReplayedUpTo(|c.blocks|, null)
    {
      if block.Kid().None? {
        return Throws(InvalidBlock(NoKid));
      }
      if block.Issuer().None? {
        return Throws(InvalidBlock(IssuerMissing));
      }
      if block.Issuer().value !in transport.chains {
        return Throws(InvalidBlock(IssuerChainNotFound));
      }
      var issuerChain := transport.chains[block.Issuer().value];
      if issuerChain.validator.kind != Identity {
        return Throws(ClassCast);
      }
      r := issuerChain.Validate(free);
      if r != Ok {
        return;
      }
      if block.Kid().value !in issuerChain.Pkts() {
        return Throws(InvalidBlock(KeyNotInIssuerChain));
      }
    }

    /** AuthBlockValidator.validateGrants: a genesis block passes; otherwise every grant's
        privilege must map to VIRAL_GRANT in the issuer's row, and a missing row or entry is a
        NullPointerException. */
    method ValidateGrants(block: Block) returns (r: Outcome)
      ensures r == GrantsOutcome(block)
    {
      if block.Antecedent().None? {
        return Ok;
      }
      var issuer := block.Issuer();
      var creator := if issuer.Some? && issuer.value in grants then Some(grants[issuer.value]) else None;
      var gs := block.Grants();
      if gs.Raises? {
        return Throws(gs.err);
      }
      r := Current.EachGrantViral(creator, gs.value, NullPointer);
    }

    /** doPostValidation: the block becomes the cursor, then an authorization validator folds
        its grants into the table. */
    method DoPostValidation(block: Block) returns (r: Outcome)
      modifies this
      ensures currentBlock == block
      ensures chainIssuer == old(chainIssuer) && chainSubject == old(chainSubject)
      ensures kind == Identity ==> r == Ok && grants == old(grants)
      ensures kind == Authorization && block.Grants().Raises? ==> r == Throws(block.Grants().err) && grants == old(grants)
      ensures kind == Authorization && block.Grants().Returns? ==>
                r == Ok && grants == FoldGrants(old(grants), block.Grants().value)
    {
      currentBlock := block;
      if kind == Identity {
        return Ok;
      }
      var gs := block.Grants();
      if gs.Raises? {
        return Throws(gs.err);
      }
      FoldIn(gs.value);
      r := Ok;
    }

    /** The loop of doPostValidation. */
    method FoldIn(gs: seq<Grant>)
      modifies this
      ensures grants == FoldGrants(old(grants), gs)
      ensures currentBlock == old(currentBlock) && chainIssuer == old(chainIssuer) && chainSubject == old(chainSubject)
    {
      var i := 0;
      while i < |gs|
        invariant 0 <= i <= |gs|
        invariant currentBlock == old(currentBlock) && chainIssuer == old(chainIssuer) && chainSubject == old(chainSubject)
        invariant grants == FoldGrants(old(grants), gs[..i])
      {
        grants := Put(grants, gs[i]);
        assert gs[..i + 1][..i] == gs[..i];
        i := i + 1;
      }
      assert gs[..i] == gs;
    }
  }

  /** The hash of a signed block, None for no block. */
  function HashOf(crypto: Crypto, b: Block?): Option<string>
    reads b
    requires b != null ==> b.Signed()
  {
    if b == null then None else Some(b.Hash(crypto))
  }

  /** Block i carries as ant the hash of its predecessor, or start for the first block. */
  predicate ChainedAt(crypto: Crypto, start: Option<string>, bs: seq<Block>, i: nat)
    reads bs
    requires i < |bs| && (i > 0 ==> bs[i - 1].Signed())
  {
    bs[i].Antecedent() == (if i == 0 then start else Some(bs[i - 1].Hash(crypto)))
  }

  /** Every block of bs carries its predecessor's hash, the first one start. */
  predicate ChainedFrom(crypto: Crypto, start: Option<string>, bs: seq<Block>)
    reads bs
    requires forall i :: 0 <= i < |bs| ==> bs[i].Signed()
  {
    forall i :: 0 <= i < |bs| ==> ChainedAt(crypto, start, bs, i)
  }

  lemma ChainedStep(crypto: Crypto, start: Option<string>, bs: seq<Block>, i: nat)
    requires i < |bs| && forall j :: 0 <= j <= i ==> bs[j].Signed()
    requires ChainedFrom(crypto, start, bs[..i])
    requires ChainedAt(crypto, start, bs, i)
    ensures ChainedFrom(crypto, start, bs[..i + 1])
  {
    var front, ext := bs[..i], bs[..i + 1];
    forall j | 0 <= j < i + 1
      ensures ChainedAt(crypto, start, ext, j)
    {
      assert ext[j] == bs[j];
      if j > 0 {
        assert ext[j - 1] == bs[j - 1];
      }
      if j < i {
        assert ChainedAt(crypto, start, front, j);
        assert front[j] == bs[j];
        if j > 0 {
          assert front[j - 1] == bs[j - 1];
        }
      }
    }
  }

  /** sdk/Chain. The issuer check asks an identity chain whether one of its blocks published
      a key thumbprint; that question (containsPkt) is answered by Pkts. */
  class Chain {
    const validator: Validator
    var blocks: seq<Block>

    constructor (validator: Validator)
      ensures this.validator == validator && blocks == []
    {
      this.validator := validator;
      blocks := [];
    }

    /** Every block is signed. */
    predicate Valid()
      reads this, blocks
    {
      forall i :: 0 <= i < |blocks| ==> blocks[i].Signed()
    }

    /** The pkt claims of the blocks. */
    function Pkts(): (r: set<string>)
      reads this
      ensures forall p :: p in r <==> exists i :: 0 <= i < |blocks| && blocks[i].jwt.claims.pkt == Some(p)
    {
      set i | 0 <= i < |blocks| && blocks[i].jwt.claims.pkt.Some? :: blocks[i].jwt.claims.pkt.value
    }

    /** lastBlock: null iff the chain is empty, else the last element. */
    function LastBlock(): (b: Block?)
      reads this
      ensures b == null <==> blocks == []
      ensures b != null ==> b == blocks[|blocks| - 1]
    {
      if blocks == [] then null else blocks[|blocks| - 1]
    }

    function Size(): nat
      reads this
    {
      |blocks|
    }

    /** getIssuer: the genesis block's issuer, None on an empty chain. */
    function Issuer(): (r: Option<Uri>)
      reads this
      ensures blocks == [] ==> r == None
      ensures blocks != [] ==> r == blocks[0].Issuer()
    {
      if blocks == [] then None else blocks[0].Issuer()
    }

    /** getSubject: the genesis block's subject, None on an empty chain. */
    function Subject(): (r: Option<Uri>)
      reads this
      ensures blocks == [] ==> r == None
      ensures blocks != [] ==> r == blocks[0].Subject()
    {
      if blocks == [] then None else blocks[0].Subject()
    }

    /** getHash: the genesis block's hash, None on an empty chain. */
    function GenesisHash(): (r: Option<string>)
      reads this, blocks
      requires Valid()
      ensures blocks == [] <==> r == None
      ensures blocks != [] ==> r == Some(validator.crypto.hash(blocks[0].serialization.value))
    {
      if blocks == [] then None else Some(blocks[0].Hash(validator.crypto))
    }

    /** serialize: the blocks' serializations in chain order. */
    function Serialization(): (r: seq<string>)
      reads this, blocks
      requires Valid()
      ensures |r| == |blocks| && forall i :: 0 <= i < |blocks| ==> Some(r[i]) == blocks[i].serialization
    {
      seq(|blocks|, i reads this, blocks requires 0 <= i < |blocks| && Valid() => blocks[i].serialization.value)
    }

    /** addBlock: validate, then append; a block that throws is not appended. */
    method AddBlock(block: Block, free: set<Validator>) returns (r: Outcome)
      requires validator !in free && validator.Valid() && Valid()
      modifies this, validator, free
      ensures Valid() && validator.Valid()
      ensures r == Ok ==> blocks == old(blocks) + [block] && validator.currentBlock == block
      ensures r == Ok ==> validator.Accepted(block, old(validator.State()))
      ensures r.Throws? ==> blocks == old(blocks)
      ensures !block.Signed() ==> r == Throws(IllegalState)
    {
      ghost var before := validator.State();
      r := validator.Validate(block, free);
      if r != Ok {
        return;
      }
      Append(block, before);
    }

    /** The append of addBlock. It only adds to the pkts an issuer check reads, so the
        validator's acceptance of the block still holds afterwards. */
    method Append(block: Block, ghost before: Snapshot)
      requires Valid() && block.Signed() && validator.Accepted(block, before)
      modifies this
      ensures Valid() && blocks == old(blocks) + [block]
      ensures validator.Accepted(block, before)
    {
      blocks := blocks + [block];
      assert forall i :: 0 <= i < |old(blocks)| ==> blocks[i] == old(blocks)[i];
    }

    /** The deserialising constructor's step: parse one element and add it. */
    method AddSerialized(text: Option<string>, free: set<Validator>) returns (r: Outcome)
      requires validator !in free && validator.Valid() && Valid()
      modifies this, validator, free
      ensures Valid() && validator.Valid()
      ensures text.None? ==> r == Throws(IllegalArgument) && blocks == old(blocks)
      ensures text.Some? && validator.crypto.parse(text.value).None? ==> r == Throws(Malformed) && blocks == old(blocks)
      ensures r == Ok ==> |blocks| == |old(blocks)| + 1 && blocks[..|old(blocks)|] == old(blocks)
                          && blocks[|old(blocks)|].serialization == text
                          && validator.Accepted(blocks[|old(blocks)|], old(validator.State()))
      ensures r.Throws? ==> blocks == old(blocks)
    {
      var parsed := ParseBlock(validator.crypto, text);
      if parsed.Raises? {
        return Throws(parsed.err);
      }
      r := AddBlock(parsed.value, free);
    }

    /** validate: reset the validator and replay every block in order, stopping at the first
        that throws. Nothing is cached: the chain is replayed on every call. After an identity
        reset the replay starts from no cursor; an authorization validator keeps its cursor,
        so the genesis block must then carry the hash of the block validated last. */
    method Validate(free: set<Validator>) returns (r: Outcome)
      requires validator.kind == Identity || validator.Valid()
      modifies free
      decreases free, 0
      ensures validator !in free ==> r == Throws(Cycle) && unchanged(free)
      ensures validator in free ==> validator.Valid()
      ensures validator in free && r == Ok ==>
                ReplayedUpTo(|blocks|, if validator.kind == Identity then null else old(validator.currentBlock))
      ensures (validator.kind == Authorization && old(validator.currentBlock) != null && blocks != []
               && blocks[0].Antecedent().None?) ==> r != Ok
    {
      if validator !in free {
        return Throws(Cycle);
      }
      ghost var start := if validator.kind == Identity then null else validator.currentBlock;
      validator.Reset();
      ReplayedNone(start);
      r := ReplayAll(start, free - {validator});
      if r == Ok && start != null && blocks != [] {
        GenesisCarriesStart(start);
      }
    }

    /** The replay loop of validate, from the cursor start the reset left. */
    method ReplayAll(ghost start: Block?, free: set<Validator>) returns (r: Outcome)
      requires ReplayedUpTo(0, start) && validator !in free
      modifies validator, free
      decreases free, 6
      ensures validator.Valid()
      ensures r == Ok ==> ReplayedUpTo(|blocks|, start)
    {
      var i := 0;
      while i < |blocks|
        invariant 0 <= i <= |blocks|
        invariant ReplayedUpTo(i, start)
      {
        r := ReplayBlock(i, start, free);
        if r != Ok {
          return;
        }
        i := i + 1;
      }
      r := Ok;
    }

    /** What replaying the first i blocks after a reset establishes, start being the cursor
        the reset left: the cursor is block i - 1, every block is signed and carries its
        predecessor's hash (start's for the first), and an authorization validator's table is
        the fold of their grants. */
    predicate ReplayedUpTo(i: nat, start: Block?)
      reads this, blocks, validator, validator.currentBlock, start
      requires i <= |blocks|
    {
      validator.Valid()
      && (start != null ==> start.Signed())
      && (validator.kind == Identity ==> start == null)
      && (if i == 0 then validator.currentBlock == start else validator.currentBlock == blocks[i - 1])
      && (forall j :: 0 <= j < i ==> blocks[j].Signed())
      && ChainedFrom(validator.crypto, HashOf(validator.crypto, start), blocks[..i])
      && (validator.kind == Authorization ==> validator.grants == Current.ReplayGrants(blocks[..i]))
    }

    lemma ReplayedNone(start: Block?)
      requires validator.currentBlock == start && validator.Valid()
      requires validator.kind == Identity ==> start == null
      requires validator.kind == Authorization ==> validator.grants == map[]
      ensures ReplayedUpTo(0, start)
    {
      assert blocks[..0] == [];
    }

    /** After a replay from a cursor, the genesis block carries that cursor's hash. */
    lemma GenesisCarriesStart(start: Block?)
      requires blocks != [] && start != null && ReplayedUpTo(|blocks|, start)
      ensures blocks[0].Antecedent().Some?
    {
      assert blocks[..|blocks|][0] == blocks[0];
      assert ChainedAt(validator.crypto, HashOf(validator.crypto, start), blocks[..|blocks|], 0);
    }

    /** One iteration of the replay loop. */
    method ReplayBlock(i: nat, ghost start: Block?, free: set<Validator>) returns (r: Outcome)
      requires i < |blocks| && ReplayedUpTo(i, start) && validator !in free
      modifies validator, free
      decreases free, 5
      ensures validator.Valid()
      ensures r == Ok ==> ReplayedUpTo(i + 1, start)
    {
      ghost var cursorHash := validator.CursorHash();
      ghost var oldGrants := validator.grants;
      assert cursorHash == (if i == 0 then HashOf(validator.crypto, start) else Some(blocks[i - 1].Hash(validator.crypto)));
      assert validator.kind == Authorization ==> oldGrants == Current.ReplayGrants(blocks[..i]);
      r := validator.Validate(blocks[i], free);
      if r != Ok {
        return;
      }
      assert validator.kind == Authorization ==> validator.grants == FoldGrants(oldGrants, Current.GrantsOrNone(blocks[i]));
      assert ChainedFrom(validator.crypto, HashOf(validator.crypto, start), blocks[..i]);
      assert ChainedAt(validator.crypto, HashOf(validator.crypto, start), blocks, i);
      ReplayStep(i, start);
    }

    lemma ReplayStep(i: nat, start: Block?)
      requires i < |blocks| && validator.Valid() && validator.currentBlock == blocks[i]
      requires start != null ==> start.Signed()
      requires validator.kind == Identity ==> start == null
      requires forall j :: 0 <= j <= i ==> blocks[j].Signed()
      requires ChainedFrom(validator.crypto, HashOf(validator.crypto, start), blocks[..i])
      requires ChainedAt(validator.crypto, HashOf(validator.crypto, start), blocks, i)
      requires validator.kind == Authorization ==>
                 validator.grants == FoldGrants(Current.ReplayGrants(blocks[..i]), Current.GrantsOrNone(blocks[i]))
      ensures ReplayedUpTo(i + 1, start)
    {
      ChainedStep(validator.crypto, HashOf(validator.crypto, start), blocks, i);
      Current.ReplayGrantsStep(blocks, i);
    }

    /** The blocks of bs carry the first |bs| texts as their serializations, in order. */
    ghost predicate Carries(bs: seq<Block>, texts: seq<string>)
      reads bs
    {
      |bs| <= |texts| && forall j :: 0 <= j < |bs| ==> bs[j].serialization == Some(texts[j])
    }

    /** Every block of bs is signed and verifies under the transport's key for its kid. */
    ghost predicate Verified(bs: seq<Block>)
      reads bs, validator.transport
    {
      forall j :: 0 <= j < |bs| ==> bs[j].Signed() && validator.SignatureOutcome(bs[j]) == Ok
    }

    /** A valid chain carrying exactly the texts serializes to them. */
    lemma CarriedSerialization(texts: seq<string>)
      requires Valid() && |blocks| == |texts| && Carries(blocks, texts)
      ensures Serialization() == texts
    {
    }

    /** ReplayedUpTo with the prefix and the validator state given as values: what remains
        true of them while later blocks are added. */
    ghost predicate ReplayedAs(bs: seq<Block>, s: Snapshot, start: Block?)
      reads bs, start
    {
      (start != null ==> start.Signed())
      && (validator.kind == Identity ==> start == null)
      && s.cursor == (if bs == [] then start else bs[|bs| - 1])
      && (forall j :: 0 <= j < |bs| ==> bs[j].Signed())
      && ChainedFrom(validator.crypto, HashOf(validator.crypto, start), bs)
      && (validator.kind == Authorization ==> s.grants == Current.ReplayGrants(bs))
    }

    /** ReplayedUpTo(i, start) as values. */
    lemma ReplayedSnapshot(i: nat, start: Block?)
      requires i <= |blocks| && ReplayedUpTo(i, start)
      ensures ReplayedAs(blocks[..i], validator.State(), start)
    {
      assert forall j :: 0 <= j < i ==> blocks[..i][j] == blocks[j];
    }

    /** The state the deserialising constructor keeps between elements: the chain holds one
        block for each of the first n elements, carrying that element as its serialization,
        each of them parses, every block's signature verifies, the validator's cursor is the
        last block, and when the validator started from a cursor a replay can start from
        (start) the chain is a replay from it. */
    ghost predicate Loaded(texts: seq<string>, n: nat, replayable: bool, start: Block?)
      reads this, blocks, validator, validator.currentBlock, validator.transport, start
    {
      Valid() && validator.Valid() && n <= |texts| && |blocks| == n && Carries(blocks, texts) && Verified(blocks)
      && (forall j :: 0 <= j < n ==> validator.crypto.parse(texts[j]).Some?)
      && (n > 0 ==> validator.currentBlock == blocks[n - 1])
      && (replayable ==> ReplayedUpTo(n, start))
    }

    /** A new chain has loaded none of the elements; when a replay can start from the
        validator's cursor (start) it is an empty replay from it. */
    lemma LoadedNone(texts: seq<string>, replayable: bool, start: Block?)
      requires blocks == [] && validator.Valid() && validator.currentBlock == start
      requires replayable ==> (validator.kind == Identity ==> start == null)
                              && (validator.kind == Authorization ==> validator.grants == map[])
      ensures Loaded(texts, 0, replayable, start)
    {
      if replayable {
        ReplayedNone(start);
      }
    }

    /** One accepted element extends the loaded state. */
    lemma LoadedStep(ob: seq<Block>, texts: seq<string>, replayable: bool, start: Block?, before: Snapshot)
      requires Valid() && validator.Valid() && |ob| < |texts| && |blocks| == |ob| + 1 && blocks[..|ob|] == ob
      requires blocks[|ob|].serialization == Some(texts[|ob|])
      requires Carries(ob, texts) && Verified(ob) && forall j :: 0 <= j <= |ob| ==> validator.crypto.parse(texts[j]).Some?
      requires validator.Advances(blocks[|ob|], before) && (replayable ==> ReplayedAs(ob, before, start))
      ensures Loaded(texts, |ob| + 1, replayable, start)
    {
      assert forall j :: 0 <= j < |ob| ==> blocks[j] == ob[j];
      assert Carries(blocks, texts);
      assert Verified(blocks);
      if replayable {
        assert ChainedAt(validator.crypto, HashOf(validator.crypto, start), blocks, |ob|);
        ReplayStep(|ob|, start);
      }
    }

    /** addBlock on a parsed text that is present: an unparsable text throws, and a block
        that is added is the parsed text, which advanced the validator; what held of the
        blocks already in the chain (ob) still holds. */
    method AddText(text: string, free: set<Validator>, ghost ob: seq<Block>, ghost texts: seq<string>,
                   ghost before: Snapshot, ghost replayable: bool, ghost start: Block?) returns (r: Outcome)
      requires validator !in free && validator.Valid() && Valid() && ob == blocks
      requires (replayable ==> ReplayedAs(ob, before, start)) && Carries(ob, texts) && Verified(ob)
      modifies this, validator, free
      ensures (replayable ==> ReplayedAs(ob, before, start)) && Carries(ob, texts) && Verified(ob)
      ensures Valid() && validator.Valid()
      ensures validator.crypto.parse(text).None? ==> r == Throws(Malformed)
      ensures r == Ok ==> |blocks| == |old(blocks)| + 1 && blocks[..|old(blocks)|] == old(blocks)
                          && blocks[|old(blocks)|].serialization == Some(text)
                          && validator.Advances(blocks[|old(blocks)|], old(validator.State()))
    {
      r := AddSerialized(Some(text), free);
    }

    /** One step of the deserialising constructor: the next element is parsed and added; an
        unparsable one throws, and an accepted one extends the loaded state. */
    method LoadNext(texts: seq<string>, n: nat, free: set<Validator>, ghost replayable: bool, ghost start: Block?)
      returns (r: Outcome)
      requires validator !in free && n < |texts| && Loaded(texts, n, replayable, start)
      modifies this, validator, free
      ensures Valid() && validator.Valid()
      ensures validator.crypto.parse(texts[n]).None? ==> r == Throws(Malformed)
      ensures r == Ok ==> Loaded(texts, n + 1, replayable, start)
    {
      ghost var ob := blocks;
      ghost var before := validator.State();
      if replayable {
        ReplayedSnapshot(|blocks|, start);
        assert blocks[..|blocks|] == blocks;
      }
      r := AddText(texts[n], free, ob, texts, before, replayable, start);
      if r == Ok {
        LoadedStep(ob, texts, replayable, start, before);
      }
    }

    /** The loop of the deserialising constructor: every element in order, stopping at the
        first that throws. */
    method LoadAll(texts: seq<string>, free: set<Validator>, ghost replayable: bool, ghost start: Block?)
      returns (r: Outcome)
      requires validator !in free && Loaded(texts, 0, replayable, start)
      modifies this, validator, free
      ensures Valid() && validator.Valid()
      ensures r == Ok ==> Loaded(texts, |texts|, replayable, start)
    {
      for i := 0 to |texts|
        invariant Loaded(texts, i, replayable, start)
      {
        r := LoadNext(texts, i, free, replayable, start);
        if r.Throws? {
          return;
        }
      }
      r := Ok;
    }
  }

  /** The deserialising constructor: IllegalArgumentException for a missing serialization,
      else a new chain with every element added in order; the first that fails makes the
      constructor throw. */
  method Deserialize(validator: Validator, texts: Option<seq<string>>, free: set<Validator>) returns (r: Result<Chain>)
    requires validator !in free && validator.Valid()
    modifies validator, free
    ensures texts.None? ==> r == Raises(IllegalArgument)
    ensures r.Returns? ==> texts.Some? && fresh(r.value) && r.value.validator == validator && r.value.Valid()
                           && |r.value.blocks| == |texts.value|
                           && r.value.Serialization() == texts.value
    ensures r.Returns? && texts.value != [] ==> validator.currentBlock == r.value.LastBlock()
    ensures r.Returns? ==> r.value.Verified(r.value.blocks)
    ensures r.Returns? && (validator.kind == Identity ==> old(validator.currentBlock) == null)
            && (validator.kind == Authorization ==> old(validator.grants) == map[]) ==>
              r.value.ReplayedUpTo(|texts.value|, old(validator.currentBlock))
    ensures texts.Some? && (exists j :: 0 <= j < |texts.value| && validator.crypto.parse(texts.value[j]).None?) ==>
              r.Raises?
  {
    if texts.None? {
      return Raises(IllegalArgument);
    }
    ghost var start := validator.currentBlock;
    ghost var replayable := (validator.kind == Identity ==> start == null)
                            && (validator.kind == Authorization ==> validator.grants == map[]);
    var chain := new Chain(validator);
    chain.LoadedNone(texts.value, replayable, start);
    var added := chain.LoadAll(texts.value, free, replayable, start);
    if added.Throws? {
      return Raises(added.err);
    }
    assert texts.value != [] ==> validator.currentBlock == chain.LastBlock();
    chain.CarriedSerialization(texts.value);
    r := Returns(chain);
  }
}

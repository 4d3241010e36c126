/** The current generation of the engine: the validators of the validation package and the
    chains of the chains package. One Validator class stands for AbstractValidator and its two
    subclasses, told apart by kind; one Chain class for AbstractChain, IdChain and AuthChain.

    Issuer-chain validation recurses through the transport without a cycle guard in the source.
    Here every validating method carries free, the validators that may still be reset and
    replayed: a chain whose validator has to replay but is already busy further up the call
    stack reports Cycle instead of recursing. Top-level callers pass every validator of the
    transport's chains. */
module Current {
  import opened Jose
  import opened Blocks
  import opened Rules
  import Privileges

  datatype Kind = Identity | Authorization

  /** The store the validators read: public keys by thumbprint and identity chains by subject. */
  class Transport {
    var keys: map<string, Key>
    var chains: map<Uri, Chain>

    constructor (keys: map<string, Key>, chains: map<Uri, Chain>)
      ensures this.keys == keys && this.chains == chains
    {
      this.keys := keys;
      this.chains := chains;
    }
  }

  /** Everything a validator updates, for stating what a call leaves alone. */
  datatype Snapshot = Snapshot(cursor: Block?, chainIssuer: Option<Uri>, chainSubject: Option<Uri>, grants: GrantTable)

  class Validator {
    const kind: Kind
    const crypto: Crypto
    const transport: Transport
    /** AbstractValidator._trustRoots, consulted before any other check. */
    const trustRoots: TrustRoots
    /** IdBlockValidator._trustRoots, the process-wide set consulted by the issuer check. */
    const issuerTrustRoots: TrustRoots
    /** _lastValidated: the cursor, null until a block has been accepted. */
    var lastValidated: Block?
    var chainIssuer: Option<Uri>
    var chainSubject: Option<Uri>
    /** AuthBlockValidator._currentGrants; stays empty for an identity validator. */
    var grants: GrantTable

    constructor (kind: Kind, crypto: Crypto, transport: Transport, trustRoots: TrustRoots, issuerTrustRoots: TrustRoots)
      ensures this.kind == kind && this.crypto == crypto && this.transport == transport
      ensures this.trustRoots == trustRoots && this.issuerTrustRoots == issuerTrustRoots
      ensures lastValidated == null && chainIssuer == None && chainSubject == None && grants == map[]
    {
      this.kind := kind;
      this.crypto := crypto;
      this.transport := transport;
      this.trustRoots := trustRoots;
      this.issuerTrustRoots := issuerTrustRoots;
      lastValidated := null;
      chainIssuer := None;
      chainSubject := None;
      grants := map[];
    }

    /** Only signed blocks are ever accepted, so the cursor always has a hash. */
    predicate Valid()
      reads this, lastValidated
    {
      lastValidated != null ==> lastValidated.Signed()
    }

    function State(): Snapshot
      reads this
    {
      Snapshot(lastValidated, chainIssuer, chainSubject, grants)
    }

    function CursorHash(): Option<string>
      reads this, lastValidated
      requires Valid()
    {
      if lastValidated == null then None else Some(lastValidated.Hash(crypto))
    }

    /** The previous block's pkt claim, None when no block has been validated. */
    function CursorPkt(): Option<Option<string>>
      reads this
    {
      if lastValidated == null then None else Some(lastValidated.jwt.claims.pkt)
    }

    predicate Trusted(block: Block)
      reads block, trustRoots
      requires block.Signed()
    {
      block.Hash(crypto) in trustRoots.hashes
    }

    function SignatureOutcome(block: Block): Outcome
      reads block, transport
      requires block.Signed()
    {
      CheckSignature(crypto, block.serialization.value, block.Kid(), transport.keys)
    }

    function AntecedentOutcome(block: Block): Outcome
      reads this, lastValidated
      requires Valid()
    {
      CheckAntecedent(block.Antecedent(), CursorHash())
    }

    function IssuerRoute(block: Block): Result<Route>
      reads this, block, issuerTrustRoots
      requires block.Signed()
    {
      IdIssuerRoute(block.Hash(crypto) in issuerTrustRoots.hashes, block.Kid(), CursorPkt(),
                    block.Issuer(), block.Subject(), chainIssuer)
    }

    function GrantsOutcome(block: Block): Outcome
      reads this
    {
      CheckGrants(grants, block.Antecedent(), block.Issuer(), block.Grants())
    }

    /** The issuer's identity chain is in the transport and lists the block's kid. */
    predicate IssuerVouches(block: Block)
      reads transport, transport.chains.Values
    {
      block.Kid().Some? && block.Issuer().Some? && block.Issuer().value in transport.chains
      && transport.chains[block.Issuer().value].validator.kind == Identity
      && block.Kid().value in transport.chains[block.Issuer().value].pkts
    }

    /** What validate promises about a block it accepted, given the validator's state before
        the call: the block is signed and is the new cursor; unless it is a trust root, its
        signature verifies, its ant is the hash of the previous cursor and the issuer check
        passed; an authorization validator's grant check passed on the old table, which now
        has the block's grants folded in. */
    ghost predicate Accepted(block: Block, before: Snapshot)
      reads this, block, before.cursor, trustRoots, issuerTrustRoots, transport, transport.chains.Values
    {
      block.Signed() && lastValidated == block
      && (before.cursor != null ==> before.cursor.Signed())
      && (!Trusted(block) ==>
            SignatureOutcome(block) == Ok
            && block.Antecedent() == (if before.cursor == null then None else Some(before.cursor.Hash(crypto))))
      && (kind == Authorization ==>
            CheckGrants(before.grants, block.Antecedent(), block.Issuer(), block.Grants()) == Ok
            && block.Grants().Returns? && grants == FoldGrants(before.grants, block.Grants().value))
      && (kind == Authorization && !Trusted(block) ==> IssuerVouches(block))
      && (kind == Identity && !Trusted(block) ==>
            var route := IdIssuerRoute(block.Hash(crypto) in issuerTrustRoots.hashes, block.Kid(),
                                       if before.cursor == null then None else Some(before.cursor.jwt.claims.pkt),
                                       block.Issuer(), block.Subject(), before.chainIssuer);
            route.Returns? && (route == Returns(MintDelegation) ==> IssuerVouches(block)))
      && (kind == Identity && before.cursor == null && SelfIssued(block) ==>
            block.Hash(crypto) in trustRoots.hashes + issuerTrustRoots.hashes)
    }

    /** The part of Accepted that a replay is built from: the block is signed and is the new
        cursor; unless it is a trust root, its signature verifies and its ant is the hash of
        the previous cursor; an authorization validator has its grants folded into the old
        table; and a self-issued identity genesis block is a trust root. */
    ghost predicate Advances(block: Block, before: Snapshot)
      reads this, block, before.cursor, trustRoots, issuerTrustRoots, transport
    {
      block.Signed() && lastValidated == block
      && (before.cursor != null ==> before.cursor.Signed())
      && (!Trusted(block) ==>
            SignatureOutcome(block) == Ok
            && block.Antecedent() == (if before.cursor == null then None else Some(before.cursor.Hash(crypto))))
      && (kind == Authorization ==>
            block.Grants().Returns? && grants == FoldGrants(before.grants, block.Grants().value))
      && (kind == Identity && before.cursor == null && SelfIssued(block) ==>
            block.Hash(crypto) in trustRoots.hashes + issuerTrustRoots.hashes)
    }

    /** reset: forget the cursor and the pinned issuer and subject, and for an authorization
        validator the grant table; the trust roots are not touched. */
    method Reset()
      modifies this
      ensures lastValidated == null && chainIssuer == None && chainSubject == None
      ensures kind == Authorization ==> grants == map[]
      ensures kind == Identity ==> grants == old(grants)
    {
      lastValidated := null;
      chainIssuer := None;
      chainSubject := None;
      if kind == Authorization {
        grants := map[];
      }
    }

    /** addTrustRoot: add to the shared set and nothing else. */
    method AddTrustRoot(hash: string)
      modifies trustRoots
      ensures trustRoots.hashes == old(trustRoots.hashes) + {hash}
    {
      trustRoots.Add(hash);
    }

    /** validate: every check of doValidation, then doPostValidation. A block that fails a check
        never becomes the cursor and leaves the grant table alone; the one way the cursor moves
        and the call still throws is an authorization block whose grants claim cannot be read
        after the checks passed. */
    method Validate(block: Block, free: set<Validator>) returns (r: Outcome)
      requires this !in free && Valid()
      modifies this, free
      decreases free, 4
      ensures Valid()
      ensures r == Ok ==> Accepted(block, old(State()))
      ensures r == Ok ==> lastValidated == block && block.Signed()
      ensures lastValidated == old(lastValidated) || lastValidated == block
      ensures r.Throws? ==> grants == old(grants)
      ensures r.Throws? && lastValidated != old(lastValidated) ==>
                kind == Authorization && block.Grants().Raises? && r == Throws(block.Grants().err)
      ensures r == Ok && kind == Authorization ==>
                block.Grants().Returns? && grants == FoldGrants(old(grants), block.Grants().value)
      ensures kind == Identity ==> grants == old(grants)
      ensures !block.Signed() ==> r == Throws(IllegalState) && State() == old(State())
      ensures old(lastValidated) != null ==> chainIssuer == old(chainIssuer) && chainSubject == old(chainSubject)
      ensures block.Signed() && Trusted(block) ==> chainIssuer == old(chainIssuer) && chainSubject == old(chainSubject)
      ensures block.Signed() && Trusted(block) && kind == Identity ==> r == Ok
      ensures block.Signed() && Trusted(block) && kind == Authorization ==>
                (r == Ok <==> old(GrantsOutcome(block)) == Ok && block.Grants().Returns?)
      ensures block.Signed() && !Trusted(block) && SignatureOutcome(block) != Ok ==>
                r == SignatureOutcome(block) && State() == old(State())
      ensures block.Signed() && !Trusted(block) && SignatureOutcome(block) == Ok && old(lastValidated) == null ==>
                chainIssuer == block.Issuer() && chainSubject == block.Subject()
      ensures block.Signed() && !Trusted(block) && SignatureOutcome(block) == Ok && old(AntecedentOutcome(block)) != Ok ==>
                r == old(AntecedentOutcome(block))
      ensures r == Ok && !Trusted(block) ==>
                SignatureOutcome(block) == Ok && block.Antecedent() == old(CursorHash())
      ensures r == Ok && kind == Authorization ==> old(GrantsOutcome(block)) == Ok
      ensures r == Ok && kind == Authorization && !Trusted(block) ==> IssuerVouches(block)
      ensures r == Ok && kind == Identity && !Trusted(block) ==>
                old(IssuerRoute(block)).Returns?
                && (old(IssuerRoute(block)) == Returns(MintDelegation) ==> IssuerVouches(block))
      ensures kind == Identity && block.Signed() && !Trusted(block) && SignatureOutcome(block) == Ok
              && old(AntecedentOutcome(block)) == Ok ==>
                (old(IssuerRoute(block)).Raises? ==> r == Throws(old(IssuerRoute(block)).err))
                && (old(IssuerRoute(block)) in {Returns(TrustedHash), Returns(KeyRotation)} ==> r == Ok)
      ensures r == Ok && kind == Identity && old(lastValidated) == null && SelfIssued(block) ==>
                block.Hash(crypto) in trustRoots.hashes + issuerTrustRoots.hashes
    {
      r := DoValidation(block, free);
      if r == Ok {
        r := DoPostValidation(block);
      }
    }

    /** doValidation: the trust-root short-circuit, then signature, pinning of the chain issuer
        and subject while no block has been validated, antecedent and issuer; for an
        authorization validator the grant check follows, trust root or not. */
    method DoValidation(block: Block, free: set<Validator>) returns (r: Outcome)
      requires this !in free && Valid()
      modifies this, free
      decreases free, 3
      ensures lastValidated == old(lastValidated) && grants == old(grants)
      ensures r == Ok ==> block.Signed()
      ensures !block.Signed() ==> r == Throws(IllegalState) && State() == old(State())
      ensures old(lastValidated) != null ==> chainIssuer == old(chainIssuer) && chainSubject == old(chainSubject)
      ensures block.Signed() && Trusted(block) ==> chainIssuer == old(chainIssuer) && chainSubject == old(chainSubject)
      ensures block.Signed() && Trusted(block) ==> r == (if kind == Authorization then GrantsOutcome(block) else Ok)
      ensures block.Signed() && !Trusted(block) && SignatureOutcome(block) != Ok ==>
                r == SignatureOutcome(block) && State() == old(State())
      ensures block.Signed() && !Trusted(block) && SignatureOutcome(block) == Ok && old(lastValidated) == null ==>
                chainIssuer == block.Issuer() && chainSubject == block.Subject()
      ensures block.Signed() && !Trusted(block) && SignatureOutcome(block) == Ok && old(AntecedentOutcome(block)) != Ok ==>
                r == old(AntecedentOutcome(block))
      ensures r == Ok && !Trusted(block) ==> SignatureOutcome(block) == Ok && old(AntecedentOutcome(block)) == Ok
      ensures r == Ok && kind == Authorization ==> GrantsOutcome(block) == Ok
      ensures r == Ok && kind == Authorization && !Trusted(block) ==> IssuerVouches(block)
      ensures r == Ok && kind == Identity && !Trusted(block) ==>
                old(IssuerRoute(block)).Returns?
                && (old(IssuerRoute(block)) == Returns(MintDelegation) ==> IssuerVouches(block))
      ensures kind == Identity && block.Signed() && !Trusted(block) && SignatureOutcome(block) == Ok
              && old(AntecedentOutcome(block)) == Ok ==>
                (old(IssuerRoute(block)).Raises? ==> r == Throws(old(IssuerRoute(block)).err))
                && (old(IssuerRoute(block)) in {Returns(TrustedHash), Returns(KeyRotation)} ==> r == Ok)
    {
      if !block.Signed() {
        return Throws(IllegalState);
      }
      ghost var route := IssuerRoute(block);
      ghost var antecedent := AntecedentOutcome(block);
      if block.Hash(crypto) !in trustRoots.hashes {
        r := SignatureOutcome(block);
        if r != Ok {
          return;
        }
        if lastValidated == null {
          chainIssuer := block.Issuer();
          chainSubject := block.Subject();
        }
        assert IssuerRoute(block) == route;
        r := AntecedentOutcome(block);
        if r != Ok {
          return;
        }
        if kind == Identity {
          r := IdValidateIssuer(block, free);
        } else {
          r := BaseValidateIssuer(block, free);
        }
        if r != Ok {
          return;
        }
      }
      if kind == Authorization {
        r := ValidateGrants(block);
      } else {
        r := Ok;
      }
    }

    /** IdBlockValidator.validateIssuer: a trust-root hash or a key rotation passes at once, a
        non-self-issued block from the pinned issuer (or the first block) is checked against
        its issuer's chain, and anything else is rejected. */
    method IdValidateIssuer(block: Block, free: set<Validator>) returns (r: Outcome)
      requires this !in free && block.Signed()
      modifies free
      decreases free, 2
      ensures IssuerRoute(block).Raises? ==> r == Throws(IssuerRoute(block).err)
      ensures IssuerRoute(block) in {Returns(TrustedHash), Returns(KeyRotation)} ==> r == Ok && unchanged(free)
      ensures r == Ok ==> IssuerRoute(block).Returns?
      ensures r == Ok && IssuerRoute(block) == Returns(MintDelegation) ==> IssuerVouches(block)
    {
      var route := IssuerRoute(block);
      match route
      case Raises(e) => r := Throws(e);
      case Returns(how) =>
        if how == MintDelegation {
          r := BaseValidateIssuer(block, free);
        } else {
          r := Ok;
        }
    }

    /** AbstractValidator.validateIssuer: kid and issuer present, the issuer's identity chain in
        the transport, that chain validated, and the kid among its key thumbprints. */
    method BaseValidateIssuer(block: Block, free: set<Validator>) returns (r: Outcome)
      requires this !in free
      modifies free
      decreases free, 1
      ensures block.Kid().None? ==> r == Throws(InvalidBlock(NoKid))
      ensures block.Kid().Some? && block.Issuer().None? ==> r == Throws(InvalidBlock(IssuerMissing))
      ensures block.Kid().Some? && block.Issuer().Some? && block.Issuer().value !in transport.chains ==>
                r == Throws(InvalidBlock(IssuerChainNotFound))
      ensures (block.Kid().Some? && block.Issuer().Some? && block.Issuer().value in transport.chains
               && transport.chains[block.Issuer().value].validator.kind != Identity) ==> r == Throws(ClassCast)
      ensures r == Ok ==> IssuerVouches(block)
                          && transport.chains[block.Issuer().value].validator.lastValidated
                             == transport.chains[block.Issuer().value].LastBlock()
    {
      if block.Kid().None? {
        return Throws(InvalidBlock(NoKid));
      }
      if block.Issuer().None? {
        return Throws(InvalidBlock(IssuerMissing));
      }
      if block.Issuer().value !in transport.chains {
        return Throws(InvalidBlock(IssuerChainNotFound));
      }
      var issuerChain := transport.chains[block.Issuer().value];
      if issuerChain.validator.kind != Identity {
        return Throws(ClassCast);
      }
      r := issuerChain.Validate(free);
      if r != Ok {
        return;
      }
      if block.Kid().value !in issuerChain.pkts {
        return Throws(InvalidBlock(KeyNotInIssuerChain));
      }
    }

    /** AuthBlockValidator.validateGrants, a loop over the block's grants that throws at the
        first one the issuer does not hold virally. */
    method ValidateGrants(block: Block) returns (r: Outcome)
      ensures r == GrantsOutcome(block)
    {
      if block.Antecedent().None? {
        return Ok;
      }
      var issuer := block.Issuer();
      if issuer.None? || issuer.value !in grants {
        return Throws(InvalidParameter(NoPrivilegesOnChain));
      }
      var creator := grants[issuer.value];
      var gs := block.Grants();
      if gs.Raises? {
        return Throws(gs.err);
      }
      r := EachGrantViral(Some(creator), gs.value, InvalidParameter(NoGrantForPrivilege));
    }

    /** doPostValidation: the block becomes the cursor; an authorization validator then folds
        the block's grants into its table in order (putIfAbsent the row, put the entry). */
    method DoPostValidation(block: Block) returns (r: Outcome)
      modifies this
      ensures lastValidated == block
      ensures chainIssuer == old(chainIssuer) && chainSubject == old(chainSubject)
      ensures kind == Identity ==> r == Ok && grants == old(grants)
      ensures kind == Authorization && block.Grants().Raises? ==> r == Throws(block.Grants().err) && grants == old(grants)
      ensures kind == Authorization && block.Grants().Returns? ==>
                r == Ok && grants == FoldGrants(old(grants), block.Grants().value)
    {
      lastValidated := block;
      if kind == Identity {
        return Ok;
      }
      var gs := block.Grants();
      if gs.Raises? {
        return Throws(gs.err);
      }
      FoldIn(gs.value);
      r := Ok;
    }

    /** The loop of doPostValidation: each grant in order sets its grantee's entry for its
        privilege. */
    method FoldIn(gs: seq<Grant>)
      modifies this
      ensures grants == FoldGrants(old(grants), gs)
      ensures lastValidated == old(lastValidated) && chainIssuer == old(chainIssuer) && chainSubject == old(chainSubject)
    {
      var i := 0;
      while i < |gs|
        invariant 0 <= i <= |gs|
        invariant lastValidated == old(lastValidated) && chainIssuer == old(chainIssuer) && chainSubject == old(chainSubject)
        invariant grants == FoldGrants(old(grants), gs[..i])
      {
        grants := Put(grants, gs[i]);
        assert gs[..i + 1][..i] == gs[..i];
        i := i + 1;
      }
      assert gs[..i] == gs;
    }
  }

  /** The block's grants, or none when they cannot be read. */
  function GrantsOrNone(b: Block): seq<Grant>
  {
    if b.Grants().Returns? then b.Grants().value else []
  }

  /** The grant table after accepting these blocks in order, from a reset validator. */
  function ReplayGrants(bs: seq<Block>): GrantTable
    decreases |bs|
  {
    if bs == [] then map[] else FoldGrants(ReplayGrants(bs[..|bs| - 1]), GrantsOrNone(bs[|bs| - 1]))
  }

  /** Accepting one more block folds its grants into the replayed table. */
  lemma ReplayGrantsStep(bs: seq<Block>, i: nat)
    requires i < |bs|
    ensures ReplayGrants(bs[..i + 1]) == FoldGrants(ReplayGrants(bs[..i]), GrantsOrNone(bs[i]))
  {
    assert bs[..i + 1][..i] == bs[..i];
    assert bs[..i + 1][i] == bs[i];
  }

  /** The grants of the blocks in chain order, each block's decoded list or nothing. */
  function AllGrants(bs: seq<Block>): seq<Grant>
    decreases |bs|
  {
    if bs == [] then [] else AllGrants(bs[..|bs| - 1]) + GrantsOrNone(bs[|bs| - 1])
  }

  /** Replaying the blocks one at a time folds all their grants, in chain order, into an
      empty table. */
  lemma {:induction false} ReplayGrantsFolds(bs: seq<Block>)
    ensures ReplayGrants(bs) == FoldGrants(map[], AllGrants(bs))
    decreases |bs|
  {
    if bs != [] {
      var front := bs[..|bs| - 1];
      ReplayGrantsFolds(front);
      FoldAppend(map[], AllGrants(front), GrantsOrNone(bs[|bs| - 1]));
    }
  }

  /** Block i is a trust root or carries the hash of its predecessor as ant (none for the
      first block). */
  predicate LinkedAt(crypto: Crypto, roots: set<string>, bs: seq<Block>, i: nat)
    reads bs
    requires i < |bs| && bs[i].Signed() && (i > 0 ==> bs[i - 1].Signed())
  {
    bs[i].Hash(crypto) in roots || bs[i].Antecedent() == (if i == 0 then None else Some(bs[i - 1].Hash(crypto)))
  }

  /** Every block of bs is linked to its predecessor unless it is a trust root. */
  predicate Linked(crypto: Crypto, roots: set<string>, bs: seq<Block>)
    reads bs
    requires forall i :: 0 <= i < |bs| ==> bs[i].Signed()
  {
    forall i :: 0 <= i < |bs| ==> LinkedAt(crypto, roots, bs, i)
  }

  /** Extending a linked prefix by a block that is a trust root or carries its predecessor's
      hash keeps it linked. */
  lemma LinkedStep(crypto: Crypto, roots: set<string>, bs: seq<Block>, i: nat)
    requires i < |bs| && forall j :: 0 <= j <= i ==> bs[j].Signed()
    requires Linked(crypto, roots, bs[..i])
    requires LinkedAt(crypto, roots, bs, i)
    ensures Linked(crypto, roots, bs[..i + 1])
  {
    var front, ext := bs[..i], bs[..i + 1];
    forall j | 0 <= j < i + 1
      ensures LinkedAt(crypto, roots, ext, j)
    {
      assert ext[j] == bs[j];
      if j > 0 {
        assert ext[j - 1] == bs[j - 1];
      }
      if j < i {
        assert LinkedAt(crypto, roots, front, j);
        assert front[j] == bs[j];
        if j > 0 {
          assert front[j - 1] == bs[j - 1];
        }
      }
    }
  }

  class Chain {
    const validator: Validator
    /** _blocks, oldest first. */
    var blocks: seq<Block>
    /** IdChain._pkts: the pkt claims of the blocks appended so far; empty for an
        authorization chain. */
    var pkts: set<string>

    /** AbstractChain(validator) with IdChain's empty pkt set. */
    constructor (validator: Validator)
      ensures this.validator == validator && blocks == [] && pkts == {}
    {
      this.validator := validator;
      blocks := [];
      pkts := {};
    }

    /** Every block is signed, and the pkt set is exactly the blocks' pkt claims. */
    predicate Valid()
      reads this, blocks
    {
      (forall i :: 0 <= i < |blocks| ==> blocks[i].Signed())
      && pkts == (if validator.kind == Identity then PktsOf(blocks) else {})
    }

    function PktsOf(bs: seq<Block>): set<string>
    {
      set i | 0 <= i < |bs| && bs[i].jwt.claims.pkt.Some? :: bs[i].jwt.claims.pkt.value
    }

    lemma PktsOfAppend(bs: seq<Block>, b: Block)
      ensures PktsOf(bs + [b]) == PktsOf(bs) + (if b.jwt.claims.pkt.Some? then {b.jwt.claims.pkt.value} else {})
    {
      var both := bs + [b];
      forall p | p in PktsOf(bs)
        ensures p in PktsOf(both)
      {
        var i :| 0 <= i < |bs| && bs[i].jwt.claims.pkt == Some(p);
        assert both[i] == bs[i];
      }
      if b.jwt.claims.pkt.Some? {
        assert both[|bs|] == b;
      }
    }

    /** lastBlock: null on an empty chain. */
    function LastBlock(): (b: Block?)
      reads this
      ensures b == null <==> blocks == []
      ensures b != null ==> b == blocks[|blocks| - 1]
    {
      if blocks == [] then null else blocks[|blocks| - 1]
    }

    function Size(): nat
      reads this
    {
      |blocks|
    }

    /** getIssuer: the genesis block's issuer, None on an empty chain. */
    function Issuer(): (r: Option<Uri>)
      reads this
      ensures blocks == [] ==> r == None
      ensures blocks != [] ==> r == blocks[0].Issuer()
    {
      if blocks == [] then None else blocks[0].Issuer()
    }

    /** getSubject: the genesis block's subject, None on an empty chain. */
    function Subject(): (r: Option<Uri>)
      reads this
      ensures blocks == [] ==> r == None
      ensures blocks != [] ==> r == blocks[0].Subject()
    {
      if blocks == [] then None else blocks[0].Subject()
    }

    /** getHash: the genesis block's hash, None on an empty chain. */
    function GenesisHash(): (r: Option<string>)
      reads this, blocks
      requires Valid()
      ensures blocks == [] <==> r == None
      ensures blocks != [] ==> r == Some(validator.crypto.hash(blocks[0].serialization.value))
    {
      if blocks == [] then None else Some(blocks[0].Hash(validator.crypto))
    }

    /** serialize: the blocks' serializations in chain order (the JSON array around them is not
        modelled). */
    function Serialization(): (r: seq<string>)
      reads this, blocks
      requires Valid()
      ensures |r| == |blocks| && forall i :: 0 <= i < |blocks| ==> Some(r[i]) == blocks[i].serialization
    {
      seq(|blocks|, i reads this, blocks requires 0 <= i < |blocks| && Valid() => blocks[i].serialization.value)
    }

    /** containsPkt: IllegalArgumentException for a missing argument, else membership. */
    function ContainsPkt(pkt: Option<string>): (r: Result<bool>)
      reads this, blocks
      ensures pkt.None? ==> r == Raises(IllegalArgument)
      ensures pkt.Some? && Valid() && validator.kind == Identity ==>
                (r == Returns(true) <==> exists i :: 0 <= i < |blocks| && blocks[i].jwt.claims.pkt == pkt)
    {
      if pkt.None? then Raises(IllegalArgument) else Returns(pkt.value in pkts)
    }

    /** getActivePkt: the last block's pkt; IndexOutOfBoundsException on an empty chain. */
    function ActivePkt(): (r: Result<string>)
      reads this
      ensures blocks == [] ==> r == Raises(IndexOutOfBounds)
      ensures blocks != [] ==> r == blocks[|blocks| - 1].Pkt()
    {
      if blocks == [] then Raises(IndexOutOfBounds) else blocks[|blocks| - 1].Pkt()
    }

    /** The result of getGrants for each block, oldest first. */
    function GrantLists(): (r: seq<Result<seq<Grant>>>)
      reads this
      ensures |r| == |blocks| && forall i :: 0 <= i < |blocks| ==> r[i] == blocks[i].Grants()
    {
      GrantListsOf(blocks)
    }

    /** The validator's cursor is the chain's last block, the same object. */
    predicate Cached()
      reads this, validator
    {
      LastBlock() == validator.lastValidated
    }

    /** resetValidator. */
    method ResetValidator()
      modifies validator
      ensures validator.lastValidated == null && validator.chainIssuer == None && validator.chainSubject == None
      ensures validator.kind == Authorization ==> validator.grants == map[]
      ensures validator.kind == Identity ==> validator.grants == old(validator.grants)
    {
      validator.Reset();
    }

    /** addBlock: validate (the validator's first step hashes, and so signs, the block), then
        append; an identity chain then records the block's pkt, which throws
        NullPointerException after the append when the claim is missing. */
    method AddBlock(block: Block, nonce: nat, free: set<Validator>) returns (r: Outcome)
      requires validator !in free && validator.Valid() && Valid()
      modifies this, block, validator, free
      ensures Valid() && validator.Valid()
      ensures r == Ok || blocks != old(blocks) ==> validator.Accepted(block, old(validator.State()))
      ensures r == Ok ==> blocks == old(blocks) + [block] && validator.lastValidated == block
      ensures r == Ok && validator.kind == Identity ==>
                block.jwt.claims.pkt.Some? && pkts == old(pkts) + {block.jwt.claims.pkt.value}
      ensures r == Ok && validator.kind == Authorization ==> pkts == old(pkts)
      ensures r.Throws? ==> (blocks == old(blocks) && pkts == old(pkts))
                            || (validator.kind == Identity && block.jwt.claims.pkt.None? && r == Throws(NullPointer)
                                && blocks == old(blocks) + [block] && pkts == old(pkts))
      ensures blocks != old(blocks) ==> validator.lastValidated == block
      ensures old(block.serialization).Some? ==> block.serialization == old(block.serialization)
      ensures old(block.serialization).None? && block.key.None? ==> r == Throws(IllegalState) && blocks == old(blocks)
      ensures (validator.kind == Identity && old(block.serialization).Some? && block.jwt.claims.pkt.Some?
               && validator.crypto.hash(old(block.serialization).value) in validator.trustRoots.hashes) ==> r == Ok
    {
      r := Admit(block, nonce, free);
      if r != Ok {
        return;
      }
      r := Append(block);
    }

    /** The first half of addBlock: hash the block, which signs it if need be, and have the
        validator accept it. The chain itself is not changed. */
    method Admit(block: Block, nonce: nat, free: set<Validator>) returns (r: Outcome)
      requires validator !in free && validator.Valid() && Valid()
      modifies block, validator, free
      ensures Valid() && validator.Valid()
      ensures r == Ok ==> validator.Accepted(block, old(validator.State()))
      ensures r == Ok ==> block.Signed() && validator.lastValidated == block
      ensures old(block.serialization).Some? ==> block.serialization == old(block.serialization)
      ensures old(block.serialization).None? && block.key.None? ==> r == Throws(IllegalState)
      ensures (validator.kind == Identity && old(block.serialization).Some?
               && validator.crypto.hash(old(block.serialization).value) in validator.trustRoots.hashes) ==> r == Ok
    {
      var hash := block.GetHash(validator.crypto, nonce);
      if hash.Raises? {
        return Throws(hash.err);
      }
      r := validator.Validate(block, free);
    }

    /** The second half of addBlock: append the accepted block and, for an identity chain,
        record its pkt, which throws NullPointerException after the append when it is missing. */
    method Append(block: Block) returns (r: Outcome)
      requires Valid() && block.Signed()
      modifies this
      ensures Valid()
      ensures blocks == old(blocks) + [block]
      ensures r == Ok && validator.kind == Identity ==>
                block.jwt.claims.pkt.Some? && pkts == old(pkts) + {block.jwt.claims.pkt.value}
      ensures r == Ok && validator.kind == Authorization ==> pkts == old(pkts)
      ensures r.Throws? ==> validator.kind == Identity && block.jwt.claims.pkt.None? && r == Throws(NullPointer)
                            && pkts == old(pkts)
    {
      PktsOfAppend(blocks, block);
      blocks := blocks + [block];
      if validator.kind == Identity {
        var pkt := block.Pkt();
        if pkt.Raises? {
          return Throws(pkt.err);
        }
        pkts := pkts + {pkt.value};
      }
      r := Ok;
    }

    /** addBlock(String): parse the text into a block and add it through the validating
        addBlock. */
    method AddSerialized(text: Option<string>, free: set<Validator>) returns (r: Outcome)
      requires validator !in free && validator.Valid() && Valid()
      modifies this, validator, free
      ensures Valid() && validator.Valid()
      ensures text.None? ==> r == Throws(IllegalArgument) && blocks == old(blocks)
      ensures text.Some? && validator.crypto.parse(text.value).None? ==> r == Throws(Malformed) && blocks == old(blocks)
      ensures r == Ok ==> |blocks| == |old(blocks)| + 1 && blocks[..|old(blocks)|] == old(blocks)
                          && blocks[|old(blocks)|].serialization == text
                          && validator.lastValidated == blocks[|old(blocks)|]
      ensures blocks != old(blocks) ==>
                |blocks| == |old(blocks)| + 1 && validator.Accepted(blocks[|old(blocks)|], old(validator.State()))
      ensures r.Throws? ==> blocks == old(blocks) || (validator.kind == Identity && r == Throws(NullPointer))
    {
      var parsed := ParseBlock(validator.crypto, text);
      if parsed.Raises? {
        return Throws(parsed.err);
      }
      r := AddBlock(parsed.value, 0, free);
    }

    /** The blocks of bs carry the first |bs| texts as their serializations, in order. */
    ghost predicate Carries(bs: seq<Block>, texts: seq<string>)
      reads bs
    {
      |bs| <= |texts| && forall j :: 0 <= j < |bs| ==> bs[j].serialization == Some(texts[j])
    }

    /** Every block of bs is signed and is a trust root or verifies under the transport's key
        for its kid. */
    ghost predicate Verified(bs: seq<Block>)
      reads bs, validator.trustRoots, validator.transport
    {
      forall j :: 0 <= j < |bs| ==>
        bs[j].Signed() && (validator.Trusted(bs[j]) || validator.SignatureOutcome(bs[j]) == Ok)
    }

    /** A valid chain carrying exactly the texts serializes to them. */
    lemma CarriedSerialization(texts: seq<string>)
      requires Valid() && |blocks| == |texts| && Carries(blocks, texts)
      ensures Serialization() == texts
    {
    }

    /** ReplayedUpTo with the prefix and the validator state given as values: what remains
        true of them while later blocks are added. */
    ghost predicate ReplayedAs(bs: seq<Block>, s: Snapshot)
      reads bs, validator.trustRoots, validator.issuerTrustRoots
    {
      s.cursor == (if bs == [] then null else bs[|bs| - 1])
      && (forall j :: 0 <= j < |bs| ==> bs[j].Signed())
      && Linked(validator.crypto, validator.trustRoots.hashes, bs)
      && (validator.kind == Authorization ==> s.grants == ReplayGrants(bs))
      && (validator.kind == Identity && bs != [] && SelfIssued(bs[0]) ==>
            bs[0].Hash(validator.crypto) in validator.trustRoots.hashes + validator.issuerTrustRoots.hashes)
    }

    /** ReplayedUpTo(i) as values. */
    lemma ReplayedSnapshot(i: nat)
      requires i <= |blocks| && ReplayedUpTo(i)
      ensures ReplayedAs(blocks[..i], validator.State())
    {
      assert forall j :: 0 <= j < i ==> blocks[..i][j] == blocks[j];
    }

    /** The state the deserialising constructor keeps between elements: the chain holds one
        block for each of the first n elements, carrying that element as its serialization,
        each of them parses, every block is a trust root or its signature verifies, the
        validator's cursor is the last block, and when the validator started reset the chain
        is a replay of them. */
    ghost predicate Loaded(texts: seq<string>, n: nat, reset: bool)
      reads this, blocks, validator, validator.lastValidated, validator.trustRoots, validator.issuerTrustRoots,
            validator.transport
    {
      Valid() && validator.Valid() && n <= |texts| && |blocks| == n && Carries(blocks, texts) && Verified(blocks)
      && (forall j :: 0 <= j < n ==> validator.crypto.parse(texts[j]).Some?)
      && (n > 0 ==> validator.lastValidated == blocks[n - 1])
      && (reset ==> ReplayedUpTo(n))
    }

    /** A new chain has loaded none of the elements; from a reset validator it is an empty
        replay. */
    lemma LoadedNone(texts: seq<string>, reset: bool)
      requires blocks == [] && pkts == {} && validator.Valid()
      requires reset ==> validator.lastValidated == null && (validator.kind == Authorization ==> validator.grants == map[])
      ensures Loaded(texts, 0, reset)
    {
      if reset {
        ReplayedNone();
      }
    }

    /** One accepted element extends the loaded state. */
    lemma LoadedStep(ob: seq<Block>, texts: seq<string>, reset: bool, before: Snapshot)
      requires Valid() && validator.Valid() && |ob| < |texts| && |blocks| == |ob| + 1 && blocks[..|ob|] == ob
      requires blocks[|ob|].serialization == Some(texts[|ob|]) && validator.lastValidated == blocks[|ob|]
      requires Carries(ob, texts) && Verified(ob) && forall j :: 0 <= j <= |ob| ==> validator.crypto.parse(texts[j]).Some?
      requires validator.Advances(blocks[|ob|], before) && (reset ==> ReplayedAs(ob, before))
      ensures Loaded(texts, |ob| + 1, reset)
    {
      assert forall j :: 0 <= j < |ob| ==> blocks[j] == ob[j];
      assert Carries(blocks, texts);
      assert Verified(blocks);
      if reset {
        assert LinkedAt(validator.crypto, validator.trustRoots.hashes, blocks, |ob|);
        ReplayStep(|ob|);
      }
    }

    /** addBlock(String) on a text that is present: an unparsable text throws, and a block
        that is added is the parsed text, which advanced the validator; what held of the
        blocks already in the chain (ob) still holds. */
    method AddText(text: string, free: set<Validator>, ghost ob: seq<Block>, ghost texts: seq<string>,
                   ghost before: Snapshot, ghost reset: bool) returns (r: Outcome)
      requires validator !in free && validator.Valid() && Valid() && ob == blocks
      requires (reset ==> ReplayedAs(ob, before)) && Carries(ob, texts) && Verified(ob)
      modifies this, validator, free
      ensures (reset ==> ReplayedAs(ob, before)) && Carries(ob, texts) && Verified(ob)
      ensures Valid() && validator.Valid()
      ensures validator.crypto.parse(text).None? ==> r == Throws(Malformed)
      ensures r == Ok ==> |blocks| == |old(blocks)| + 1 && blocks[..|old(blocks)|] == old(blocks)
                          && blocks[|old(blocks)|].serialization == Some(text)
                          && validator.lastValidated == blocks[|old(blocks)|]
                          && validator.Advances(blocks[|old(blocks)|], old(validator.State()))
    {
      r := AddSerialized(Some(text), free);
    }

    /** One step of the deserialising constructor: the next element goes through
        addBlock(String); an unparsable one throws, and an accepted one extends the loaded
        state. */
    method LoadNext(texts: seq<string>, n: nat, free: set<Validator>, ghost reset: bool) returns (r: Outcome)
      requires validator !in free && n < |texts| && Loaded(texts, n, reset)
      modifies this, validator, free
      ensures Valid() && validator.Valid()
      ensures validator.crypto.parse(texts[n]).None? ==> r == Throws(Malformed)
      ensures r == Ok ==> Loaded(texts, n + 1, reset)
    {
      ghost var ob := blocks;
      ghost var before := validator.State();
      if reset {
        ReplayedSnapshot(|blocks|);
        assert blocks[..|blocks|] == blocks;
      }
      r := AddText(texts[n], free, ob, texts, before, reset);
      if r == Ok {
        LoadedStep(ob, texts, reset, before);
      }
    }

    /** The loop of the deserialising constructor: every element in order through
        addBlock(String), stopping at the first that throws. */
    method LoadAll(texts: seq<string>, free: set<Validator>, ghost reset: bool) returns (r: Outcome)
      requires validator !in free && Loaded(texts, 0, reset)
      modifies this, validator, free
      ensures Valid() && validator.Valid()
      ensures r == Ok ==> Loaded(texts, |texts|, reset)
    {
      for i := 0 to |texts|
        invariant Loaded(texts, i, reset)
      {
        r := LoadNext(texts, i, free, reset);
        if r.Throws? {
          return;
        }
      }
      r := Ok;
    }

    /** validate: nothing to do when the cursor is this chain's last block (the same object);
        otherwise reset the validator and replay every block in order, stopping at the first
        that throws. */
    method Validate(free: set<Validator>) returns (r: Outcome)
      modifies free
      decreases free, 0
      ensures r == Ok ==> Cached()
      ensures old(Cached()) ==> r == Ok && unchanged(free)
      ensures !old(Cached()) && validator !in free ==> r == Throws(Cycle)
      ensures !old(Cached()) && validator in free ==> validator.Valid()
      ensures !old(Cached()) && validator in free && r == Ok ==> ReplayedUpTo(|blocks|)
    {
      if LastBlock() == validator.lastValidated {
        return Ok;
      }
      if validator !in free {
        return Throws(Cycle);
      }
      validator.Reset();
      ReplayedNone();
      r := ReplayAll(free - {validator});
    }

    /** The replay loop of validate, from a reset validator. */
    method ReplayAll(free: set<Validator>) returns (r: Outcome)
      requires ReplayedUpTo(0) && validator !in free
      modifies validator, free
      decreases free, 6
      ensures validator.Valid()
      ensures r == Ok ==> ReplayedUpTo(|blocks|)
    {
      var i := 0;
      while i < |blocks|
        invariant 0 <= i <= |blocks|
        invariant ReplayedUpTo(i)
      {
        r := ReplayBlock(i, free);
        if r != Ok {
          return;
        }
        i := i + 1;
      }
      r := Ok;
    }

    /** What replaying the first i blocks from a reset validator establishes: the cursor is
        block i - 1, each block is signed and linked to its predecessor unless it is a trust
        root, the grant table is the fold of their grants, and a self-issued identity genesis
        block is a trust root. */
    predicate ReplayedUpTo(i: nat)
      reads this, blocks, validator, validator.lastValidated, validator.trustRoots, validator.issuerTrustRoots
      requires i <= |blocks|
    {
      validator.Valid()
      && (if i == 0 then validator.lastValidated == null else validator.lastValidated == blocks[i - 1])
      && (forall j :: 0 <= j < i ==> blocks[j].Signed())
      && Linked(validator.crypto, validator.trustRoots.hashes, blocks[..i])
      && (validator.kind == Authorization ==> validator.grants == ReplayGrants(blocks[..i]))
      && (validator.kind == Identity && i > 0 && SelfIssued(blocks[0]) ==>
            blocks[0].Hash(validator.crypto) in validator.trustRoots.hashes + validator.issuerTrustRoots.hashes)
    }

    /** A reset validator has replayed nothing. */
    lemma ReplayedNone()
      requires validator.lastValidated == null
      requires validator.kind == Authorization ==> validator.grants == map[]
      ensures ReplayedUpTo(0)
    {
      assert blocks[..0] == [];
    }

    /** One iteration of the replay loop of validate. */
    method ReplayBlock(i: nat, free: set<Validator>) returns (r: Outcome)
      requires i < |blocks| && ReplayedUpTo(i) && validator !in free
      modifies validator, free
      decreases free, 5
      ensures validator.Valid()
      ensures r == Ok ==> ReplayedUpTo(i + 1)
    {
      ghost var cursorHash := validator.CursorHash();
      ghost var oldGrants := validator.grants;
      assert cursorHash == (if i == 0 then None else Some(blocks[i - 1].Hash(validator.crypto)));
      assert validator.kind == Authorization ==> oldGrants == ReplayGrants(blocks[..i]);
      r := validator.Validate(blocks[i], free);
      if r != Ok {
        return;
      }
      assert Linked(validator.crypto, validator.trustRoots.hashes, blocks[..i]);
      assert validator.Trusted(blocks[i]) || blocks[i].Antecedent() == cursorHash;
      assert LinkedAt(validator.crypto, validator.trustRoots.hashes, blocks, i);
      assert validator.kind == Authorization ==> validator.grants == FoldGrants(oldGrants, GrantsOrNone(blocks[i]));
      ReplayStep(i);
    }

    /** The facts one accepted block adds, assembled into ReplayedUpTo(i + 1). */
    lemma ReplayStep(i: nat)
      requires i < |blocks| && validator.Valid() && validator.lastValidated == blocks[i]
      requires forall j :: 0 <= j <= i ==> blocks[j].Signed()
      requires Linked(validator.crypto, validator.trustRoots.hashes, blocks[..i])
      requires LinkedAt(validator.crypto, validator.trustRoots.hashes, blocks, i)
      requires validator.kind == Authorization ==>
                 validator.grants == FoldGrants(ReplayGrants(blocks[..i]), GrantsOrNone(blocks[i]))
      requires validator.kind == Identity && i == 0 && SelfIssued(blocks[0]) ==>
                 blocks[0].Hash(validator.crypto) in validator.trustRoots.hashes + validator.issuerTrustRoots.hashes
      requires validator.kind == Identity && i > 0 && SelfIssued(blocks[0]) ==>
                 blocks[0].Hash(validator.crypto) in validator.trustRoots.hashes + validator.issuerTrustRoots.hashes
      ensures ReplayedUpTo(i + 1)
    {
      LinkedStep(validator.crypto, validator.trustRoots.hashes, blocks, i);
      assert blocks[..i + 1][..i] == blocks[..i];
      assert blocks[..i + 1][i] == blocks[i];
    }

    /** equals: the same chain, or block lists of the same length whose blocks are pairwise
        equal (the same block, or the same serialization). */
    method Equals(that: Chain) returns (r: bool)
      requires Valid() && that.Valid()
      ensures r <==> this == that || (|blocks| == |that.blocks|
                                      && forall i :: 0 <= i < |blocks| ==> SameBlock(blocks[i], that.blocks[i]))
    {
      if this == that {
        return true;
      }
      if |blocks| != |that.blocks| {
        return false;
      }
      var i := 0;
      while i < |blocks|
        invariant 0 <= i <= |blocks|
        invariant forall j :: 0 <= j < i ==> SameBlock(blocks[j], that.blocks[j])
      {
        if !SameBlock(blocks[i], that.blocks[i]) {
          return false;
        }
        i := i + 1;
      }
      r := true;
    }

    /** hasPrivilege: newest block first, grants in list order, the first grant for the
        account and the privilege decides; true unless it is REVOKE, false when none matches. */
    method HasPrivilege(acct: Option<Uri>, privilege: Option<string>) returns (r: Result<bool>)
      ensures r == Privileges.Holds(GrantLists(), acct, privilege)
    {
      r := NewestFirst(blocks, acct, privilege);
    }
  }

  /** The getGrants result of each block, oldest first. */
  function GrantListsOf(bs: seq<Block>): (r: seq<Result<seq<Grant>>>)
    ensures |r| == |bs| && forall i :: 0 <= i < |bs| ==> r[i] == bs[i].Grants()
  {
    seq(|bs|, i requires 0 <= i < |bs| => bs[i].Grants())
  }

  /** The loop of hasPrivilege: blocks newest first, and in each block the first grant naming
      the account and the privilege decides. */
  method NewestFirst(blocks: seq<Block>, acct: Option<Uri>, privilege: Option<string>) returns (r: Result<bool>)
    ensures r == Privileges.Holds(GrantListsOf(blocks), acct, privilege)
  {
    if acct.None? || privilege.None? {
      return Raises(IllegalArgument);
    }
    ghost var lists := GrantListsOf(blocks);
    ghost var decision := Privileges.Decision(lists, acct.value, privilege.value);
    var i := |blocks|;
    assert lists[..i] == lists;
    while i > 0
      invariant 0 <= i <= |blocks|
      invariant decision == Privileges.Decision(lists[..i], acct.value, privilege.value)
    {
      var gs := blocks[i - 1].Grants();
      assert lists[..i][i - 1] == gs;
      if gs.Raises? {
        assert decision == Raises(gs.err);
        return Raises(gs.err);
      }
      var decided := FirstMatching(gs.value, acct.value, privilege.value);
      if decided.Some? {
        assert decision == Returns(decided);
        return Returns(decided.value != Revoke);
      }
      assert lists[..i][..i - 1] == lists[..i - 1];
      i := i - 1;
    }
    assert lists[..0] == [];
    assert decision == Returns(None);
    r := Returns(false);
  }

  /** The loop of validateGrants: walk the grants in order and throw at the first one whose
      privilege the issuer does not hold virally. */
  method EachGrantViral(creator: Option<map<string, GrantType>>, gs: seq<Grant>, missingEntry: Err) returns (r: Outcome)
    ensures r == CheckEachGrant(creator, gs, missingEntry)
  {
    var i := 0;
    while i < |gs|
      invariant 0 <= i <= |gs|
      invariant forall j :: 0 <= j < i ==> Viral(creator, gs[j].privilege)
    {
      if !Viral(creator, gs[i].privilege) {
        CheckEachGrantSuffix(creator, gs, missingEntry, i);
        assert gs[i..][0] == gs[i];
        return Throws(Offence(creator, gs[i].privilege, missingEntry));
      }
      i := i + 1;
    }
    r := Ok;
  }

  /** The inner loop of hasPrivilege: the type of the first grant naming the account and the
      privilege. */
  method FirstMatching(gs: seq<Grant>, grantee: Uri, privilege: string) returns (r: Option<GrantType>)
    ensures r == Privileges.FirstMatch(gs, grantee, privilege)
  {
    var j := 0;
    while j < |gs|
      invariant 0 <= j <= |gs|
      invariant forall k :: 0 <= k < j ==> !Privileges.Names(gs[k], grantee, privilege)
    {
      if gs[j].grantee == grantee && gs[j].privilege == privilege {
        return Some(gs[j].grantType);
      }
      j := j + 1;
    }
    r := None;
  }

  /** The block names itself as its issuer. */
  predicate SelfIssued(b: Block)
  {
    b.Issuer().Some? && b.Issuer() == b.Subject()
  }

  /** Block.equals on signed blocks. */
  predicate SameBlock(a: Block, b: Block)
    reads a, b
  {
    a == b || (a.Signed() && b.Signed() && a.serialization == b.serialization)
  }

  /** The deserialising constructor: IllegalArgumentException for a missing serialization, else
      a new chain to which every element is added in order through the validating
      addBlock(String); the first element that fails makes the constructor throw. */
  method Deserialize(validator: Validator, texts: Option<seq<string>>, free: set<Validator>) returns (r: Result<Chain>)
    requires validator !in free && validator.Valid()
    modifies validator, free
    ensures texts.None? ==> r == Raises(IllegalArgument)
    ensures r.Returns? ==> texts.Some? && fresh(r.value) && r.value.validator == validator && r.value.Valid()
                           && |r.value.blocks| == |texts.value|
                           && r.value.Serialization() == texts.value
    ensures r.Returns? && texts.value != [] ==> validator.lastValidated == r.value.LastBlock()
    ensures r.Returns? ==> r.value.Verified(r.value.blocks)
    ensures r.Returns? && old(validator.lastValidated) == null
            && (validator.kind == Authorization ==> old(validator.grants) == map[]) ==>
              r.value.ReplayedUpTo(|texts.value|)
    ensures texts.Some? && (exists j :: 0 <= j < |texts.value| && validator.crypto.parse(texts.value[j]).None?) ==>
              r.Raises?
  {
    if texts.None? {
      return Raises(IllegalArgument);
    }
    ghost var reset := validator.lastValidated == null
                       && (validator.kind == Authorization ==> validator.grants == map[]);
    var chain := new Chain(validator);
    chain.LoadedNone(texts.value, reset);
    var added := chain.LoadAll(texts.value, free, reset);
    if added.Throws? {
      return Raises(added.err);
    }
    assert texts.value != [] ==> validator.lastValidated == chain.LastBlock();
    chain.CarriedSerialization(texts.value);
    r := Returns(chain);
  }
}

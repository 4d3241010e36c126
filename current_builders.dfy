/** The block builders of the current generation (IdBlock.Builder and AuthBlock.Builder): the
    setters fill in the request field by field, and build makes the block, links it to the
    chain's last block and appends it through the validating addBlock. An argument the caller
    never set is None, the Java null. */
module CurrentBuilders {
  import opened Jose
  import opened Blocks
  import Current

  /** ant for a new block: the hash of the chain's last block, None on an empty chain. The last
      block of a chain is always signed, so getHash there only hashes. */
  function NextAntecedent(chain: Current.Chain): (r: Option<string>)
    reads chain, chain.blocks
    requires chain.Valid()
    ensures chain.blocks == [] <==> r.None?
    ensures chain.blocks != [] ==> r == Some(chain.blocks[|chain.blocks| - 1].Hash(chain.validator.crypto))
  {
    if chain.LastBlock() == null then None else Some(chain.LastBlock().Hash(chain.validator.crypto))
  }

  /** IdBlock.Builder. */
  class IdBlockBuilder {
    const chain: Current.Chain
    var issuer: Option<Uri>
    var issuerKey: Option<Key>
    var subject: Option<Uri>
    var subjectPubKey: Option<Key>

    constructor (chain: Current.Chain)
      ensures this.chain == chain
      ensures issuer == None && issuerKey == None && subject == None && subjectPubKey == None
    {
      this.chain := chain;
      issuer, issuerKey, subject, subjectPubKey := None, None, None, None;
    }

    method SetIssuer(issuer: Uri)
      modifies this
      ensures this.issuer == Some(issuer)
      ensures issuerKey == old(issuerKey) && subject == old(subject) && subjectPubKey == old(subjectPubKey)
    {
      this.issuer := Some(issuer);
    }

    method SetIssuerKey(issuerKey: Key)
      modifies this
      ensures this.issuerKey == Some(issuerKey)
      ensures issuer == old(issuer) && subject == old(subject) && subjectPubKey == old(subjectPubKey)
    {
      this.issuerKey := Some(issuerKey);
    }

    method SetSubject(subject: Uri)
      modifies this
      ensures this.subject == Some(subject)
      ensures issuer == old(issuer) && issuerKey == old(issuerKey) && subjectPubKey == old(subjectPubKey)
    {
      this.subject := Some(subject);
    }

    method SetSubjectPubKey(subjectPubKey: Key)
      modifies this
      ensures this.subjectPubKey == Some(subjectPubKey)
      ensures issuer == old(issuer) && issuerKey == old(issuerKey) && subject == old(subject)
    {
      this.subjectPubKey := Some(subjectPubKey);
    }

    /** The claims build writes, once every argument is present. */
    function BlockClaims(crypto: Crypto, ant: Option<string>): Claims
      reads this
      requires issuer.Some? && subject.Some? && subjectPubKey.Some?
    {
      Claims(issuer, subject, ant, Some(crypto.thumbprint(subjectPubKey.value)), None)
    }

    /** build: the IdBlock constructor throws NullPointerException for a missing issuer, subject
        or subject key and IllegalArgumentException for a missing issuer key; the block is
        signed at once, a self-issued block's hash joins roots (the process-wide trust roots),
        and the block is appended through addBlock. block is the block made, also when addBlock
        throws; the Java caller only sees it in r. */
    method Build(roots: TrustRoots, nonce: nat, free: set<Current.Validator>) returns (r: Result<Block>, block: Block?)
      requires chain.validator.kind == Current.Identity
      requires chain.validator !in free && chain.validator.Valid() && chain.Valid()
      modifies chain, chain.validator, free, roots
      ensures chain.Valid() && chain.validator.Valid()
      ensures issuer.None? || subject.None? || subjectPubKey.None? ==>
                r == Raises(NullPointer) && block == null && chain.blocks == old(chain.blocks) && roots.hashes == old(roots.hashes)
      ensures issuer.Some? && subject.Some? && subjectPubKey.Some? && issuerKey.None? ==>
                r == Raises(IllegalArgument) && block == null && chain.blocks == old(chain.blocks) && roots.hashes == old(roots.hashes)
      ensures block != null ==>
                issuer.Some? && subject.Some? && subjectPubKey.Some? && issuerKey.Some?
                && block.key == issuerKey
                && block.jwt == Jwt(Some(chain.validator.crypto.thumbprint(issuerKey.value)),
                                    BlockClaims(chain.validator.crypto, old(NextAntecedent(chain))))
                && block.serialization == Some(chain.validator.crypto.sign(issuerKey.value, block.jwt, nonce))
      ensures block != null ==>
                roots.hashes == old(roots.hashes) + (if issuer == subject then {block.Hash(chain.validator.crypto)} else {})
      ensures r.Returns? ==> block != null && r.value == block && chain.blocks == old(chain.blocks) + [block]
                             && chain.validator.lastValidated == block
      ensures r.Returns? ==> chain.validator.Accepted(block, old(chain.validator.State()))
      ensures r.Raises? ==> chain.blocks == old(chain.blocks)
      ensures roots == chain.validator.trustRoots && block != null && issuer == subject ==> r == Returns(block)
    {
      block := null;
      if issuer.None? || subject.None? || subjectPubKey.None? {
        return Raises(NullPointer), null;
      }
      if issuerKey.None? {
        return Raises(IllegalArgument), null;
      }
      var crypto := chain.validator.crypto;
      var ant := NextAntecedent(chain);
      block := new Block.Build(crypto, issuerKey.value, BlockClaims(crypto, ant));
      var text := block.Serialize(crypto, nonce);
      if issuer == subject {
        roots.Add(block.Hash(crypto));
      }
      var added := chain.AddBlock(block, nonce, free);
      if added.Throws? {
        return Raises(added.err), block;
      }
      r := Returns(block);
    }
  }

  /** AuthBlock.Builder. */
  class AuthBlockBuilder {
    const chain: Current.Chain
    var issuer: Option<Uri>
    var issuerKey: Option<Key>
    var subject: Option<Uri>
    /** _grants, in the order addGrant received them. */
    var grants: seq<Grant>

    constructor (chain: Current.Chain)
      ensures this.chain == chain
      ensures issuer == None && issuerKey == None && subject == None && grants == []
    {
      this.chain := chain;
      issuer, issuerKey, subject := None, None, None;
      grants := [];
    }

    method SetIssuer(issuer: Uri)
      modifies this
      ensures this.issuer == Some(issuer)
      ensures issuerKey == old(issuerKey) && subject == old(subject) && grants == old(grants)
    {
      this.issuer := Some(issuer);
    }

    method SetIssuerKey(issuerKey: Key)
      modifies this
      ensures this.issuerKey == Some(issuerKey)
      ensures issuer == old(issuer) && subject == old(subject) && grants == old(grants)
    {
      this.issuerKey := Some(issuerKey);
    }

    method SetSubject(subject: Uri)
      modifies this
      ensures this.subject == Some(subject)
      ensures issuer == old(issuer) && issuerKey == old(issuerKey) && grants == old(grants)
    {
      this.subject := Some(subject);
    }

    /** addGrant: append to the grant list. */
    method AddGrant(grant: Grant)
      modifies this
      ensures grants == old(grants) + [grant]
      ensures issuer == old(issuer) && issuerKey == old(issuerKey) && subject == old(subject)
    {
      grants := grants + [grant];
    }

    /** build: the AuthBlock constructor throws NullPointerException for a missing issuer and
        IllegalArgumentException for a missing key; the subject is written as given (absent
        when never set) and the grants in insertion order. The block is left unsigned: addBlock
        signs it when the validator first hashes it. */
    method Build(nonce: nat, free: set<Current.Validator>) returns (r: Result<Block>)
      requires chain.validator.kind == Current.Authorization
      requires chain.validator !in free && chain.validator.Valid() && chain.Valid()
      modifies chain, chain.validator, free
      ensures chain.Valid() && chain.validator.Valid()
      ensures issuer.None? ==> r == Raises(NullPointer) && chain.blocks == old(chain.blocks)
      ensures issuer.Some? && issuerKey.None? ==> r == Raises(IllegalArgument) && chain.blocks == old(chain.blocks)
      ensures r.Returns? ==>
                issuer.Some? && issuerKey.Some?
                && chain.blocks == old(chain.blocks) + [r.value] && chain.validator.lastValidated == r.value
                && r.value.jwt.kid == Some(chain.validator.crypto.thumbprint(issuerKey.value))
                && r.value.Issuer() == issuer && r.value.Subject() == subject
                && r.value.Antecedent() == old(NextAntecedent(chain))
                && r.value.Grants() == Returns(grants)
      ensures r.Returns? ==> chain.validator.Accepted(r.value, old(chain.validator.State()))
      ensures r.Raises? ==> chain.blocks == old(chain.blocks)
    {
      if issuer.None? {
        return Raises(NullPointer);
      }
      if issuerKey.None? {
        return Raises(IllegalArgument);
      }
      var crypto := chain.validator.crypto;
      var ant := NextAntecedent(chain);
      var block := new Block.Build(crypto, issuerKey.value, Jose.Claims(issuer, subject, ant, None, Some(EncodeGrants(grants))));
      DecodeEncodeGrants(grants);
      var added := chain.AddBlock(block, nonce, free);
      if added.Throws? {
        return Raises(added.err);
      }
      r := Returns(block);
    }
  }
}

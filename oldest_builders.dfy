/** The block builders of the oldest generation (IdBlock.Builder and AuthBlock.Builder of the
    sdk package). build links the new block to the chain's last block, hashing it (and so
    signing it, if it was built and never serialized), and appends through the unvalidated
    addBlock. An argument the caller never set is None, the Java null. */
module OldestBuilders {
  import opened Jose
  import opened Blocks
  import Oldest

  /** The ant a builder writes: none on an empty chain, else the getHash of the chain's last
      block, which signs that block if it was built and never serialized. */
  method LinkTo(crypto: Crypto, blocks: seq<Block>, nonce: nat) returns (r: Result<Option<string>>)
    modifies if blocks == [] then {} else {blocks[|blocks| - 1]}
    ensures blocks == [] ==> r == Returns(None)
    ensures r.Raises? ==> blocks != [] && r.err == IllegalState
    ensures blocks != [] && r.Returns? ==>
              blocks[|blocks| - 1].Signed() && r.value == Some(blocks[|blocks| - 1].Hash(crypto))
    ensures blocks != [] && old(blocks[|blocks| - 1].serialization).Some? ==>
              r.Returns? && blocks[|blocks| - 1].serialization == old(blocks[|blocks| - 1].serialization)
  {
    if blocks == [] {
      return Returns(None);
    }
    var h := blocks[|blocks| - 1].GetHash(crypto, nonce);
    if h.Raises? {
      return Raises(h.err);
    }
    r := Returns(Some(h.value));
  }

  /** IdBlock.Builder. */
  class IdBlockBuilder {
    const chain: Oldest.IdChain
    var issuer: Option<Uri>
    var issuerKey: Option<Key>
    var subject: Option<Uri>
    var subjectPubKey: Option<Key>

    constructor (chain: Oldest.IdChain)
      ensures this.chain == chain
      ensures issuer == None && issuerKey == None && subject == None && subjectPubKey == None
    {
      this.chain := chain;
      issuer, issuerKey, subject, subjectPubKey := None, None, None, None;
    }

    method SetIssuer(issuer: Uri)
      modifies this
      ensures this.issuer == Some(issuer)
      ensures issuerKey == old(issuerKey) && subject == old(subject) && subjectPubKey == old(subjectPubKey)
    {
      this.issuer := Some(issuer);
    }

    method SetIssuerKey(issuerKey: Key)
      modifies this
      ensures this.issuerKey == Some(issuerKey)
      ensures issuer == old(issuer) && subject == old(subject) && subjectPubKey == old(subjectPubKey)
    {
      this.issuerKey := Some(issuerKey);
    }

    method SetSubject(subject: Uri)
      modifies this
      ensures this.subject == Some(subject)
      ensures issuer == old(issuer) && issuerKey == old(issuerKey) && subjectPubKey == old(subjectPubKey)
    {
      this.subject := Some(subject);
    }

    method SetSubjectPubKey(subjectPubKey: Key)
      modifies this
      ensures this.subjectPubKey == Some(subjectPubKey)
      ensures issuer == old(issuer) && issuerKey == old(issuerKey) && subject == old(subject)
    {
      this.subjectPubKey := Some(subjectPubKey);
    }

    /** The argument handling of build: without a subject the block is self-issued, so the
        subject becomes the issuer and the subject key the issuer key's public part (a
        NullPointerException when there is no issuer key, after the subject was written). The
        IdBlock constructor then throws NullPointerException for a missing issuer, subject or
        subject key and IllegalArgumentException for a missing issuer key. */
    method Complete() returns (r: Outcome)
      modifies this
      ensures issuer == old(issuer) && issuerKey == old(issuerKey)
      ensures old(subject).Some? ==> subject == old(subject) && subjectPubKey == old(subjectPubKey)
      ensures old(subject).None? ==> subject == old(issuer)
      ensures old(subject).None? && old(issuerKey).None? ==> r == Throws(NullPointer)
      ensures old(subject).None? && old(issuerKey).Some? ==> subjectPubKey == Some(chain.crypto.publicPart(issuerKey.value))
      ensures r == Ok <==> issuer.Some? && issuerKey.Some? && subject.Some? && subjectPubKey.Some?
      ensures issuer.None? || subject.None? || subjectPubKey.None? ==> r == Throws(NullPointer)
      ensures old(subject).Some? && issuer.Some? && subjectPubKey.Some? && issuerKey.None? ==> r == Throws(IllegalArgument)
    {
      if subject.None? {
        subject := issuer;
        if issuerKey.None? {
          return Throws(NullPointer);
        }
        subjectPubKey := Some(chain.crypto.publicPart(issuerKey.value));
      }
      if issuer.None? || subject.None? || subjectPubKey.None? {
        return Throws(NullPointer);
      }
      if issuerKey.None? {
        return Throws(IllegalArgument);
      }
      r := Ok;
    }

    /** build: ant is the hash of the last block. Without a subject the block is self-issued:
        the builder's subject becomes the issuer and its subject key the issuer key's public
        part (a NullPointerException when there is no issuer key, after the subject was
        written). The IdBlock constructor then throws NullPointerException for a missing
        issuer, subject or subject key and IllegalArgumentException for a missing issuer key.
        The block is signed and appended; it always has a pkt, so addBlock succeeds. */
    method Build(nonce: nat) returns (r: Result<Block>)
      requires chain.Valid()
      modifies this, chain, if chain.blocks == [] then {} else {chain.blocks[|chain.blocks| - 1]}
      ensures chain.Valid()
      ensures issuer == old(issuer) && issuerKey == old(issuerKey)
      ensures old(subject).Some? ==> subject == old(subject) && subjectPubKey == old(subjectPubKey)
      ensures old(subject).None? && old(issuerKey).None? && r != Raises(IllegalState) ==>
                r == Raises(NullPointer) && subject == old(issuer)
      ensures r == Raises(IllegalState) ==> old(chain.blocks) != [] && subject == old(subject)
      ensures old(issuer).None? ==> r.Raises?
      ensures r.Raises? ==> chain.blocks == old(chain.blocks) && chain.pktOrder == old(chain.pktOrder)
      ensures r.Returns? ==>
                issuer.Some? && issuerKey.Some? && subject.Some? && subjectPubKey.Some?
                && chain.blocks == old(chain.blocks) + [r.value]
                && r.value.Signed() && r.value.key == issuerKey
                && r.value.Kid() == Some(chain.crypto.thumbprint(issuerKey.value))
                && r.value.Issuer() == issuer && r.value.Subject() == subject
                && r.value.jwt.claims.pkt == Some(chain.crypto.thumbprint(subjectPubKey.value))
                && r.value.jwt.claims.grants.None?
      ensures r.Returns? && old(subject).None? ==>
                subject == issuer && subjectPubKey == Some(chain.crypto.publicPart(issuerKey.value))
      ensures r.Returns? && old(chain.blocks) == [] ==> r.value.Antecedent().None?
      ensures r.Returns? && old(chain.blocks) != [] ==> old(chain.blocks)[|old(chain.blocks)| - 1].Signed()
      ensures r.Returns? && old(chain.blocks) != [] ==>
                r.value.Antecedent() == Some(old(chain.blocks)[|old(chain.blocks)| - 1].Hash(chain.crypto))
      ensures r.Returns? ==>
                chain.pktOrder == old(chain.pktOrder)[chain.crypto.thumbprint(subjectPubKey.value) := |old(chain.pktOrder)|]
    {
      var crypto := chain.crypto;
      ghost var before := chain.blocks;
      var link := LinkTo(crypto, chain.blocks, nonce);
      if link.Raises? {
        return Raises(link.err);
      }
      var ant := link.value;
      assert before != [] ==> ant == Some(before[|before| - 1].Hash(crypto));
      var ok := Complete();
      if ok.Throws? {
        return Raises(ok.err);
      }
      var block := new Block.Build(crypto, issuerKey.value,
                                   Claims(issuer, subject, ant, Some(crypto.thumbprint(subjectPubKey.value)), None));
      var text := block.Serialize(crypto, nonce);
      assert text.Returns?;
      var added := chain.AddBlock(block);
      assert added == Ok && chain.blocks == before + [block];
      assert before != [] ==> before[|before| - 1].Signed() && ant == Some(before[|before| - 1].Hash(crypto));
      r := Returns(block);
    }
  }

  /** AuthBlock.Builder. */
  class AuthBlockBuilder {
    const chain: Oldest.AuthChain
    var issuer: Option<Uri>
    var issuerKey: Option<Key>
    var subject: Option<Uri>
    /** _grants, in the order addGrant received them. */
    var grants: seq<Grant>

    constructor (chain: Oldest.AuthChain)
      ensures this.chain == chain
      ensures issuer == None && issuerKey == None && subject == None && grants == []
    {
      this.chain := chain;
      issuer, issuerKey, subject := None, None, None;
      grants := [];
    }

    method SetIssuer(issuer: Uri)
      modifies this
      ensures this.issuer == Some(issuer)
      ensures issuerKey == old(issuerKey) && subject == old(subject) && grants == old(grants)
    {
      this.issuer := Some(issuer);
    }

    method SetIssuerKey(issuerKey: Key)
      modifies this
      ensures this.issuerKey == Some(issuerKey)
      ensures issuer == old(issuer) && subject == old(subject) && grants == old(grants)
    {
      this.issuerKey := Some(issuerKey);
    }

    method SetSubject(subject: Uri)
      modifies this
      ensures this.subject == Some(subject)
      ensures issuer == old(issuer) && issuerKey == old(issuerKey) && grants == old(grants)
    {
      this.subject := Some(subject);
    }

    /** addGrant: append to the grant list. */
    method AddGrant(grant: Grant)
      modifies this
      ensures grants == old(grants) + [grant]
      ensures issuer == old(issuer) && issuerKey == old(issuerKey) && subject == old(subject)
    {
      grants := grants + [grant];
    }

    /** build: on an empty chain the block carries the builder's subject and no ant; on a
        non-empty one it carries the hash of the last block as ant and no subject. The
        AuthBlock constructor throws NullPointerException for a missing issuer and
        IllegalArgumentException for a missing key. The grants are written in insertion order
        and the block, still unsigned, is appended without validation. */
    method Build(nonce: nat) returns (r: Result<Block>)
      modifies chain, if chain.blocks == [] then {} else {chain.blocks[|chain.blocks| - 1]}
      ensures r == Raises(IllegalState) ==> old(chain.blocks) != []
      ensures r != Raises(IllegalState) && issuer.None? ==> r == Raises(NullPointer)
      ensures r != Raises(IllegalState) && issuer.Some? && issuerKey.None? ==> r == Raises(IllegalArgument)
      ensures r.Raises? ==> chain.blocks == old(chain.blocks)
      ensures r.Returns? ==>
                issuer.Some? && issuerKey.Some?
                && chain.blocks == old(chain.blocks) + [r.value] && !r.value.Signed()
                && r.value.Kid() == Some(chain.crypto.thumbprint(issuerKey.value))
                && r.value.Issuer() == issuer
                && r.value.Subject() == (if old(chain.blocks) == [] then subject else None)
                && r.value.Grants() == Returns(grants)
      ensures r.Returns? && old(chain.blocks) == [] ==> r.value.Antecedent().None?
      ensures r.Returns? && old(chain.blocks) != [] ==> old(chain.blocks)[|old(chain.blocks)| - 1].Signed()
      ensures r.Returns? && old(chain.blocks) != [] ==>
                r.value.Antecedent() == Some(old(chain.blocks)[|old(chain.blocks)| - 1].Hash(chain.crypto))
    {
      var crypto := chain.crypto;
      var sub: Option<Uri> := if chain.blocks == [] then subject else None;
      var link := LinkTo(crypto, chain.blocks, nonce);
      if link.Raises? {
        return Raises(link.err);
      }
      var ant := link.value;
      if issuer.None? {
        return Raises(NullPointer);
      }
      if issuerKey.None? {
        return Raises(IllegalArgument);
      }
      var block := new Block.Build(crypto, issuerKey.value, Claims(issuer, sub, ant, None, Some(EncodeGrants(grants))));
      DecodeEncodeGrants(grants);
      chain.AddBlock(block);
      r := Returns(block);
    }
  }
}

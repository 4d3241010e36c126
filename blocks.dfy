/** A block of a chain: a signed JWT whose compact serialization is produced once, by the
    block's own key, and never changes afterwards (chains/AbstractBlock.java). Identity
    blocks carry a pkt claim, authorization blocks a grants claim; both are Block here, and
    the accessors of the two subclasses read the corresponding claim. */
module Blocks {
  import opened Jose

  class Block {
    /** The signing key of a block built locally; None for a block parsed from text. */
    const key: Option<Key>
    const jwt: Jwt
    /** The compact serialization, once the block has been signed or parsed. */
    var serialization: Option<string>

    /** AbstractBlock(ECKey, claims): an unsigned block whose kid is the key's thumbprint. */
    constructor Build(crypto: Crypto, signingKey: Key, claims: Claims)
      ensures key == Some(signingKey)
      ensures jwt == Jwt(Some(crypto.thumbprint(signingKey)), claims)
      ensures serialization == None
    {
      key := Some(signingKey);
      jwt := Jwt(Some(crypto.thumbprint(signingKey)), claims);
      serialization := None;
    }

    /** AbstractBlock(String) once SignedJWT.parse has succeeded: the text is the serialization. */
    constructor Parsed(text: string, parsed: Jwt)
      ensures key == None && jwt == parsed && serialization == Some(text)
    {
      key := None;
      jwt := parsed;
      serialization := Some(text);
    }

    predicate Signed()
      reads this
    {
      serialization.Some?
    }

    /** getHash once the block is signed: SHA-256 of the serialization, hex-encoded. */
    function Hash(crypto: Crypto): string
      reads this
      requires Signed()
    {
      crypto.hash(serialization.value)
    }

    function Kid(): Option<string> { jwt.kid }
    function Antecedent(): Option<string> { jwt.claims.ant }
    function Issuer(): Option<Uri> { jwt.claims.iss }
    function Subject(): Option<Uri> { jwt.claims.sub }

    /** IdBlock.getPkt: the claim's text, or a NullPointerException when it is absent. */
    function Pkt(): (r: Result<string>)
      ensures r.Returns? <==> jwt.claims.pkt.Some?
      ensures r.Raises? ==> r.err == NullPointer
      ensures r.Returns? ==> Some(r.value) == jwt.claims.pkt
    {
      if jwt.claims.pkt.Some? then Returns(jwt.claims.pkt.value) else Raises(NullPointer)
    }

    /** AuthBlock.getGrants: the grants decoded in claim order; a NullPointerException when
        the claim is absent, an IllegalArgumentException when an element does not decode. */
    function Grants(): (r: Result<seq<Grant>>)
      ensures jwt.claims.grants.None? ==> r == Raises(NullPointer)
      ensures jwt.claims.grants.Some? ==> r == DecodeGrants(jwt.claims.grants.value)
    {
      if jwt.claims.grants.Some? then DecodeGrants(jwt.claims.grants.value) else Raises(NullPointer)
    }

    /** serialize: sign on first use and memoise; a parsed block returns its text, and a block
        without a key and without a serialization throws IllegalStateException. */
    method Serialize(crypto: Crypto, nonce: nat) returns (r: Result<string>)
      modifies this
      ensures old(serialization).Some? ==> r == Returns(old(serialization).value)
      ensures old(serialization).None? && key.None? ==> r == Raises(IllegalState)
      ensures old(serialization).None? && key.Some? ==> r == Returns(crypto.sign(key.value, jwt, nonce))
      ensures r.Returns? ==> serialization == Some(r.value)
      ensures r.Raises? ==> serialization == old(serialization)
    {
      if serialization.None? {
        if key.None? {
          return Raises(IllegalState);
        }
        serialization := Some(crypto.sign(key.value, jwt, nonce));
      }
      r := Returns(serialization.value);
    }

    /** getHash: hash of serialize(), signing the block first if need be. */
    method GetHash(crypto: Crypto, nonce: nat) returns (r: Result<string>)
      modifies this
      ensures r.Returns? <==> Signed()
      ensures r.Returns? ==> r.value == Hash(crypto)
      ensures old(serialization).Some? ==> serialization == old(serialization)
      ensures r.Raises? ==> r.err == IllegalState && serialization == old(serialization)
      ensures old(serialization).None? && key.None? ==> r == Raises(IllegalState)
    {
      var s := Serialize(crypto, nonce);
      match s
      case Raises(e) => r := Raises(e);
      case Returns(text) => r := Returns(crypto.hash(text));
    }

    /** equals: the same object, or two blocks whose serializations (signing each if need be)
        are the same text; false when either cannot be serialized. Comparing two distinct
        blocks signs, as a side effect, this block when it has a key and no serialization
        yet, and then the other block on the same terms once this one is serialized. */
    method Equals(crypto: Crypto, that: Block, nonce: nat) returns (r: bool)
      modifies this, that
      ensures r <==> this == that || (Signed() && that.Signed() && serialization == that.serialization)
      ensures old(serialization).Some? ==> serialization == old(serialization)
      ensures old(that.serialization).Some? ==> that.serialization == old(that.serialization)
      ensures this != that && old(serialization).None? ==>
                serialization == (if key.Some? then Some(crypto.sign(key.value, jwt, nonce)) else None)
      ensures this != that && (old(serialization).Some? || key.Some?) && old(that.serialization).None? ==>
                that.serialization == (if that.key.Some? then Some(crypto.sign(that.key.value, that.jwt, nonce)) else None)
      ensures this != that && old(serialization).None? && key.None? ==> that.serialization == old(that.serialization)
    {
      if this == that {
        return true;
      }
      var mine := Serialize(crypto, nonce);
      if mine.Raises? {
        return false;
      }
      var theirs := that.Serialize(crypto, nonce);
      if theirs.Raises? {
        return false;
      }
      r := mine.value == theirs.value;
    }
  }

  /** AbstractBlock(String): IllegalArgumentException for a missing text, ParseException
      (Malformed) for text SignedJWT.parse refuses, else a block whose serialization is the text. */
  method ParseBlock(crypto: Crypto, text: Option<string>) returns (r: Result<Block>)
    ensures text.None? ==> r == Raises(IllegalArgument)
    ensures text.Some? && crypto.parse(text.value).None? ==> r == Raises(Malformed)
    ensures r.Returns? <==> text.Some? && crypto.parse(text.value).Some?
    ensures r.Returns? ==> fresh(r.value) && r.value.key.None?
                           && r.value.jwt == crypto.parse(text.value).value
                           && r.value.serialization == text
  {
    if text.None? {
      return Raises(IllegalArgument);
    }
    var jwt := crypto.parse(text.value);
    if jwt.None? {
      return Raises(Malformed);
    }
    var b := new Block.Parsed(text.value, jwt.value);
    r := Returns(b);
  }

  /** A parsed block serializes back to exactly the text it was parsed from, and to the same
      text on every later call. */
  method ParsedSerializesBack(crypto: Crypto, text: string, nonce1: nat, nonce2: nat)
    returns (first: Result<string>, second: Result<string>)
    ensures crypto.parse(text).Some? ==> first == Returns(text) && second == Returns(text)
    ensures crypto.parse(text).None? ==> first == Raises(Malformed) && second == Raises(Malformed)
  {
    var parsed := ParseBlock(crypto, Some(text));
    if parsed.Raises? {
      return Raises(parsed.err), Raises(parsed.err);
    }
    first := parsed.value.Serialize(crypto, nonce1);
    second := parsed.value.Serialize(crypto, nonce2);
  }

  /** A built block is signed once: whatever nonces later calls bring, serialize returns the
      first signature, so its hash never changes. */
  method SignedOnce(crypto: Crypto, signingKey: Key, claims: Claims, nonce1: nat, nonce2: nat)
    returns (first: Result<string>, second: Result<string>)
    ensures first == Returns(crypto.sign(signingKey, Jwt(Some(crypto.thumbprint(signingKey)), claims), nonce1))
    ensures second == first
  {
    var b := new Block.Build(crypto, signingKey, claims);
    first := b.Serialize(crypto, nonce1);
    second := b.Serialize(crypto, nonce2);
  }

  /** The trust roots: hashes of blocks accepted without further proof. In the source the set
      is shared, mutable and survives validator resets. */
  class TrustRoots {
    var hashes: set<string>

    constructor ()
      ensures hashes == {}
    {
      hashes := {};
    }

    method Add(hash: string)
      modifies this
      ensures hashes == old(hashes) + {hash}
    {
      hashes := hashes + {hash};
    }

    method Clear()
      modifies this
      ensures hashes == {}
    {
      hashes := {};
    }

    method Contains(hash: string) returns (r: bool)
      ensures r <==> hash in hashes
    {
      r := hash in hashes;
    }
  }
}

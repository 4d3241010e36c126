/** The values a block is made of: the JWS header and claims, the privilege grants an
    authorization block carries, the exceptions the engine throws, and the cryptographic
    services (ES256 signing and verification, compact serialization, SHA-256, JWK
    thumbprints) that the engine uses but does not implement. */
module Jose {

  datatype Option<+T> = None | Some(value: T)

  /** Why an InvalidBlockException or InvalidParameterException was thrown. */
  datatype Why =
    | NoKid                   // the JWS header has no kid
    | KeyNotFound             // the transport holds no key for the kid
    | SignatureFailed         // the signature does not verify under that key
    | AntecedentMissing       // ant absent although a block was validated before
    | AntecedentUnexpected    // ant present although no block was validated before
    | AntecedentMismatch      // ant differs from the hash of the last validated block
    | IssuerMissing           // no iss claim
    | IssuerChainNotFound     // the transport holds no identity chain for iss
    | KeyNotInIssuerChain     // the kid is not among the issuer chain's key thumbprints
    | IssuerUntrusted         // identity block: no trust root, rotation or delegation applies
    | NoPrivilegesOnChain     // authorization block: the issuer has no entry in the grant table
    | NoGrantForPrivilege     // authorization block: the issuer has no entry for a privilege
    | InsufficientPrivileges  // authorization block: the issuer's entry is not VIRAL_GRANT

  /** The exceptions of the source, by class; Malformed is the ParseException of an unparsable
      token and ClassCast the ClassCastException of an issuer chain that is not an identity
      chain. Cycle stands for the unbounded recursion the
      source falls into when its issuer-chain validation re-enters itself. */
  datatype Err =
    | InvalidBlock(why: Why)
    | InvalidParameter(why: Why)
    | IllegalArgument
    | IllegalState
    | NullPointer
    | IndexOutOfBounds
    | Malformed
    | ClassCast
    | Cycle

  /** What a void Java method does: return normally or throw. */
  datatype Outcome = Ok | Throws(err: Err)

  /** What a value-returning Java method does. */
  datatype Result<+T> = Returns(value: T) | Raises(err: Err)

  type Uri = string
  /** An EC JWK, private or public; its structure is of no concern to the engine. */
  type Key = string

  /** AuthBlock.Grant.Type: VIRAL_GRANT, GRANT and REVOKE. */
  datatype GrantType = ViralGrant | PlainGrant | Revoke

  /** AuthBlock.Grant: an immutable (type, privilege, grantee) record. */
  datatype Grant = Grant(grantType: GrantType, privilege: string, grantee: Uri)

  /** The Grant constructor, which refuses a missing type, grantee or privilege. */
  function NewGrant(t: Option<GrantType>, grantee: Option<Uri>, privilege: Option<string>): (r: Result<Grant>)
    ensures r.Raises? <==> t.None? || grantee.None? || privilege.None?
    ensures r.Raises? ==> r.err == IllegalArgument
    ensures r.Returns? ==> r.value.grantType == t.value && r.value.grantee == grantee.value
                           && r.value.privilege == privilege.value
  {
    if t.None? || privilege.None? || grantee.None? then Raises(IllegalArgument)
    else Returns(Grant(t.value, privilege.value, grantee.value))
  }

  /** The enum constant names that Type.toString produces and Type.valueOf reads. */
  function TypeName(t: GrantType): string
  {
    match t
    case ViralGrant => "VIRAL_GRANT"
    case PlainGrant => "GRANT"
    case Revoke => "REVOKE"
  }

  /** Type.valueOf: the constant with that name, or IllegalArgumentException. */
  function TypeNamed(name: string): (r: Result<GrantType>)
    ensures r.Returns? <==> name in {"VIRAL_GRANT", "GRANT", "REVOKE"}
    ensures r.Returns? ==> TypeName(r.value) == name
    ensures r.Raises? ==> r.err == IllegalArgument
  {
    if name == "VIRAL_GRANT" then Returns(ViralGrant)
    else if name == "GRANT" then Returns(PlainGrant)
    else if name == "REVOKE" then Returns(Revoke)
    else Raises(IllegalArgument)
  }

  /** A flat JSON object of text members, as a grant is written in a block's grants claim. */
  type JsonObject = map<string, string>

  /** JsonNode.findPath(name).asText(): a missing member reads as the empty text. */
  function Member(node: JsonObject, name: string): string
  {
    if name in node then node[name] else ""
  }

  /** Grant.serializeToJson, whose result Grant.deserializeFromJson reads back as the same grant. */
  function GrantToJson(g: Grant): (node: JsonObject)
    ensures node.Keys == {"type", "privilege", "grantee"}
    ensures GrantFromJson(node) == Returns(g)
  {
    map["type" := TypeName(g.grantType), "privilege" := g.privilege, "grantee" := g.grantee]
  }

  /** Grant.deserializeFromJson. */
  function GrantFromJson(node: JsonObject): (r: Result<Grant>)
    ensures r.Returns? <==> Member(node, "type") in {"VIRAL_GRANT", "GRANT", "REVOKE"}
    ensures r.Returns? ==> r.value.privilege == Member(node, "privilege")
                           && r.value.grantee == Member(node, "grantee")
                           && TypeName(r.value.grantType) == Member(node, "type")
  {
    match TypeNamed(Member(node, "type"))
    case Raises(e) => Raises(e)
    case Returns(t) => Returns(Grant(t, Member(node, "privilege"), Member(node, "grantee")))
  }

  /** AuthBlock.getGrants over the grants claim: every element decoded in order, or the
      IllegalArgumentException of the first element whose type name is unknown. */
  function DecodeGrants(nodes: seq<JsonObject>): (r: Result<seq<Grant>>)
    ensures r.Returns? ==> |r.value| == |nodes|
    ensures r.Returns? ==> forall i :: 0 <= i < |nodes| ==> GrantFromJson(nodes[i]) == Returns(r.value[i])
    ensures r.Raises? ==> r.err == IllegalArgument
    ensures r.Raises? <==> exists i :: 0 <= i < |nodes| && GrantFromJson(nodes[i]).Raises?
  {
    if nodes == [] then Returns([])
    else
      match GrantFromJson(nodes[0])
      case Raises(e) => Raises(e)
      case Returns(g) =>
        match DecodeGrants(nodes[1..])
        case Raises(e) => Raises(e)
        case Returns(rest) => Returns([g] + rest)
  }

  /** The grants claim AuthBlock.Builder.build writes: each grant's JSON object, in insertion
      order. */
  function EncodeGrants(gs: seq<Grant>): (nodes: seq<JsonObject>)
    ensures |nodes| == |gs|
    ensures forall i :: 0 <= i < |gs| ==> nodes[i] == GrantToJson(gs[i])
  {
    if gs == [] then [] else [GrantToJson(gs[0])] + EncodeGrants(gs[1..])
  }

  /** getGrants reads back exactly the grants build wrote, in the same order. */
  lemma {:induction false} DecodeEncodeGrants(gs: seq<Grant>)
    ensures DecodeGrants(EncodeGrants(gs)) == Returns(gs)
  {
    if gs != [] {
      DecodeEncodeGrants(gs[1..]);
      var nodes := EncodeGrants(gs);
      assert nodes[1..] == EncodeGrants(gs[1..]);
      assert GrantFromJson(nodes[0]) == Returns(gs[0]);
      assert [gs[0]] + gs[1..] == gs;
    }
  }

  /** The claims of a block's JWT. A claim the token does not carry is None: iss, sub and ant
      on every block, pkt on identity blocks, grants on authorization blocks. */
  datatype Claims = Claims(
    iss: Option<Uri>,
    sub: Option<Uri>,
    ant: Option<string>,
    pkt: Option<string>,
    grants: Option<seq<JsonObject>>)

  /** The part of a signed JWT the engine reads: the kid header and the claims. */
  datatype Jwt = Jwt(kid: Option<string>, claims: Claims)

  /** The cryptographic and encoding services, each an arbitrary function: nothing in this
      model depends on what they compute.
      - sign(key, jwt, nonce): ES256 signature and compact serialization; the nonce stands for
        the signer's randomness, so two signings of one JWT may differ.
      - parse(s): SignedJWT.parse, None on a ParseException.
      - verify(s, key): signature verification of the token s under the public part of key.
      - hash(s): hex encoding of SHA-256 over the UTF-8 bytes of s.
      - thumbprint(key): the JWK thumbprint of key. */
  datatype Crypto = Crypto(
    sign: (Key, Jwt, nat) -> string,
    parse: string -> Option<Jwt>,
    verify: (string, Key) -> bool,
    hash: string -> string,
    thumbprint: Key -> string,
    publicPart: Key -> Key)
}

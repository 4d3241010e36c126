/** The checks the current and intermediate validators apply to one block, written as
    functions of the block's claims and the validator's state, and the grant table an
    authorization validator folds its blocks into. */
module Rules {
  import opened Jose

  /** validateAntecedent, given the hash of the last validated block (None when no block has
      been validated yet): the ant claim must be exactly that hash, or absent with it. */
  function CheckAntecedent(ant: Option<string>, cursorHash: Option<string>): (r: Outcome)
    ensures r == Ok <==> ant == cursorHash
    ensures ant.None? && cursorHash.Some? ==> r == Throws(InvalidBlock(AntecedentMissing))
    ensures ant.Some? && cursorHash.None? ==> r == Throws(InvalidBlock(AntecedentUnexpected))
    ensures ant.Some? && cursorHash.Some? && ant != cursorHash ==> r == Throws(InvalidBlock(AntecedentMismatch))
  {
    if ant.None? && cursorHash.None? then Ok
    else if ant.None? then Throws(InvalidBlock(AntecedentMissing))
    else if cursorHash.None? then Throws(InvalidBlock(AntecedentUnexpected))
    else if ant.value != cursorHash.value then Throws(InvalidBlock(AntecedentMismatch))
    else Ok
  }

  /** validateSignature: the kid names a key the transport holds and the token verifies under it. */
  function CheckSignature(crypto: Crypto, token: string, kid: Option<string>, keys: map<string, Key>): (r: Outcome)
    ensures r == Ok <==> kid.Some? && kid.value in keys && crypto.verify(token, keys[kid.value])
    ensures kid.None? ==> r == Throws(InvalidBlock(NoKid))
    ensures kid.Some? && kid.value !in keys ==> r == Throws(InvalidBlock(KeyNotFound))
    ensures kid.Some? && kid.value in keys && !crypto.verify(token, keys[kid.value]) ==>
              r == Throws(InvalidBlock(SignatureFailed))
  {
    if kid.None? then Throws(InvalidBlock(NoKid))
    else if kid.value !in keys then Throws(InvalidBlock(KeyNotFound))
    else if !crypto.verify(token, keys[kid.value]) then Throws(InvalidBlock(SignatureFailed))
    else Ok
  }

  /** Why an identity block's issuer is accepted. */
  datatype Route =
    | TrustedHash     // the block's hash is a trust root
    | KeyRotation     // the block is signed by the key the previous block published
    | MintDelegation  // the issuer is to be checked against its own identity chain

  /** The guard chain of IdBlockValidator.validateIssuer. cursorPkt is None when no block has
      been validated, else the previous block's pkt claim (itself None when absent). A missing
      kid or pkt in the rotation test, and a missing issuer in the delegation test, are
      dereferenced and throw NullPointerException. */
  function IdIssuerRoute(trusted: bool, kid: Option<string>, cursorPkt: Option<Option<string>>,
                         issuer: Option<Uri>, subject: Option<Uri>, chainIssuer: Option<Uri>): (r: Result<Route>)
    ensures trusted ==> r == Returns(TrustedHash)
    ensures r == Returns(KeyRotation) <==>
              !trusted && cursorPkt.Some? && cursorPkt.value.Some? && kid == cursorPkt.value
    ensures r == Returns(MintDelegation) <==>
              !trusted && (cursorPkt.Some? ==> cursorPkt.value.Some? && kid.Some? && kid != cursorPkt.value)
              && issuer.Some? && (cursorPkt.None? || issuer == chainIssuer) && issuer != subject
    ensures r.Raises? && r.err != NullPointer ==> r.err == InvalidBlock(IssuerUntrusted)
  {
    if trusted then Returns(TrustedHash)
    else if cursorPkt.Some? && (kid.None? || cursorPkt.value.None?) then Raises(NullPointer)
    else if cursorPkt.Some? && kid.value == cursorPkt.value.value then Returns(KeyRotation)
    else if issuer.None? then Raises(NullPointer)
    else if (cursorPkt.None? || issuer == chainIssuer) && issuer != subject then Returns(MintDelegation)
    else Raises(InvalidBlock(IssuerUntrusted))
  }

  /** A self-issued genesis block that is not a trust root is rejected. */
  lemma SelfIssuedGenesisRejected(kid: Option<string>, issuer: Uri, chainIssuer: Option<Uri>)
    ensures IdIssuerRoute(false, kid, None, Some(issuer), Some(issuer), chainIssuer)
            == Raises(InvalidBlock(IssuerUntrusted))
  {
  }

  /** A later block from an issuer other than the pinned one, signed by a key other than the one
      the previous block published, is rejected. */
  lemma ForeignIssuerRejected(kid: string, previousPkt: string, issuer: Uri, subject: Option<Uri>,
                              chainIssuer: Option<Uri>)
    requires kid != previousPkt && Some(issuer) != chainIssuer
    ensures IdIssuerRoute(false, Some(kid), Some(Some(previousPkt)), Some(issuer), subject, chainIssuer)
            == Raises(InvalidBlock(IssuerUntrusted))
  {
  }

  /** _currentGrants: grantee, then privilege, to the type of the grant that set it. */
  type GrantTable = map<Uri, map<string, GrantType>>

  function Lookup(t: GrantTable, grantee: Uri, privilege: string): Option<GrantType>
  {
    if grantee in t && privilege in t[grantee] then Some(t[grantee][privilege]) else None
  }

  /** One step of doPostValidation: putIfAbsent the grantee's row, then put the privilege. */
  function Put(t: GrantTable, g: Grant): (r: GrantTable)
    ensures r.Keys == t.Keys + {g.grantee}
  {
    var row := if g.grantee in t then t[g.grantee] else map[];
    t[g.grantee := row[g.privilege := g.grantType]]
  }

  /** A put sets the one entry it names and leaves every other entry as it was. */
  lemma PutLookup(t: GrantTable, g: Grant, grantee: Uri, privilege: string)
    ensures Lookup(Put(t, g), grantee, privilege) ==
            if grantee == g.grantee && privilege == g.privilege then Some(g.grantType) else Lookup(t, grantee, privilege)
  {
  }

  /** The table after folding grants in list order. */
  function FoldGrants(t: GrantTable, gs: seq<Grant>): GrantTable
    decreases |gs|
  {
    if gs == [] then t else Put(FoldGrants(t, gs[..|gs| - 1]), gs[|gs| - 1])
  }

  /** The type of the last grant in gs for that grantee and privilege. */
  function LastMatch(gs: seq<Grant>, grantee: Uri, privilege: string): (r: Option<GrantType>)
    ensures r.None? <==> forall i :: 0 <= i < |gs| ==> !(gs[i].grantee == grantee && gs[i].privilege == privilege)
    ensures r.Some? ==> exists i :: 0 <= i < |gs| && gs[i].grantee == grantee && gs[i].privilege == privilege
                                  && gs[i].grantType == r.value
                                  && forall j :: i < j < |gs| ==> !(gs[j].grantee == grantee && gs[j].privilege == privilege)
    decreases |gs|
  {
    if gs == [] then None
    else if gs[|gs| - 1].grantee == grantee && gs[|gs| - 1].privilege == privilege then Some(gs[|gs| - 1].grantType)
    else LastMatch(gs[..|gs| - 1], grantee, privilege)
  }

  /** Folding is last write wins: an entry is the type of the last grant for it, whatever that
      type, and entries no grant names keep their old value. */
  lemma {:induction false} FoldLookup(t: GrantTable, gs: seq<Grant>, grantee: Uri, privilege: string)
    ensures Lookup(FoldGrants(t, gs), grantee, privilege) ==
            if LastMatch(gs, grantee, privilege).Some? then LastMatch(gs, grantee, privilege)
            else Lookup(t, grantee, privilege)
    decreases |gs|
  {
    if gs != [] {
      FoldLookup(t, gs[..|gs| - 1], grantee, privilege);
      PutLookup(FoldGrants(t, gs[..|gs| - 1]), gs[|gs| - 1], grantee, privilege);
    }
  }

  /** Folding two lists one after the other is folding their concatenation. */
  lemma {:induction false} FoldAppend(t: GrantTable, gs: seq<Grant>, hs: seq<Grant>)
    ensures FoldGrants(FoldGrants(t, gs), hs) == FoldGrants(t, gs + hs)
    decreases |hs|
  {
    if hs == [] {
      assert gs + hs == gs;
    } else {
      FoldAppend(t, gs, hs[..|hs| - 1]);
      assert (gs + hs)[..|gs + hs| - 1] == gs + hs[..|hs| - 1];
      assert (gs + hs)[|gs + hs| - 1] == hs[|hs| - 1];
    }
  }

  /** The issuer's row grants a privilege virally. */
  predicate Viral(creator: Option<map<string, GrantType>>, privilege: string)
  {
    creator.Some? && privilege in creator.value && creator.value[privilege] == ViralGrant
  }

  /** The error the first offending grant raises: missingEntry when the issuer has no row or no
      entry for the privilege, InvalidBlockException when the entry is not VIRAL_GRANT. */
  function Offence(creator: Option<map<string, GrantType>>, privilege: string, missingEntry: Err): Err
  {
    if creator.Some? && privilege in creator.value then InvalidBlock(InsufficientPrivileges) else missingEntry
  }

  /** The loop of validateGrants: every grant's privilege is held virally by the issuer, else
      the first grant that is not throws. */
  function CheckEachGrant(creator: Option<map<string, GrantType>>, gs: seq<Grant>, missingEntry: Err): (r: Outcome)
    ensures r == Ok <==> forall i :: 0 <= i < |gs| ==> Viral(creator, gs[i].privilege)
    ensures r.Throws? ==> exists i :: 0 <= i < |gs| && !Viral(creator, gs[i].privilege)
                                     && (forall j :: 0 <= j < i ==> Viral(creator, gs[j].privilege))
                                     && r.err == Offence(creator, gs[i].privilege, missingEntry)
    decreases |gs|
  {
    if gs == [] then Ok
    else if !Viral(creator, gs[0].privilege) then Throws(Offence(creator, gs[0].privilege, missingEntry))
    else
      var r := CheckEachGrant(creator, gs[1..], missingEntry);
      assert forall i :: 1 <= i < |gs| ==> gs[1..][i - 1] == gs[i];
      r
  }

  /** After a viral prefix, the check is the check of the rest. */
  lemma {:induction false} CheckEachGrantSuffix(creator: Option<map<string, GrantType>>, gs: seq<Grant>,
                                                missingEntry: Err, k: nat)
    requires k <= |gs|
    requires forall j :: 0 <= j < k ==> Viral(creator, gs[j].privilege)
    ensures CheckEachGrant(creator, gs, missingEntry) == CheckEachGrant(creator, gs[k..], missingEntry)
    decreases k
  {
    if k > 0 {
      assert gs[1..][k - 1..] == gs[k..];
      CheckEachGrantSuffix(creator, gs[1..], missingEntry, k - 1);
    }
  }

  /** validation/AuthBlockValidator.validateGrants: a genesis block passes; otherwise an issuer
      without a row throws InvalidParameterException, getGrants must succeed, and each grant
      must be held virally (a missing entry throws InvalidParameterException). */
  function CheckGrants(table: GrantTable, ant: Option<string>, issuer: Option<Uri>, grants: Result<seq<Grant>>): (r: Outcome)
    ensures ant.None? ==> r == Ok
    ensures ant.Some? && (issuer.None? || issuer.value !in table) ==> r == Throws(InvalidParameter(NoPrivilegesOnChain))
    ensures r == Ok <==> ant.None? || (issuer.Some? && issuer.value in table && grants.Returns?
                                       && forall i :: 0 <= i < |grants.value| ==>
                                            Lookup(table, issuer.value, grants.value[i].privilege) == Some(ViralGrant))
  {
    if ant.None? then Ok
    else if issuer.None? || issuer.value !in table then Throws(InvalidParameter(NoPrivilegesOnChain))
    else if grants.Raises? then Throws(grants.err)
    else CheckEachGrant(Some(table[issuer.value]), grants.value, InvalidParameter(NoGrantForPrivilege))
  }

  /** chains/AuthBlockValidator.validateGrants: as above, but a missing row or entry is
      dereferenced, so it throws NullPointerException, and only once a grant is examined. */
  function CheckGrantsUnguarded(table: GrantTable, ant: Option<string>, issuer: Option<Uri>,
                                grants: Result<seq<Grant>>): (r: Outcome)
    ensures ant.None? ==> r == Ok
    ensures r == Ok <==> ant.None? || (grants.Returns?
                                       && forall i :: 0 <= i < |grants.value| ==>
                                            issuer.Some? && Lookup(table, issuer.value, grants.value[i].privilege) == Some(ViralGrant))
    ensures r.Throws? && grants.Returns? ==> r.err == NullPointer || r.err == InvalidBlock(InsufficientPrivileges)
  {
    if ant.None? then Ok
    else if grants.Raises? then Throws(grants.err)
    else
      var creator := if issuer.Some? && issuer.value in table then Some(table[issuer.value]) else None;
      CheckEachGrant(creator, grants.value, NullPointer)
  }
}

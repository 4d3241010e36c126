/** Privilege queries over an authorization chain. hasPrivilege walks the blocks newest first
    and, inside a block, the grants in list order; the first grant naming the account and the
    privilege decides. The validator instead folds every grant into its table, last write
    wins. The two agree unless one block names the same account and privilege twice. */
module Privileges {
  import opened Jose
  import opened Rules

  predicate Names(g: Grant, grantee: Uri, privilege: string)
  {
    g.grantee == grantee && g.privilege == privilege
  }

  /** The type of the first grant in gs naming the account and the privilege. */
  function FirstMatch(gs: seq<Grant>, grantee: Uri, privilege: string): (r: Option<GrantType>)
    ensures r.None? <==> forall i :: 0 <= i < |gs| ==> !Names(gs[i], grantee, privilege)
    ensures r.Some? ==> exists i :: 0 <= i < |gs| && Names(gs[i], grantee, privilege) && gs[i].grantType == r.value
                                  && forall j :: 0 <= j < i ==> !Names(gs[j], grantee, privilege)
    decreases |gs|
  {
    if gs == [] then None
    else if Names(gs[0], grantee, privilege) then Some(gs[0].grantType)
    else
      var r := FirstMatch(gs[1..], grantee, privilege);
      assert forall i :: 1 <= i < |gs| ==> gs[1..][i - 1] == gs[i];
      r
  }

  /** The deciding grant type of hasPrivilege over the blocks' grant lists (oldest first, each
      the result of getGrants): None when no grant matches, or the error of the first block
      reached whose grants cannot be read. */
  function Decision(lists: seq<Result<seq<Grant>>>, grantee: Uri, privilege: string): Result<Option<GrantType>>
    decreases |lists|
  {
    if lists == [] then Returns(None)
    else
      match lists[|lists| - 1]
      case Raises(e) => Raises(e)
      case Returns(gs) =>
        if FirstMatch(gs, grantee, privilege).Some? then Returns(FirstMatch(gs, grantee, privilege))
        else Decision(lists[..|lists| - 1], grantee, privilege)
  }

  /** hasPrivilege: a missing account or privilege is an IllegalArgumentException; otherwise true
      exactly when the deciding grant exists and is not REVOKE. */
  function Holds(lists: seq<Result<seq<Grant>>>, acct: Option<Uri>, privilege: Option<string>): (r: Result<bool>)
    ensures acct.None? || privilege.None? ==> r == Raises(IllegalArgument)
    ensures acct.Some? && privilege.Some? ==>
              (r == Returns(true) <==> exists t :: Decision(lists, acct.value, privilege.value) == Returns(Some(t)) && t != Revoke)
    ensures acct.Some? && privilege.Some? && Decision(lists, acct.value, privilege.value) == Returns(None) ==> r == Returns(false)
    ensures acct.Some? && privilege.Some? && lists == [] ==> r == Returns(false)
  {
    if acct.None? || privilege.None? then Raises(IllegalArgument)
    else
      match Decision(lists, acct.value, privilege.value)
      case Raises(e) => Raises(e)
      case Returns(None) => Returns(false)
      case Returns(Some(t)) => Returns(t != Revoke)
  }

  /** The grant-list results of blocks whose grants all decode. */
  function Decoded(lists: seq<seq<Grant>>): (r: seq<Result<seq<Grant>>>)
    ensures |r| == |lists| && forall k :: 0 <= k < |lists| ==> r[k] == Returns(lists[k])
  {
    seq(|lists|, k requires 0 <= k < |lists| => Returns(lists[k]))
  }

  /** The table a validator holds after accepting blocks with these grant lists, from empty. */
  function Replay(lists: seq<seq<Grant>>): GrantTable
    decreases |lists|
  {
    if lists == [] then map[] else FoldGrants(Replay(lists[..|lists| - 1]), lists[|lists| - 1])
  }

  /** No grant list names the account and the privilege twice. */
  predicate AtMostOnce(lists: seq<seq<Grant>>, grantee: Uri, privilege: string)
  {
    forall k, i, j :: 0 <= k < |lists| && 0 <= i < j < |lists[k]| && Names(lists[k][i], grantee, privilege)
                      ==> !Names(lists[k][j], grantee, privilege)
  }

  /** Within a list that names the pair at most once, the first match is the last one. */
  lemma FirstIsLast(gs: seq<Grant>, grantee: Uri, privilege: string)
    requires forall i, j :: 0 <= i < j < |gs| && Names(gs[i], grantee, privilege) ==> !Names(gs[j], grantee, privilege)
    ensures FirstMatch(gs, grantee, privilege) == LastMatch(gs, grantee, privilege)
  {
  }

  /** hasPrivilege reads the validator's table: when no block names the pair twice, the
      deciding type is the type the replayed table holds for it. */
  lemma {:induction false} DecisionIsReplayedTable(lists: seq<seq<Grant>>, grantee: Uri, privilege: string)
    requires AtMostOnce(lists, grantee, privilege)
    ensures Decision(Decoded(lists), grantee, privilege) == Returns(Lookup(Replay(lists), grantee, privilege))
    decreases |lists|
  {
    if lists != [] {
      var last := lists[|lists| - 1];
      var front := lists[..|lists| - 1];
      assert Decoded(lists)[..|lists| - 1] == Decoded(front);
      FirstIsLast(last, grantee, privilege);
      FoldLookup(Replay(front), last, grantee, privilege);
      DecisionIsReplayedTable(front, grantee, privilege);
    }
  }

  /** One block that grants and then revokes the same privilege: hasPrivilege answers true,
      while the validator's table records the revocation. The list names the pair twice, so
      DecisionIsReplayedTable, which says the two agree otherwise, does not apply. */
  lemma GrantThenRevokeDisagrees(grantee: Uri, privilege: string)
    ensures var lists := [[Grant(PlainGrant, privilege, grantee), Grant(Revoke, privilege, grantee)]];
            Holds(Decoded(lists), Some(grantee), Some(privilege)) == Returns(true)
            && Lookup(Replay(lists), grantee, privilege) == Some(Revoke)
  {
    var gs := [Grant(PlainGrant, privilege, grantee), Grant(Revoke, privilege, grantee)];
    var lists := [gs];
    assert FirstMatch(gs, grantee, privilege) == Some(PlainGrant);
    assert Decoded(lists)[..0] == [];
    assert lists[..0] == [];
    FoldLookup(map[], gs, grantee, privilege);
    assert LastMatch(gs, grantee, privilege) == Some(Revoke);
  }
}

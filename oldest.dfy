/** The oldest generation of the engine: IdChain, AuthChain, IdBlock and AuthBlock of the sdk
    package. Chains append without validating. validate replays every block through a fresh
    ChainValidationState whose ratchet answers true or false, and it leaves the chain and
    everything else as it was, so a second call answers the same. An exception the Java code
    lets escape is the Raises of a Result.

    IdBlock.validateSignature validates the issuer's IdChain, which may lead back to a chain
    being validated; free holds the chains that are not being validated further up the call,
    and reaching one that is raises Cycle, where the Java recursion does not end. */
module Oldest {
  import opened Jose
  import opened Blocks
  import opened Rules
  import Privileges
  import Current
  import Intermediate

  /** The transport of this generation: public keys by thumbprint, identity chains by URI. */
  class Transport {
    var keys: map<string, Key>
    var chains: map<Uri, IdChain>

    constructor (keys: map<string, Key>, chains: map<Uri, IdChain>)
      ensures this.keys == keys && this.chains == chains
    {
      this.keys := keys;
      this.chains := chains;
    }
  }

  // ---------------------------------------------------------------------------------------
  // The pkt order of an IdChain

  /** The pkt claims of bs in block order; a block without one adds nothing. */
  function PktSeq(bs: seq<Block>): seq<string>
    decreases |bs|
  {
    if bs == [] then []
    else
      var b := bs[|bs| - 1];
      PktSeq(bs[..|bs| - 1]) + (if b.jwt.claims.pkt.Some? then [b.jwt.claims.pkt.value] else [])
  }

  /** _pktOrder after putting each pkt of ps, in order, with the map's size as its value. */
  function PktOrder(ps: seq<string>): map<string, nat>
    decreases |ps|
  {
    if ps == [] then map[]
    else
      var m := PktOrder(ps[..|ps| - 1]);
      m[ps[|ps| - 1] := |m|]
  }

  predicate Distinct(ps: seq<string>)
  {
    forall i, j :: 0 <= i < j < |ps| ==> ps[i] != ps[j]
  }

  /** A pkt is in PktSeq exactly when some block carries it. */
  lemma {:induction false} PktSeqMembers(bs: seq<Block>, p: string)
    ensures p in PktSeq(bs) <==> exists i :: 0 <= i < |bs| && bs[i].jwt.claims.pkt == Some(p)
    decreases |bs|
  {
    if bs != [] {
      var front := bs[..|bs| - 1];
      PktSeqMembers(front, p);
      if p in PktSeq(bs) && p !in PktSeq(front) {
        assert bs[|bs| - 1].jwt.claims.pkt == Some(p);
      }
      if p in PktSeq(front) {
        var i :| 0 <= i < |front| && front[i].jwt.claims.pkt == Some(p);
        assert bs[i] == front[i];
      }
      if exists i :: 0 <= i < |bs| && bs[i].jwt.claims.pkt == Some(p) {
        var i :| 0 <= i < |bs| && bs[i].jwt.claims.pkt == Some(p);
        if i < |front| {
          assert front[i] == bs[i];
        }
      }
    }
  }

  /** The keys of _pktOrder are the pkts put into it. */
  lemma {:induction false} PktOrderKeys(ps: seq<string>, p: string)
    ensures p in PktOrder(ps) <==> p in ps
    decreases |ps|
  {
    if ps != [] {
      PktOrderKeys(ps[..|ps| - 1], p);
      assert ps == ps[..|ps| - 1] + [ps[|ps| - 1]];
    }
  }

  /** When no pkt repeats, each pkt's value is its position: the order the chain took them in. */
  lemma {:induction false} PktOrderPositions(ps: seq<string>)
    requires Distinct(ps)
    ensures |PktOrder(ps)| == |ps|
    ensures forall k :: 0 <= k < |ps| ==> ps[k] in PktOrder(ps) && PktOrder(ps)[ps[k]] == k
    decreases |ps|
  {
    if ps != [] {
      var front := ps[..|ps| - 1];
      var last := ps[|ps| - 1];
      assert Distinct(front);
      PktOrderPositions(front);
      PktOrderKeys(front, last);
      assert last !in front;
      var m := PktOrder(front);
      assert ps[..|ps| - 1] == front;
      assert PktOrder(ps) == m[last := |m|];
      assert last !in m;
      assert |m[last := |m|]| == |m| + 1;
      forall k | 0 <= k < |ps|
        ensures ps[k] in PktOrder(ps) && PktOrder(ps)[ps[k]] == k
      {
        if k < |front| {
          assert ps[k] == front[k];
        }
      }
    }
  }

  /** A pkt that comes back overwrites its value with the map's size, which the next new pkt
      gets too: after a, a, b the two have the same value. With distinct pkts this cannot
      happen: PktOrderPositions gives each its position. */
  lemma RepeatedPktShares(a: string, b: string)
    requires a != b
    ensures PktOrder([a, a, b]) == map[a := 1, b := 1]
  {
    assert [a, a, b][..2] == [a, a];
    assert [a, a][..1] == [a];
    assert [a][..0] == [];
    assert PktOrder([a]) == map[a := 0];
    assert map[a := 0].Keys == {a};
    assert PktOrder([a, a]) == map[a := 1];
    assert map[a := 1].Keys == {a};
  }

  // ---------------------------------------------------------------------------------------
  // IdChain

  /** sdk/IdChain: blocks, and _pktOrder, the position each pkt was recorded at. */
  class IdChain {
    const crypto: Crypto
    /** _cc, the cache the chain reads keys and other chains from. */
    const transport: Transport
    var blocks: seq<Block>
    var pktOrder: map<string, nat>

    /** _pktOrder is what addBlock made of the blocks' pkts. */
    predicate Valid()
      reads this
    {
      pktOrder == PktOrder(PktSeq(blocks))
    }

    constructor (crypto: Crypto, transport: Transport)
      ensures this.crypto == crypto && this.transport == transport
      ensures blocks == [] && pktOrder == map[] && Valid()
    {
      this.crypto := crypto;
      this.transport := transport;
      blocks := [];
      pktOrder := map[];
    }

    /** addBlock: IllegalArgumentException for a missing block; otherwise the block is appended
        and then its pkt recorded with the map's size as value, so a block without a pkt is
        appended and throws NullPointerException. Nothing is validated. */
    method AddBlock(block: Block?) returns (r: Outcome)
      requires Valid()
      modifies this
      ensures Valid()
      ensures block == null ==> r == Throws(IllegalArgument) && blocks == old(blocks) && pktOrder == old(pktOrder)
      ensures block != null ==> blocks == old(blocks) + [block]
      ensures block != null ==> (r == Ok <==> block.jwt.claims.pkt.Some?)
      ensures block != null && block.jwt.claims.pkt.None? ==> r == Throws(NullPointer) && pktOrder == old(pktOrder)
      ensures block != null && block.jwt.claims.pkt.Some? ==>
                pktOrder == old(pktOrder)[block.jwt.claims.pkt.value := |old(pktOrder)|]
    {
      if block == null {
        return Throws(IllegalArgument);
      }
      blocks := blocks + [block];
      assert blocks[..|blocks| - 1] == old(blocks);
      var pkt := block.Pkt();
      if pkt.Raises? {
        assert blocks[|blocks| - 1] == block && block.jwt.claims.pkt.None?;
        assert PktSeq(blocks) == PktSeq(blocks[..|blocks| - 1]) + [];
        assert PktSeq(blocks) == PktSeq(old(blocks));
        return Throws(pkt.err);
      }
      pktOrder := pktOrder[pkt.value := |pktOrder|];
      r := Ok;
    }

    /** containsPkt: IllegalArgumentException for a missing pkt; otherwise whether some block
        of the chain carries it. */
    function ContainsPkt(pkt: Option<string>): (r: Result<bool>)
      reads this
      ensures pkt.None? ==> r == Raises(IllegalArgument)
      ensures pkt.Some? && Valid() ==>
                (r == Returns(true) <==> exists i :: 0 <= i < |blocks| && blocks[i].jwt.claims.pkt == pkt)
      ensures pkt.Some? ==> r.Returns?
    {
      if pkt.None? then Raises(IllegalArgument)
      else
        PktOrderKeys(PktSeq(blocks), pkt.value);
        PktSeqMembers(blocks, pkt.value);
        Returns(pkt.value in pktOrder)
    }

    /** followsPkt(pkt1, pkt2): pkt1 is pkt2 or was recorded after it. containsPkt short-cuts,
        so a missing pkt2 only throws when pkt1 is on the chain. */
    function FollowsPkt(pkt1: Option<string>, pkt2: Option<string>): (r: Result<bool>)
      reads this
      ensures pkt1.None? ==> r == Raises(IllegalArgument)
      ensures pkt1.Some? && ContainsPkt(pkt1) == Returns(false) ==> r == Returns(false)
      ensures pkt1.Some? && ContainsPkt(pkt1) == Returns(true) && pkt2.None? ==> r == Raises(IllegalArgument)
      ensures r == Returns(true) ==> ContainsPkt(pkt1) == Returns(true) && ContainsPkt(pkt2) == Returns(true)
    {
      match ContainsPkt(pkt1)
      case Raises(e) => Raises(e)
      case Returns(has1) =>
        if !has1 then Returns(false)
        else
          match ContainsPkt(pkt2)
          case Raises(e) => Raises(e)
          case Returns(has2) => Returns(has2 && pktOrder[pkt2.value] <= pktOrder[pkt1.value])
    }

    /** When no pkt is recorded twice, followsPkt(pkt1, pkt2) holds exactly when both are on
        the chain and pkt2's block comes no later than pkt1's. */
    lemma FollowsPktIsBlockOrder(pkt1: string, pkt2: string)
      requires Valid() && Distinct(PktSeq(blocks))
      ensures FollowsPkt(Some(pkt1), Some(pkt2)) == Returns(true) <==>
                exists i, j :: 0 <= j <= i < |PktSeq(blocks)| && PktSeq(blocks)[i] == pkt1 && PktSeq(blocks)[j] == pkt2
    {
      var ps := PktSeq(blocks);
      PktOrderPositions(ps);
      PktOrderKeys(ps, pkt1);
      PktOrderKeys(ps, pkt2);
      if FollowsPkt(Some(pkt1), Some(pkt2)) == Returns(true) {
        var i :| 0 <= i < |ps| && ps[i] == pkt1;
        var j :| 0 <= j < |ps| && ps[j] == pkt2;
        assert pktOrder[pkt1] == i && pktOrder[pkt2] == j;
        assert 0 <= j <= i < |ps| && ps[i] == pkt1 && ps[j] == pkt2;
      }
      if exists i, j :: 0 <= j <= i < |ps| && ps[i] == pkt1 && ps[j] == pkt2 {
        var i, j :| 0 <= j <= i < |ps| && ps[i] == pkt1 && ps[j] == pkt2;
        assert pktOrder[pkt1] == i && pktOrder[pkt2] == j;
        assert pkt1 in pktOrder && pkt2 in pktOrder;
        assert ContainsPkt(Some(pkt1)) == Returns(true) && ContainsPkt(Some(pkt2)) == Returns(true);
        assert FollowsPkt(Some(pkt1), Some(pkt2)) == Returns(pktOrder[pkt2] <= pktOrder[pkt1]);
        assert FollowsPkt(Some(pkt1), Some(pkt2)) == Returns(true);
        assert exists i, j :: 0 <= j <= i < |PktSeq(blocks)| && PktSeq(blocks)[i] == pkt1 && PktSeq(blocks)[j] == pkt2;
      }
    }

    /** A pkt recorded twice, then another: each of the two follows the other, although the
        second entered the chain after the first. With distinct pkts, FollowsPktIsBlockOrder
        shows followsPkt is the block order. */
    lemma RepeatedPktFollowsBothWays(a: string, b: string)
      requires Valid() && PktSeq(blocks) == [a, a, b] && a != b
      ensures FollowsPkt(Some(a), Some(b)) == Returns(true)
      ensures FollowsPkt(Some(b), Some(a)) == Returns(true)
    {
      RepeatedPktShares(a, b);
    }

    /** getActivePkt: the last block's pkt, IndexOutOfBoundsException on an empty chain. It is
        one the chain contains. */
    function ActivePkt(): (r: Result<string>)
      reads this
      ensures blocks == [] ==> r == Raises(IndexOutOfBounds)
      ensures blocks != [] ==> (r.Returns? <==> blocks[|blocks| - 1].jwt.claims.pkt.Some?)
      ensures r.Returns? ==> Some(r.value) == blocks[|blocks| - 1].jwt.claims.pkt
      ensures r.Returns? && Valid() ==> ContainsPkt(Some(r.value)) == Returns(true)
    {
      if blocks == [] then Raises(IndexOutOfBounds) else blocks[|blocks| - 1].Pkt()
    }

    /** Block j is linked to its predecessor and its signature is vouched for, the issuer
        being that of the genesis block, which has one. */
    predicate AcceptedAt(roots: set<string>, j: nat)
      reads this, blocks, transport, transport.chains.Values
      requires j < |blocks|
    {
      blocks[j].Signed() && (j > 0 ==> blocks[j - 1].Signed())
      && Intermediate.ChainedAt(crypto, None, blocks, j)
      && blocks[0].Issuer().Some?
      && Vouched(crypto, transport, roots, if j == 0 then null else blocks[j - 1], blocks[0].Issuer(), blocks[j])
    }

    /** Every block is linked and vouched for: what a true validate establishes. */
    predicate AllAccepted(roots: set<string>)
      reads this, blocks, transport, transport.chains.Values
    {
      forall j :: 0 <= j < |blocks| ==> AcceptedAt(roots, j)
    }

    /** Block j is linked to its predecessor and passes without the issuer chain: its hash is
        a trust root, or it is a key rotation (its kid is the predecessor's pkt) whose
        signature verifies under the transport key for the kid. */
    predicate ImmediateAt(roots: set<string>, j: nat)
      reads this, blocks, transport
      requires j < |blocks|
    {
      blocks[j].Signed() && (j > 0 ==> blocks[j - 1].Signed())
      && Intermediate.ChainedAt(crypto, None, blocks, j)
      && blocks[0].Issuer().Some?
      && (blocks[j].Hash(crypto) in roots
          || RotationVerifies(crypto, transport, if j == 0 then null else blocks[j - 1], blocks[j]))
    }

    /** validate: a fresh state ratchets over every block; the first false is the answer, else
        true. The trust roots are a parameter (the state's _trustRoots IdBlock reads). */
    method Validate(roots: set<string>, free: set<IdChain>) returns (r: Result<bool>)
      requires this in free
      decreases free, 0
      ensures blocks == [] ==> r == Returns(true)
      ensures r == Returns(true) ==> AllAccepted(roots)
      ensures (forall j :: 0 <= j < |blocks| ==> ImmediateAt(roots, j)) ==> r == Returns(true)
    {
      var cvs := new IdValidationState(crypto, transport, roots);
      var i := 0;
      while i < |blocks|
        invariant 0 <= i <= |blocks|
        invariant cvs.crypto == crypto && cvs.transport == transport && cvs.roots == roots
        invariant cvs.cursor == (if i == 0 then null else blocks[i - 1])
        invariant i > 0 ==> blocks[i - 1].Signed() && cvs.issuer == blocks[0].Issuer() && blocks[0].Issuer().Some?
        invariant forall j :: 0 <= j < i ==> AcceptedAt(roots, j)
      {
        ghost var cursor := cvs.cursor;
        var ok := cvs.Ratchet(blocks[i], free - {this});
        if ok != Returns(true) {
          assert !ImmediateAt(roots, i);
          return ok;
        }
        assert cursor == (if i == 0 then null else blocks[i - 1]);
        assert Intermediate.ChainedAt(crypto, None, blocks, i);
        assert AcceptedAt(roots, i);
        i := i + 1;
      }
      r := Returns(true);
    }
  }

  /** The block's kid is the predecessor's pkt: a key rotation. */
  predicate RotatesFrom(prev: Block?, b: Block)
    reads prev
  {
    prev != null && b.Kid().Some? && prev.Pkt() == Returns(b.Kid().value)
  }

  /** A key rotation whose signature verifies under the transport key for the kid. */
  predicate RotationVerifies(crypto: Crypto, transport: Transport, prev: Block?, b: Block)
    reads prev, b, transport
  {
    RotatesFrom(prev, b) && b.Signed() && b.Kid().value in transport.keys
    && crypto.verify(b.serialization.value, transport.keys[b.Kid().value])
  }

  /** validateSignature consults the chain issuer's IdChain: for a genesis block, or a kid
      other than the predecessor's pkt. */
  predicate ViaIssuer(prev: Block?, b: Block)
    reads prev
  {
    prev == null || (b.Kid().Some? && prev.Pkt().Returns? && prev.Pkt().value != b.Kid().value)
  }

  /** What IdBlock.validateSignature accepts without further proof of the issuer chain: the
      block's hash is a trust root, or the signature verifies under the transport key for the
      kid and that kid is the predecessor's pkt or one of the issuer chain's pkts. */
  predicate Vouched(crypto: Crypto, transport: Transport, roots: set<string>, prev: Block?, issuer: Option<Uri>, b: Block)
    reads b, prev, transport, transport.chains.Values
    requires b.Signed()
  {
    b.Hash(crypto) in roots
    || (b.Kid().Some? && b.Kid().value in transport.keys
        && crypto.verify(b.serialization.value, transport.keys[b.Kid().value])
        && ((prev != null && prev.Pkt() == Returns(b.Kid().value))
            || (issuer.Some? && issuer.value in transport.chains
                && b.Kid().value in transport.chains[issuer.value].pktOrder)))
  }

  /** IdChain.ChainValidationState: the cursor, the chain issuer the genesis block pins, and
      the trust roots. */
  class IdValidationState {
    const crypto: Crypto
    const transport: Transport
    const roots: set<string>
    var cursor: Block?
    var issuer: Option<Uri>

    constructor (crypto: Crypto, transport: Transport, roots: set<string>)
      ensures this.crypto == crypto && this.transport == transport && this.roots == roots
      ensures cursor == null && issuer == None
    {
      this.crypto := crypto;
      this.transport := transport;
      this.roots := roots;
      cursor := null;
      issuer := None;
    }

    /** ratchet: antecedent, then signature; the cursor moves to the block only when both hold.
        A trust-root genesis block that is linked and names its issuer always passes. */
    method Ratchet(block: Block, free: set<IdChain>) returns (r: Result<bool>)
      requires cursor != null ==> cursor.Signed()
      modifies this
      decreases free, 2
      ensures cursor != null ==> cursor.Signed()
      ensures r == Returns(true) ==> cursor == block
      ensures r != Returns(true) ==> cursor == old(cursor)
      ensures old(cursor) != null ==> issuer == old(issuer)
      ensures r == Returns(true) && old(cursor) == null ==> issuer == block.Issuer() && issuer.Some?
      ensures r == Returns(true) ==>
                block.Signed() && block.Antecedent() == Intermediate.HashOf(crypto, old(cursor))
                && Vouched(crypto, transport, roots, old(cursor), issuer, block)
      ensures (block.Signed() && block.Antecedent() == Intermediate.HashOf(crypto, old(cursor))
               && (block.Hash(crypto) in roots || RotationVerifies(crypto, transport, old(cursor), block))
               && (old(cursor) == null ==> block.Issuer().Some?)) ==> r == Returns(true)
    {
      var ant := IdValidateAntecedent(block, this);
      if ant != Returns(true) {
        return ant;
      }
      var sig := IdValidateSignature(block, this, free);
      if sig != Returns(true) {
        return sig;
      }
      cursor := block;
      r := Returns(true);
    }
  }

  /** IdBlock.validateAntecedent: with neither ant nor cursor, the block is the genesis block
      and pins the chain issuer to its iss claim (NullPointerException when there is none);
      otherwise ant must be the hash of the cursor. */
  method IdValidateAntecedent(block: Block, cvs: IdValidationState) returns (r: Result<bool>)
    requires cvs.cursor != null ==> cvs.cursor.Signed()
    modifies cvs
    ensures cvs.cursor == old(cvs.cursor)
    ensures r == Returns(true) <==>
              block.Antecedent() == Intermediate.HashOf(cvs.crypto, cvs.cursor) && (cvs.cursor == null ==> block.Issuer().Some?)
    ensures r.Raises? ==> r.err == NullPointer && cvs.cursor == null && block.Antecedent().None?
    ensures cvs.issuer == if r == Returns(true) && cvs.cursor == null then block.Issuer() else old(cvs.issuer)
  {
    if block.Antecedent().None? && cvs.cursor == null {
      if block.Issuer().None? {
        return Raises(NullPointer);
      }
      cvs.issuer := block.Issuer();
      return Returns(true);
    }
    r := Returns(block.Antecedent().Some? && cvs.cursor != null && block.Antecedent().value == cvs.cursor.Hash(cvs.crypto));
  }

  /** IdBlock.validateSignature: a trust-root hash passes. Otherwise, for a genesis block or a
      kid other than the cursor's pkt, the chain issuer's IdChain must validate and contain the
      kid; then the signature must verify under the transport key for the kid. A missing kid
      next to a cursor, a missing issuer chain or a missing key is a NullPointerException. An
      unsigned block cannot be hashed here and raises IllegalStateException. */
  method IdValidateSignature(block: Block, cvs: IdValidationState, free: set<IdChain>) returns (r: Result<bool>)
    requires cvs.cursor != null ==> cvs.cursor.Signed()
    decreases free, 1
    ensures !block.Signed() ==> r == Raises(IllegalState)
    ensures block.Signed() && block.Hash(cvs.crypto) in cvs.roots ==> r == Returns(true)
    ensures r == Returns(true) ==> block.Signed() && Vouched(cvs.crypto, cvs.transport, cvs.roots, cvs.cursor, cvs.issuer, block)
    ensures (block.Signed() && block.Hash(cvs.crypto) !in cvs.roots && !RotatesFrom(cvs.cursor, block)
             && !ViaIssuer(cvs.cursor, block)) ==> r == Raises(NullPointer)
    ensures block.Signed() && block.Hash(cvs.crypto) !in cvs.roots && RotatesFrom(cvs.cursor, block) ==>
              r == if block.Kid().value in cvs.transport.keys
                   then Returns(cvs.crypto.verify(block.serialization.value, cvs.transport.keys[block.Kid().value]))
                   else Raises(NullPointer)
    ensures (block.Signed() && block.Hash(cvs.crypto) !in cvs.roots && ViaIssuer(cvs.cursor, block)
             && (cvs.issuer.None? || cvs.issuer.value !in cvs.transport.chains)) ==> r == Raises(NullPointer)
    ensures (block.Signed() && block.Hash(cvs.crypto) !in cvs.roots && ViaIssuer(cvs.cursor, block)
             && cvs.issuer.Some? && cvs.issuer.value in cvs.transport.chains
             && cvs.transport.chains[cvs.issuer.value] !in free) ==> r == Raises(Cycle)
    ensures r == Returns(true) && block.Signed() && block.Hash(cvs.crypto) !in cvs.roots && ViaIssuer(cvs.cursor, block) ==>
              cvs.issuer.Some? && cvs.issuer.value in cvs.transport.chains
              && cvs.transport.chains[cvs.issuer.value].AllAccepted(cvs.roots)
              && block.Kid().Some? && block.Kid().value in cvs.transport.chains[cvs.issuer.value].pktOrder
    ensures (block.Signed() && block.Hash(cvs.crypto) !in cvs.roots && ViaIssuer(cvs.cursor, block)
             && cvs.issuer.Some? && cvs.issuer.value in cvs.transport.chains
             && var c := cvs.transport.chains[cvs.issuer.value];
                c in free && (forall j :: 0 <= j < |c.blocks| ==> c.ImmediateAt(cvs.roots, j))
                && block.Kid().Some? && block.Kid().value in c.pktOrder) ==>
              r == if block.Kid().value in cvs.transport.keys
                   then Returns(cvs.crypto.verify(block.serialization.value, cvs.transport.keys[block.Kid().value]))
                   else Raises(NullPointer)
  {
    if !block.Signed() {
      return Raises(IllegalState);
    }
    if block.Hash(cvs.crypto) in cvs.roots {
      return Returns(true);
    }
    var pkt := block.Kid();
    var viaIssuer := true;
    if cvs.cursor != null {
      var prev := cvs.cursor.Pkt();
      if pkt.None? || prev.Raises? {
        return Raises(NullPointer);
      }
      viaIssuer := pkt.value != prev.value;
    }
    if viaIssuer {
      if cvs.issuer.None? || cvs.issuer.value !in cvs.transport.chains {
        return Raises(NullPointer);
      }
      var issuerChain := cvs.transport.chains[cvs.issuer.value];
      if issuerChain !in free {
        return Raises(Cycle);
      }
      var valid := issuerChain.Validate(cvs.roots, free);
      if valid.Raises? {
        return Raises(valid.err);
      }
      if !valid.value {
        pkt := None;
      } else {
        var contains := issuerChain.ContainsPkt(pkt);
        if contains.Raises? {
          return Raises(contains.err);
        }
        if !contains.value {
          pkt := None;
        }
      }
    }
    if pkt.None? {
      return Returns(false);
    }
    if pkt.value !in cvs.transport.keys {
      return Raises(NullPointer);
    }
    r := Returns(cvs.crypto.verify(block.serialization.value, cvs.transport.keys[pkt.value]));
  }

  // ---------------------------------------------------------------------------------------
  // AuthChain

  /** AuthBlock.validateAntecedent: ant and cursor both absent, or ant is the cursor's hash. */
  function AuthAntecedent(crypto: Crypto, b: Block, cursor: Block?): (r: bool)
    reads cursor
    requires cursor != null ==> cursor.Signed()
    ensures r <==> b.Antecedent() == Intermediate.HashOf(crypto, cursor)
  {
    if b.Antecedent().None? || cursor == null then b.Antecedent().None? && cursor == null
    else b.Antecedent().value == cursor.Hash(crypto)
  }

  /** The signature verifies under the transport key for the kid, and the issuer's IdChain
      lists the kid. */
  predicate SignatureHolds(crypto: Crypto, transport: Transport, b: Block)
    reads b, transport, transport.chains.Values
  {
    b.Kid().Some? && b.Kid().value in transport.keys && b.Signed()
    && crypto.verify(b.serialization.value, transport.keys[b.Kid().value])
    && b.Issuer().Some? && b.Issuer().value in transport.chains
    && b.Kid().value in transport.chains[b.Issuer().value].pktOrder
  }

  /** AuthBlock.validateSignature: the key is fetched first (NullPointerException when the
      transport has none for the kid), the signature checked (IllegalStateException on an
      unsigned block), and only then the issuer's IdChain looked up (NullPointerException when
      there is none) and asked for the kid. */
  function AuthSignature(crypto: Crypto, transport: Transport, b: Block): (r: Result<bool>)
    reads b, transport, transport.chains.Values
    ensures r == Returns(true) <==> SignatureHolds(crypto, transport, b)
    ensures b.Kid().None? || b.Kid().value !in transport.keys ==> r == Raises(NullPointer)
    ensures b.Kid().Some? && b.Kid().value in transport.keys && !b.Signed() ==> r == Raises(IllegalState)
    ensures r.Raises? && b.Signed() ==> r.err == NullPointer
  {
    if b.Kid().None? || b.Kid().value !in transport.keys then Raises(NullPointer)
    else if !b.Signed() then Raises(IllegalState)
    else if !crypto.verify(b.serialization.value, transport.keys[b.Kid().value]) then Returns(false)
    else if b.Issuer().None? || b.Issuer().value !in transport.chains then Raises(NullPointer)
    else Returns(b.Kid().value in transport.chains[b.Issuer().value].pktOrder)
  }

  /** The issuer's row in the table, None (Java null) when it has none. */
  function Row(table: GrantTable, issuer: Uri): (r: Option<map<string, GrantType>>)
    ensures r.Some? <==> issuer in table
    ensures r.Some? ==> r.value == table[issuer]
  {
    if issuer in table then Some(table[issuer]) else None
  }

  /** The block names its issuer, its grants decode, and the issuer holds each granted
      privilege as VIRAL_GRANT. */
  predicate GrantsAllowed(table: GrantTable, b: Block)
  {
    b.Issuer().Some? && b.Grants().Returns?
    && forall k :: 0 <= k < |b.Grants().value| ==>
         Lookup(table, b.Issuer().value, b.Grants().value[k].privilege) == Some(ViralGrant)
  }

  /** Reading a privilege through the issuer's row is looking it up in the table. */
  lemma RowLookup(table: GrantTable, issuer: Uri)
    ensures forall p :: Viral(Row(table, issuer), p) <==> Lookup(table, issuer, p) == Some(ViralGrant)
    ensures forall p :: (Row(table, issuer).Some? && p in Row(table, issuer).value) <==> Lookup(table, issuer, p).Some?
  {
  }

  /** Some grant names a privilege the issuer holds, but not as VIRAL_GRANT. */
  predicate HeldNotViral(table: GrantTable, issuer: Uri, gs: seq<Grant>)
  {
    exists k :: 0 <= k < |gs| && Lookup(table, issuer, gs[k].privilege).Some?
                && Lookup(table, issuer, gs[k].privilege) != Some(ViralGrant)
  }

  /** AuthBlock.validateGrants: with ant or cursor absent, true exactly when both are. Otherwise
      the issuer's row is read (null when it has none) and each grant's entry dereferenced, so a
      missing row or entry throws NullPointerException once a grant reaches it; an entry that is
      not VIRAL_GRANT answers false. */
  function AuthGrants(b: Block, cursor: Block?, table: GrantTable): (r: Result<bool>)
    ensures b.Antecedent().None? || cursor == null ==> r == Returns(b.Antecedent().None? && cursor == null)
    ensures b.Antecedent().Some? && cursor != null ==> (r == Returns(true) <==> GrantsAllowed(table, b))
    ensures r == Returns(false) && b.Antecedent().Some? && cursor != null ==>
              b.Issuer().Some? && b.Grants().Returns? && HeldNotViral(table, b.Issuer().value, b.Grants().value)
    ensures r.Raises? && b.Grants().Returns? ==> r.err == NullPointer
  {
    if b.Antecedent().None? || cursor == null then Returns(b.Antecedent().None? && cursor == null)
    else if b.Issuer().None? then Raises(NullPointer)
    else
      match b.Grants()
      case Raises(e) => Raises(e)
      case Returns(gs) =>
        RowLookup(table, b.Issuer().value);
        var c := CheckEachGrant(Row(table, b.Issuer().value), gs, NullPointer);
        if c == Ok then Returns(true)
        else if c.err == NullPointer then Raises(NullPointer)
        else Returns(false)
  }

  /** What one ratchet step accepts, from a cursor and a grant table. */
  predicate Admits(crypto: Crypto, transport: Transport, cursor: Block?, table: GrantTable, b: Block)
    reads b, cursor, transport, transport.chains.Values
    requires cursor != null ==> cursor.Signed()
  {
    b.Antecedent() == Intermediate.HashOf(crypto, cursor)
    && SignatureHolds(crypto, transport, b)
    && b.Grants().Returns?
    && (cursor != null ==> GrantsAllowed(table, b))
  }

  /** AuthChain.ChainValidationState: the cursor and _currentGrants. */
  class AuthValidationState {
    const crypto: Crypto
    const transport: Transport
    var cursor: Block?
    var grants: GrantTable

    constructor (crypto: Crypto, transport: Transport)
      ensures this.crypto == crypto && this.transport == transport
      ensures cursor == null && grants == map[]
    {
      this.crypto := crypto;
      this.transport := transport;
      cursor := null;
      grants := map[];
    }

    /** ratchet: antecedent, then signature, then grants; on success each grant is folded in
        (putIfAbsent the grantee's row, put the privilege: last write wins) and the cursor
        moves to the block. On failure neither the cursor nor the table changes. */
    method Ratchet(block: Block) returns (r: Result<bool>)
      requires cursor != null ==> cursor.Signed()
      modifies this
      ensures r == Returns(true) <==> Admits(crypto, transport, old(cursor), old(grants), block)
      ensures r == Returns(true) ==> cursor == block && grants == FoldGrants(old(grants), block.Grants().value)
      ensures r != Returns(true) ==> cursor == old(cursor) && grants == old(grants)
    {
      if !AuthAntecedent(crypto, block, cursor) {
        return Returns(false);
      }
      var sig := AuthSignature(crypto, transport, block);
      if sig != Returns(true) {
        return sig;
      }
      var allowed := AuthGrants(block, cursor, grants);
      if allowed != Returns(true) {
        return allowed;
      }
      var gs := block.Grants();
      if gs.Raises? {
        return Raises(gs.err);
      }
      FoldIn(gs.value);
      cursor := block;
      r := Returns(true);
    }

    /** The loop of ratchet that records each grant: putIfAbsent the grantee's row, then put
        the privilege, so the last grant for an entry wins. */
    method FoldIn(gs: seq<Grant>)
      modifies this
      ensures grants == FoldGrants(old(grants), gs) && cursor == old(cursor)
    {
      var k := 0;
      while k < |gs|
        invariant 0 <= k <= |gs|
        invariant grants == FoldGrants(old(grants), gs[..k]) && cursor == old(cursor)
      {
        var g := gs[k];
        if g.grantee !in grants {
          grants := grants[g.grantee := map[]];
        }
        grants := grants[g.grantee := grants[g.grantee][g.privilege := g.grantType]];
        assert gs[..k + 1][..k] == gs[..k];
        k := k + 1;
      }
      assert gs[..k] == gs;
    }
  }

  /** sdk/AuthChain: a list of blocks appended without validation. */
  class AuthChain {
    const crypto: Crypto
    const transport: Transport
    var blocks: seq<Block>

    constructor (crypto: Crypto, transport: Transport)
      ensures this.crypto == crypto && this.transport == transport && blocks == []
    {
      this.crypto := crypto;
      this.transport := transport;
      blocks := [];
    }

    /** addBlock: append, no validation. */
    method AddBlock(block: Block)
      modifies this
      ensures blocks == old(blocks) + [block]
    {
      blocks := blocks + [block];
    }

    /** hasPrivilege: newest block first, first matching grant decides, REVOKE is false. */
    method HasPrivilege(acct: Option<Uri>, privilege: Option<string>) returns (r: Result<bool>)
      ensures r == Privileges.Holds(Current.GrantListsOf(blocks), acct, privilege)
    {
      r := Current.NewestFirst(blocks, acct, privilege);
    }

    /** Block j passes a ratchet after blocks 0 .. j - 1 have. */
    predicate AcceptedAt(j: nat)
      reads this, blocks, transport, transport.chains.Values
      requires j < |blocks|
    {
      (j > 0 ==> blocks[j - 1].Signed())
      && Admits(crypto, transport, if j == 0 then null else blocks[j - 1], Current.ReplayGrants(blocks[..j]), blocks[j])
    }

    /** validate(genesisBlockHash): IllegalArgumentException for a missing hash,
        IndexOutOfBoundsException on an empty chain, false when the genesis block's hash is
        another; otherwise a fresh state ratchets over every block and the first false is the
        answer. True exactly when the genesis hash is the one given and every block passes. */
    method Validate(genesisHash: Option<string>) returns (r: Result<bool>)
      ensures genesisHash.None? ==> r == Raises(IllegalArgument)
      ensures genesisHash.Some? && blocks == [] ==> r == Raises(IndexOutOfBounds)
      ensures genesisHash.Some? && blocks != [] && blocks[0].Signed() && blocks[0].Hash(crypto) != genesisHash.value ==>
                r == Returns(false)
      ensures r == Returns(true) <==>
                genesisHash.Some? && blocks != [] && blocks[0].Signed() && blocks[0].Hash(crypto) == genesisHash.value
                && forall j :: 0 <= j < |blocks| ==> AcceptedAt(j)
    {
      if genesisHash.None? {
        return Raises(IllegalArgument);
      }
      if blocks == [] {
        return Raises(IndexOutOfBounds);
      }
      if !blocks[0].Signed() {
        return Raises(IllegalState);
      }
      if blocks[0].Hash(crypto) != genesisHash.value {
        return Returns(false);
      }
      r := Replay();
    }

    /** The loop of validate: a fresh state ratchets over the blocks in order. */
    method Replay() returns (r: Result<bool>)
      ensures r == Returns(true) <==> forall j :: 0 <= j < |blocks| ==> AcceptedAt(j)
    {
      var cvs := new AuthValidationState(crypto, transport);
      assert blocks[..0] == [];
      var i := 0;
      while i < |blocks|
        invariant 0 <= i <= |blocks|
        invariant RatchetedTo(cvs, i)
      {
        var ok := Advance(cvs, i);
        if ok != Returns(true) {
          return ok;
        }
        i := i + 1;
      }
      r := Returns(true);
    }

    /** What ratcheting a fresh state over the first i blocks establishes. */
    ghost predicate RatchetedTo(cvs: AuthValidationState, i: nat)
      reads this, blocks, transport, transport.chains.Values, cvs
      requires i <= |blocks|
    {
      cvs.crypto == crypto && cvs.transport == transport
      && cvs.cursor == (if i == 0 then null else blocks[i - 1])
      && (i > 0 ==> blocks[i - 1].Signed())
      && cvs.grants == Current.ReplayGrants(blocks[..i])
      && forall j :: 0 <= j < i ==> AcceptedAt(j)
    }

    /** One iteration of the loop of validate: block i is ratcheted, and it passes exactly when
        it is accepted after its predecessors. */
    method Advance(cvs: AuthValidationState, i: nat) returns (ok: Result<bool>)
      requires i < |blocks| && RatchetedTo(cvs, i)
      modifies cvs
      ensures ok == Returns(true) ==> RatchetedTo(cvs, i + 1)
      ensures ok != Returns(true) ==> !AcceptedAt(i)
    {
      ghost var admitted := Admits(crypto, transport, cvs.cursor, cvs.grants, blocks[i]);
      assert admitted == AcceptedAt(i);
      ok := cvs.Ratchet(blocks[i]);
      if ok == Returns(true) {
        assert blocks[i].Grants().Returns? && Current.GrantsOrNone(blocks[i]) == blocks[i].Grants().value;
        Current.ReplayGrantsStep(blocks, i);
      }
    }
  }
}

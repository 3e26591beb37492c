/** A ROAST signer as the object it is: one nonce pair, replaced by every call. Fresh nonces
    are parameters. */
module RoastSigner {
  import opened PrimeField
  import opened Group
  import opened Party
  import opened Frost

  /** SignRound, with its loops. */
  method ComputeShare(s: Suite, pk: Public, id: ID, secret: nat, nonces: NonceState, signerSet: seq<ID>, preShares: map<ID, PreShare>, message: Bytes)
    returns (sigShare: Option<nat>)
    requires IsPrime(s.q) && s.q > 65535
    requires signerSet != [] && forall id <- signerSet :: id in preShares
    ensures sigShare == SignRound(s, pk, id, secret, nonces, signerSet, preShares, message)
  {
    var factors := ComputeBindingFactors(s, signerSet[0], signerSet, preShares, message);
    var _, aggregateNonce := ComputeNonceCommitments(signerSet, preShares, factors);
    var challenge := Challenge(s, aggregateNonce, pk.groupKey, message);
    var lagrange := Lagrange(s.q, id, signerSet);
    if lagrange.None? {
      return None;
    }
    sigShare := Some(SignResponse(s.q, lagrange.value, secret, challenge, nonces, factors[id]));
  }

  class Signer {
    const suite: Suite
    const id: ID
    const secret: nat
    const pk: Public
    const message: Bytes
    var nonceState: Option<NonceState>

    constructor (suite: Suite, id: ID, secret: nat, pk: Public, message: Bytes)
      ensures this.suite == suite && this.id == id && this.secret == secret && this.pk == pk && this.message == message
      ensures nonceState == None
    {
      this.suite, this.id, this.secret, this.pk, this.message := suite, id, secret, pk, message;
      nonceState := None;
    }

    method Init(next: NonceState) returns (share: PreShare)
      modifies this
      ensures nonceState == Some(next) && share == Commit(next)
    {
      nonceState := Some(next);
      share := Commit(next);
    }

    /** The share uses the nonces held before the call, which are then gone; when there is no
        share the nonces stay. */
    method Sign(signerSet: seq<ID>, preShares: map<ID, PreShare>, next: NonceState) returns (answer: Option<(nat, PreShare)>)
      requires IsPrime(suite.q) && suite.q > 65535
      requires nonceState.Some? && signerSet != [] && forall id <- signerSet :: id in preShares
      modifies this
      ensures
        match SignRound(suite, pk, id, secret, old(nonceState).value, signerSet, preShares, message)
        case None => answer == None && nonceState == old(nonceState)
        case Some(z) => answer == Some((z, Commit(next))) && nonceState == Some(next)
      ensures answer.None? <==> id == 0 || id !in signerSet
    {
      var sigShare := ComputeShare(suite, pk, id, secret, nonceState.value, signerSet, preShares, message);
      if sigShare.None? {
        return None;
      }
      nonceState := Some(next);
      answer := Some((sigShare.value, Commit(next)));
    }
  }
}

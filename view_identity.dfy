/**
 * The identity viewer: after a simulated load it shows a demonstration
 * identity and its credentials, lets the user append a credential and
 * mark the identity verified. Both actions call the contract first and
 * apply their change in a timer callback, from the values captured when
 * the action was taken.
 */
module ViewIdentity {
  import opened Ledger

  datatype Identity = Identity(name: string, email: string, ipfsImageHash: string, isVerified: bool)

  datatype Credential = Credential(credentialType: string, hash: string)

  /** An add whose confirmation timer is set: the list as it was at submit time and the new entry. */
  datatype PendingAdd = PendingAdd(snapshot: seq<Credential>, added: Credential)

  datatype Option<T> = None | Some(value: T)

  /** What the viewer shows: a loading notice, or the profile with a verified badge or a verify button. */
  datatype Screen = LoadingNotice | Profile(identity: Identity, verifyButton: bool)

  const BlankIdentity: Identity := Identity("", "", "", false)

  const DemoIdentity: Identity := Identity("Demo User", "demo@secureidentity.io", "QmHash123", false)

  const DemoCredentials: seq<Credential> :=
    [Credential("National ID", "0x7890..."), Credential("Driving License", "0xabcd...")]

  /** `{...identity, isVerified: true}`: verified, with name, email and image hash kept. */
  function Verified(identity: Identity): (r: Identity)
    ensures r.isVerified
    ensures r.name == identity.name && r.email == identity.email
    ensures r.ipfsImageHash == identity.ipfsImageHash
  {
    identity.(isVerified := true)
  }

  /** Verifying an identity that is already verified gives the same identity, and verifying twice is verifying once. */
  lemma VerifiedIdempotent(identity: Identity)
    ensures identity.isVerified ==> Verified(identity) == identity
    ensures Verified(Verified(identity)) == Verified(identity)
  {
  }

  /** The screen for the current state: the verify button is offered only for an unverified identity. */
  function View(loading: bool, identity: Identity): (s: Screen)
    ensures loading <==> s == LoadingNotice
    ensures s.Profile? ==> s.identity == identity && (s.verifyButton <==> !identity.isVerified)
  {
    if loading then LoadingNotice else Profile(identity, !identity.isVerified)
  }

  /** Once verified, an identity is never offered the verify action again. */
  lemma NoVerifyButtonAfterVerify(identity: Identity)
    ensures View(false, Verified(identity)) == Profile(Verified(identity), false)
  {
  }

  class Viewer {
    var identity: Identity
    var loading: bool
    var credentials: seq<Credential>
    var newCredentialType: string
    var newCredentialHash: string
    var addingCredential: bool
    /** The load timer set on mount has not fired yet. */
    var loadPending: bool
    /** The add whose confirmation timer is set, if any. */
    var pendingAdd: Option<PendingAdd>
    /** Identities captured by verify timers not yet fired, oldest first. */
    var pendingVerifies: seq<Identity>
    /** The calls made on the contract, oldest first. */
    var calls: seq<Call>

    ghost predicate Valid()
      reads this
    {
      && (loading <==> loadPending)
      && (loading ==> identity == BlankIdentity && credentials == [])
      && (loading ==> pendingAdd == None && pendingVerifies == [])
      && (pendingAdd != None <==> addingCredential)
      && (pendingAdd != None ==> pendingAdd.value.snapshot == credentials)
      && (forall k :: 0 <= k < |pendingVerifies| ==> Verified(pendingVerifies[k]) == Verified(identity))
    }

    /** Mounting: blank identity, no credentials, loading, and the load timer set. */
    constructor ()
      ensures Valid()
      ensures identity == BlankIdentity && loading && credentials == []
      ensures newCredentialType == "" && newCredentialHash == "" && !addingCredential
      ensures loadPending && pendingAdd == None && pendingVerifies == [] && calls == []
    {
      identity := BlankIdentity;
      loading := true;
      credentials := [];
      newCredentialType := "";
      newCredentialHash := "";
      addingCredential := false;
      loadPending := true;
      pendingAdd := None;
      pendingVerifies := [];
      calls := [];
    }

    /** The load timer fires: the demonstration identity, unverified, and its two credentials. */
    method CompleteLoad()
      requires Valid() && loadPending
      modifies this
      ensures Valid()
      ensures identity == DemoIdentity && !identity.isVerified
      ensures credentials == DemoCredentials && |credentials| == 2
      ensures credentials[0].credentialType == "National ID" && credentials[1].credentialType == "Driving License"
      ensures !old(identity.isVerified) && old(credentials) <= credentials
      ensures !loading && !loadPending
      ensures newCredentialType == old(newCredentialType) && newCredentialHash == old(newCredentialHash)
      ensures addingCredential == old(addingCredential) && pendingAdd == old(pendingAdd)
      ensures pendingVerifies == old(pendingVerifies) && calls == old(calls)
    {
      identity := DemoIdentity;
      credentials := DemoCredentials;
      loading := false;
      loadPending := false;
    }

    /** Typing into the credential type field. */
    method TypeCredentialType(text: string)
      requires Valid() && !loading
      modifies this`newCredentialType
      ensures Valid() && newCredentialType == text
    {
      newCredentialType := text;
    }

    /** Typing into the credential hash field. */
    method TypeCredentialHash(text: string)
      requires Valid() && !loading
      modifies this`newCredentialHash
      ensures Valid() && newCredentialHash == text
    {
      newCredentialHash := text;
    }

    /**
     * Submitting the add form (shown once loaded, its button disabled while
     * an add is under way). With a field empty nothing happens and the
     * contract is not called. Otherwise the contract is called with the
     * two fields; if its promise rejects the adding flag is cleared,
     * otherwise the confirmation timer is set with the current list and
     * the new entry.
     */
    method AddCredential(outcome: Outcome)
      requires Valid() && !loading && !addingCredential
      modifies this
      ensures Valid()
      ensures identity == old(identity) && credentials == old(credentials) && loading == old(loading)
      ensures newCredentialType == old(newCredentialType) && newCredentialHash == old(newCredentialHash)
      ensures loadPending == old(loadPending) && pendingVerifies == old(pendingVerifies)
      ensures old(newCredentialType) == "" || old(newCredentialHash) == "" ==>
        && calls == old(calls) && addingCredential == old(addingCredential) && pendingAdd == old(pendingAdd)
      ensures old(newCredentialType) != "" && old(newCredentialHash) != "" ==>
        && calls == old(calls) + [Call.AddCredential(old(newCredentialType), old(newCredentialHash))]
        && (outcome == Rejected ==> !addingCredential && pendingAdd == None)
        && (outcome == Resolved ==>
              && addingCredential
              && pendingAdd == Some(PendingAdd(old(credentials), Credential(old(newCredentialType), old(newCredentialHash)))))
    {
      if newCredentialType == "" || newCredentialHash == "" {
        return;
      }
      addingCredential := true;
      calls := calls + [Call.AddCredential(newCredentialType, newCredentialHash)];
      if outcome == Rejected {
        addingCredential := false;
      } else {
        pendingAdd := Some(PendingAdd(credentials, Credential(newCredentialType, newCredentialHash)));
      }
    }

    /**
     * The add confirmation timer fires: the list becomes the submit-time
     * list followed by the new entry, both fields are cleared and the
     * adding flag goes off.
     */
    method CompleteAddCredential()
      requires Valid() && pendingAdd != None
      modifies this
      ensures Valid()
      ensures credentials == old(pendingAdd.value.snapshot) + [old(pendingAdd.value.added)]
      ensures credentials == old(credentials) + [old(pendingAdd.value.added)]
      ensures |credentials| == |old(credentials)| + 1
      ensures newCredentialType == "" && newCredentialHash == "" && !addingCredential && pendingAdd == None
      ensures identity == old(identity) && loading == old(loading) && loadPending == old(loadPending)
      ensures pendingVerifies == old(pendingVerifies) && calls == old(calls)
    {
      var p := pendingAdd.value;
      credentials := p.snapshot + [p.added];
      newCredentialType := "";
      newCredentialHash := "";
      addingCredential := false;
      pendingAdd := None;
    }

    /**
     * Pressing "Verify Identity" (offered only to a loaded, unverified
     * identity). The contract is called; if its promise resolves, a timer
     * is set with the identity as it is now, otherwise nothing changes.
     */
    method Verify(outcome: Outcome)
      requires Valid() && !loading && !identity.isVerified
      modifies this
      ensures Valid()
      ensures identity == old(identity) && credentials == old(credentials) && loading == old(loading)
      ensures newCredentialType == old(newCredentialType) && newCredentialHash == old(newCredentialHash)
      ensures addingCredential == old(addingCredential) && pendingAdd == old(pendingAdd)
      ensures loadPending == old(loadPending)
      ensures calls == old(calls) + [Call.VerifyIdentity]
      ensures outcome == Resolved ==> pendingVerifies == old(pendingVerifies) + [old(identity)]
      ensures outcome == Rejected ==> pendingVerifies == old(pendingVerifies)
    {
      calls := calls + [Call.VerifyIdentity];
      if outcome == Resolved {
        pendingVerifies := pendingVerifies + [identity];
      }
    }

    /**
     * The oldest verify timer fires: the identity becomes the captured one
     * with the verified flag set, which is the current identity verified.
     */
    method CompleteVerify()
      requires Valid() && pendingVerifies != []
      modifies this
      ensures Valid()
      ensures identity == Verified(old(pendingVerifies[0])) && identity == Verified(old(identity))
      ensures identity.isVerified
      ensures identity.name == old(identity.name) && identity.email == old(identity.email)
      ensures identity.ipfsImageHash == old(identity.ipfsImageHash)
      ensures pendingVerifies == old(pendingVerifies[1..])
      ensures credentials == old(credentials) && loading == old(loading) && loadPending == old(loadPending)
      ensures newCredentialType == old(newCredentialType) && newCredentialHash == old(newCredentialHash)
      ensures addingCredential == old(addingCredential) && pendingAdd == old(pendingAdd) && calls == old(calls)
    {
      ghost var before := identity;
      identity := Verified(pendingVerifies[0]);
      pendingVerifies := pendingVerifies[1..];
      VerifiedIdempotent(before);
    }
  }
}

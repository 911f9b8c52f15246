/**
 * The identity creation form: required name and email, a call to the
 * contract with a fixed image hash, and, one timer later, the switch of
 * the application to the "view" tab with an identity on record.
 */
module CreateIdentity {
  import opened Ledger

  datatype Tab = CreateTab | ViewTab

  const RequiredFieldsError: string := "Please fill out all required fields"

  const CreateFailedError: string := "Failed to create identity. Please try again."

  /** The image hash sent in place of an upload. */
  const PlaceholderImageHash: string := "QmXyZ123456789"

  /**
   * The form's own state, with the two application fields it sets through
   * the callbacks it is given (`hasIdentity` and the active tab).
   */
  class Form {
    var name: string
    var email: string
    var loading: bool
    var error: string
    var hasIdentity: bool
    var activeTab: Tab
    /** The confirmation timer of a successful call has not fired yet. */
    var confirmationPending: bool
    /** The calls made on the contract, oldest first. */
    var calls: seq<Call>

    ghost predicate Valid()
      reads this
    {
      && (confirmationPending <==> loading)
      && (confirmationPending ==> error == "" && activeTab == CreateTab)
    }

    /** The form as mounted on the "create" tab: empty fields, no error, not loading. */
    constructor (hasIdentity: bool)
      ensures Valid()
      ensures name == "" && email == "" && !loading && error == ""
      ensures this.hasIdentity == hasIdentity && activeTab == CreateTab
      ensures !confirmationPending && calls == []
    {
      name := "";
      email := "";
      loading := false;
      error := "";
      this.hasIdentity := hasIdentity;
      activeTab := CreateTab;
      confirmationPending := false;
      calls := [];
    }

    /** Typing into the name field. */
    method TypeName(text: string)
      requires Valid() && activeTab == CreateTab
      modifies this`name
      ensures Valid() && name == text
    {
      name := text;
    }

    /** Typing into the email field. */
    method TypeEmail(text: string)
      requires Valid() && activeTab == CreateTab
      modifies this`email
      ensures Valid() && email == text
    {
      email := text;
    }

    /**
     * Submitting the form (its button is disabled while loading). The error
     * is cleared first. With the name or the email empty the validation
     * message is shown and nothing else happens. Otherwise loading starts
     * and the contract is asked to create the identity; a rejection shows
     * the failure message and stops loading, a resolution sets the
     * confirmation timer.
     */
    method Submit(outcome: Outcome)
      requires Valid() && !loading && activeTab == CreateTab
      modifies this
      ensures Valid()
      ensures name == old(name) && email == old(email)
      ensures hasIdentity == old(hasIdentity) && activeTab == old(activeTab)
      ensures old(name) == "" || old(email) == "" ==>
        && error == RequiredFieldsError
        && loading == old(loading) && !confirmationPending && calls == old(calls)
      ensures old(name) != "" && old(email) != "" ==>
        && calls == old(calls) + [Call.CreateIdentity(old(name), old(email), PlaceholderImageHash)]
        && (outcome == Rejected ==> error == CreateFailedError && !loading && !confirmationPending)
        && (outcome == Resolved ==> error == "" && loading && confirmationPending)
    {
      error := "";
      if name == "" || email == "" {
        error := RequiredFieldsError;
        return;
      }
      loading := true;
      var ipfsImageHash := PlaceholderImageHash;
      calls := calls + [Call.CreateIdentity(name, email, ipfsImageHash)];
      if outcome == Rejected {
        error := CreateFailedError;
        loading := false;
      } else {
        confirmationPending := true;
      }
    }

    /**
     * The confirmation timer fires: an identity is on record, the
     * application moves to the "view" tab and loading stops; the error
     * stays empty.
     */
    method CompleteCreate()
      requires Valid() && confirmationPending
      modifies this
      ensures Valid()
      ensures hasIdentity && activeTab == ViewTab && !loading && !confirmationPending
      ensures error == old(error) && error == ""
      ensures name == old(name) && email == old(email) && calls == old(calls)
    {
      hasIdentity := true;
      activeTab := ViewTab;
      loading := false;
      confirmationPending := false;
    }
  }
}

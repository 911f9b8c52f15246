/**
 * The identity contract the components are handed. Nothing about what it
 * computes is modelled: a call is recorded, and whether its promise
 * resolved or rejected is an input to the component step that made it.
 */
module Ledger {

  /** A call a component made on the contract, with its arguments. */
  datatype Call =
    | CreateIdentity(name: string, email: string, ipfsImageHash: string)
    | AddCredential(credentialType: string, credentialHash: string)
    | VerifyIdentity

  /** How the awaited promise of a call settled. */
  datatype Outcome = Resolved | Rejected
}

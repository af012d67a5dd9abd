/** What `crosslink.resolve` hands back to the plugin, taken as given: a
    sequence of items, some of which are identities on one of the services.
    Every `str()` the plugin takes of them is carried as a ready-made string. */
module Resolved {
  import opened Config
  import opened Services

  /** One piece of evidence attached to an identity. A verified account
      records which service verified it and the account it points to. */
  datatype Fragment =
    | VerifiedAccount(verifier: ServiceKind, account: string, text: string)
    | PlainFragment(text: string)

  /** An identity on `service`, with its preferred username (possibly `None`),
      its rendering and its fragments in `get_fragments()` order. */
  datatype Identity = Identity(
    service: ServiceKind,
    preferredUsername: Value,
    text: string,
    fragments: seq<Fragment>)

  /** An item of the resolution result: an identity, or anything else the
      walk produced (an email address, a bare username, ...). */
  datatype ResolvedItem = IdentityItem(identity: Identity) | OtherItem(text: string)
}

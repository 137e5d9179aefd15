// Who asks (crates/acp/src/identity.rs).

module Identities {
  import opened Text

  datatype Identity = Anonymous | Authenticated(did: Bytes)
}

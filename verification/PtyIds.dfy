/**
  PTY ids. A relay allocates ids local to one SSH target; the rest of the program
  sees them wrapped with the connection they belong to. `App` is an id the
  program's parser accepts, `Raw` any other.
 */
module PtyIds {
  import opened Wrappers

  datatype PtyId = Raw(name: string) | App(connection: string, relay: PtyId)

  /** JavaScript's truth of a PTY id that may be null. */
  predicate Truthy(id: Option<PtyId>) {
    id.Some? && id.value != Raw("")
  }

  /** `toRelaySshPtyId`: None is the thrown error. */
  function ToRelay(connection: string, id: PtyId): Option<PtyId> {
    match id
    case Raw(_) => Some(id)
    case App(c, relay) => if c == connection then Some(relay) else None
  }

  /** The comparison form, which swallows the error. */
  function ToRelayForComparison(connection: string, id: PtyId): PtyId {
    var relay := ToRelay(connection, id);
    if relay.Some? then relay.value else id
  }
}

/**
 * What a registered channel carries so that the dispatcher can route its events: the session
 * it belongs to and the side of that session it is.
 */
module ChannelAttachments {

  /** The three kinds of channel the proxy registers besides the listening socket. */
  datatype ChannelRole = Client | Destination | Dns

  /** `ChannelAttachment`: immutable; the session is null for the resolver's channel. */
  datatype ChannelAttachment<S> = ChannelAttachment(socksClient: S, role: ChannelRole) {

    /** `getSocksClient()`: the session given to the constructor. */
    function GetSocksClient(): (s: S)
      ensures ChannelAttachment(s, role) == this
    {
      socksClient
    }

    /** `isClient()`. */
    predicate IsClient()
    {
      role == Client
    }

    /** `isDestination()`. */
    predicate IsDestination()
    {
      role == Destination
    }

    /** `isDNS()`. */
    predicate IsDns()
    {
      role == Dns
    }
  }

  /** Each predicate holds exactly for its role, so exactly one of them holds. */
  lemma RolePredicates<S>(a: ChannelAttachment<S>)
    ensures a.IsClient() <==> a.role == Client
    ensures a.IsDestination() <==> a.role == Destination
    ensures a.IsDns() <==> a.role == Dns
    ensures a.IsClient() || a.IsDestination() || a.IsDns()
    ensures !(a.IsClient() && a.IsDestination()) && !(a.IsClient() && a.IsDns()) && !(a.IsDestination() && a.IsDns())
  {
  }
}

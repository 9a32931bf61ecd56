/** The nine messages of the bus (core/src/JetBlack.MessageBus.Messages). A message is generic in how its
    texts and its sets of entitlements are represented, because what is written (an optional text, a set
    enumerated in some order) is not of the same form as what is read (a text, a set). */
module Messages {
  import opened Options

  newtype byte = x: int | 0 <= x < 256

  type Bytes = seq<byte>

  type Guid = b: seq<byte> | |b| == 16 witness seq(16, _ => 0 as byte)

  datatype Packet<S> = Packet(entitlements: Option<S>, data: Option<Bytes>)

  type Packets<S> = Option<seq<Packet<S>>>

  datatype Message<T, S> =
    | MulticastData(feed: T, topic: T, contentType: T, packets: Packets<S>)
    | UnicastData(clientId: Guid, feed: T, topic: T, contentType: T, packets: Packets<S>)
    | ForwardedSubscriptionRequest(user: T, host: T, clientId: Guid, feed: T, topic: T, isAdd: bool)
    | NotificationRequest(feed: T, isAdd: bool)
    | SubscriptionRequest(feed: T, topic: T, isAdd: bool)
    | AuthorizationRequest(clientId: Guid, host: T, user: T, feed: T, topic: T)
    | AuthorizationResponse(clientId: Guid, feed: T, topic: T, isAuthorizationRequired: bool, entitlements: Option<S>)
    | ForwardedMulticastData(user: T, host: T, feed: T, topic: T, contentType: T, packets: Packets<S>)
    | ForwardedUnicastData(user: T, host: T, clientId: Guid, feed: T, topic: T, contentType: T, packets: Packets<S>)
}

/** Wire messages (src/message/types.rs). */
module Messages {
  import opened Core

  datatype Envelope = Envelope(messageId: Key, originPubkey: Key, txXdr: string, ttl: U8, timestamp: U64,
                               signature: Bytes)

  datatype ProtocolMessage =
    | Transaction(envelope: Envelope)
    | TopologyUpdate(origin: Key, connectedPeers: seq<Key>, hopsToRelay: U8)
    | SyncRequest(knownPrefixes: seq<U32>)
    | SyncResponse(missing: seq<Envelope>)
    | Handshake(pubkey: Key)
}

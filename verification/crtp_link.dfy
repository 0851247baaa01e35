/** The link the stack sends and receives through: the no-op sentinel, or a transport
    (the radio or the USB link) supplied by crtpSetLink. */
module CrtpLink {

  /** A transport as the stack sees it: an identity, and which of the optional
      operations (reset, isConnected) its operation table provides. Its answers to
      sendPacket, receivePacket and isConnected are inputs of the operations that call them. */
  datatype Transport = Transport(id: nat, hasReset: bool, hasIsConnected: bool)

  /** The `link` pointer. The sentinel's table (nopLink) holds nopFunc for setEnable,
      sendPacket and receivePacket, and no reset or isConnected. nopFunc returns
      ENETDOWN, which is non-zero. */
  datatype Link = Sentinel | Active(transport: Transport) {

    predicate HasReset() {
      Active? && transport.hasReset
    }

    predicate HasIsConnected() {
      Active? && transport.hasIsConnected
    }
  }

  /** One call of a link's setEnable; a call on the sentinel reaches nopFunc and does nothing. */
  datatype EnableCall = SetEnable(target: Link, enable: bool)
}

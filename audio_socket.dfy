/** The transport's connection state, as its callbacks report it. The socket
    service itself is not part of this model: its connect and disconnect logic
    is not shown, and `sendAudio` appears only as the chunks the capture
    session hands to it. */
module AudioSocket {

  datatype ConnectionState = Disconnected | Connecting | Connected | Error
}

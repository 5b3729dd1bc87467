/** The connection object of src/Server.js: a `ws` socket on which the handlers
    set `id`, `name`, `user_agent` and `session_id` as own properties. A fresh
    socket has none of them; an absent property is `None`. */
module Sockets {
  import opened Values

  /** The four properties of a socket at one moment, each present or absent. */
  datatype Props = Props(id: Option<string>, name: Option<Blob>, userAgent: Option<Blob>, sessionId: Option<string>)

  const NoProps: Props := Props(None, None, None, None)

  class Socket {
    var id: Option<string>
    var name: Option<Blob>
    var userAgent: Option<Blob>
    var sessionId: Option<string>

    function View(): Props
      reads this
    {
      Props(id, name, userAgent, sessionId)
    }

    /** A socket as the server accepts it: none of the four properties is set. */
    constructor ()
      ensures View() == NoProps
    {
      id, name, userAgent, sessionId := None, None, None, None;
    }
  }
}

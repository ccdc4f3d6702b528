/**
 * The chat connection, as the rest of the agent sees it: `send_message`
 * either returns the bot's final reply text or raises. The remote service
 * is an oracle that answers each request given the requests sent before it.
 */
module Chat {

  /** One `send_message(message, use_chat_code=…, file_path=[…])` call. */
  datatype Request = Request(message: string, useChatCode: bool, attachments: seq<string>)

  /** The reply text, or the text of the exception `send_message` raised. */
  datatype SendOutcome = Reply(text: string) | Failure(error: string)

  /** How the service answers a request, given every request sent before it. */
  type Responder = (seq<Request>, Request) -> SendOutcome

  class Client {
    const respond: Responder
    var sent: seq<Request>

    /** A fresh connection over which nothing has been sent. */
    constructor (respond: Responder)
      ensures this.respond == respond && sent == []
    {
      this.respond := respond;
      sent := [];
    }

    /** `send_message`: the request is sent and the service's answer to it, in view of the history, is returned. */
    method Send(req: Request) returns (outcome: SendOutcome)
      modifies this
      ensures sent == old(sent) + [req]
      ensures outcome == respond(old(sent), req)
    {
      outcome := respond(sent, req);
      sent := sent + [req];
    }
  }
}

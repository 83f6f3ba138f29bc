/**
 * The Vert.x event bus as the sequence of messages published on it. Delivery
 * to consumers is done by the `Pipeline` module, one message at a time.
 */
module Bus {
  import opened Events

  class EventBus {
    /** Every message published so far, oldest first. */
    var log: seq<Message>

    constructor ()
      ensures log == []
    {
      log := [];
    }

    /** `publish(destination, body, options)`: one more message on the log. */
    method Publish(destination: string, body: Body, codecName: string)
      modifies this
      ensures log == old(log) + [Message(destination, body, codecName)]
    {
      log := log + [Message(destination, body, codecName)];
    }
  }
}

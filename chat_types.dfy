/** The values the chat room stores, exchanges with clients and answers requests with. */
module ChatTypes {

  datatype Option<T> = None | Some(value: T)

  /** `user_<time>_<random>` in the source; here an id drawn from the room's counter. */
  type UserId = nat
  /** A push connection, the `res` object of one `events` request. */
  type ClientId = nat
  /** `msg_<time>_<random>` in the source. */
  type MessageId = nat
  /** A reading of the clock (`new Date().toISOString()`). */
  type Time = nat

  /** A value of `activeUsers`. */
  datatype User = User(username: string, joinedAt: Time, lastSeen: Time)

  /** An element of the `messages` history. */
  datatype Message = Message(id: MessageId, username: string, text: string, timestamp: Time, userId: UserId)

  /** An event pushed to clients: the `{ type, payload }` objects the handlers write. */
  datatype Event =
    | UserJoined(username: string, userId: UserId, timestamp: Time)
    | UsersList(usernames: seq<string>)
    | NewMessage(message: Message)
    | Typing(username: string, userId: UserId, isTyping: bool)
    | UserLeft(username: string, userId: UserId, timestamp: Time)

  /** One `client.write` of an event; `delivered` is false when the write threw and the error was caught. */
  datatype Write = Write(to: ClientId, event: Event, delivered: bool)

  /** What a handler answers its HTTP request with. */
  datatype Response =
    | Failed(status: int, error: string)       // res.status(status).json({ error })
    | Joined(userId: UserId, username: string) // 200 { userId, username }
    | Done                                     // 200 { success: true }
    | Streaming(client: ClientId)              // 200 text/event-stream, kept open
    | Crash                                    // the handler threw; the framework answers 500
}

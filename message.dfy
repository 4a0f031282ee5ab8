/** The `message` handler: append a chat message to the bounded history and push it to every client. */
module MessageHandler {
  import opened Js
  import opened ChatTypes
  import opened History
  import opened Broadcast
  import opened RoomStates

  const MethodNotAllowed := Failed(405, "Method not allowed")
  const MessageRequired := Failed(400, "Message is required")
  const InvalidUser := Failed(401, "Invalid user")

  /** The message is rejected with 400: missing/falsy, or nothing left once trimmed. */
  predicate BlankMessage(message: JsValue) {
    !Truthy(message) || (message.Str? && Trim(message.s) == [])
  }

  /** The sender's history entry: the trimmed text under the sender's name and id, stamped `now`. */
  function Posted(s: RoomState, text: string, u: UserId, now: Time): Message
    requires s.users.Has(u)
  {
    Message(s.nextId, s.users.Get(u).username, Trim(text), now, u)
  }

  /**
   * One `message` request with body fields `message` and `userId`, made at time `now`, while the
   * writes to the clients in `broken` throw.
   */
  function MessageStep(s: RoomState, httpMethod: string, message: JsValue, userId: Option<UserId>,
                       now: Time, broken: set<ClientId>): (r: Outcome)
    requires Inv(s)
    ensures Inv(r.room) && Evolves(s, r.room)
    ensures httpMethod != "POST" ==> r == Outcome(s, MethodNotAllowed)
    // the text is checked before the sender: a blank message is a 400 even from an unknown user
    ensures httpMethod == "POST" && BlankMessage(message) ==> r == Outcome(s, MessageRequired)
    ensures httpMethod == "POST" && Truthy(message) && !message.Str? ==> r == Outcome(s, Crash)
    ensures httpMethod == "POST" && message.Str? && Trim(message.s) != [] && !KnownUser(s, userId)
            ==> r == Outcome(s, InvalidUser)
    ensures r.resp == Done <==> httpMethod == "POST" && message.Str? && Trim(message.s) != [] && KnownUser(s, userId)
    ensures r.resp != Done ==> r.room == s
    ensures r.resp == Done ==> r == Deliver(s, message.s, userId.value, now, broken)
  {
    if httpMethod != "POST" then Outcome(s, MethodNotAllowed)
    else if !Truthy(message) then Outcome(s, MessageRequired)
    else if !message.Str? then Outcome(s, Crash)
    else if Trim(message.s) == [] then Outcome(s, MessageRequired)
    else if userId.None? || !s.users.Has(userId.value) then Outcome(s, InvalidUser)
    else Deliver(s, message.s, userId.value, now, broken)
  }

  /** The accepted path of `message`: store the message from user `u` and push it to every client. */
  function Deliver(s: RoomState, text: string, u: UserId, now: Time, broken: set<ClientId>): (r: Outcome)
    requires Inv(s) && s.users.Has(u)
    ensures Inv(r.room) && Evolves(s, r.room)
    ensures r.resp == Done
    ensures var m := Posted(s, text, u, now);
      // only the sender's lastSeen changes
      && r.room.users == Touch(s.users, u, now)
      // the message is appended (dropping the oldest at capacity) and is the newest entry
      && r.room.history == Append(s.history, m)
      && r.room.history[|r.room.history| - 1] == m
      && (forall i :: 0 <= i < |s.history| ==> s.history[i].id != m.id)
      && r.room.clients == s.clients
      // every client, the sender included, is sent the message once
      && r.room.outbox == s.outbox + Fanout(s.clients, NewMessage(m), broken)
  {
    var m := Posted(s, text, u, now);
    var room := s.(users := Touch(s.users, u, now), history := Append(s.history, m), nextId := s.nextId + 1,
                   outbox := s.outbox + Fanout(s.clients, NewMessage(m), broken));
    Outcome(room, Done)
  }
}

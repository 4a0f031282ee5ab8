/** The `typing` handler: push a user's typing flag to every client. */
module TypingHandler {
  import opened Js
  import opened ChatTypes
  import opened Broadcast
  import opened RoomStates

  const MethodNotAllowed := Failed(405, "Method not allowed")
  const InvalidUser := Failed(401, "Invalid user")

  /**
   * One `typing` request with body fields `userId` and `isTyping`, made at time `now`, while the
   * writes to the clients in `broken` throw.
   */
  function TypingStep(s: RoomState, httpMethod: string, userId: Option<UserId>, isTyping: JsValue,
                      now: Time, broken: set<ClientId>): (r: Outcome)
    requires Inv(s)
    ensures Inv(r.room) && Evolves(s, r.room)
    ensures httpMethod != "POST" ==> r == Outcome(s, MethodNotAllowed)
    ensures httpMethod == "POST" && !KnownUser(s, userId) ==> r == Outcome(s, InvalidUser)
    ensures r.resp == Done <==> httpMethod == "POST" && KnownUser(s, userId)
    ensures r.resp != Done ==> r.room == s
    ensures r.resp == Done ==> r == Notify(s, userId.value, isTyping, now, broken)
  {
    if httpMethod != "POST" then Outcome(s, MethodNotAllowed)
    else if userId.None? || !s.users.Has(userId.value) then Outcome(s, InvalidUser)
    else Notify(s, userId.value, isTyping, now, broken)
  }

  /** The accepted path of `typing`: refresh user `u` and push their flag to every client. */
  function Notify(s: RoomState, u: UserId, isTyping: JsValue, now: Time, broken: set<ClientId>): (r: Outcome)
    requires Inv(s) && s.users.Has(u)
    ensures Inv(r.room) && Evolves(s, r.room)
    ensures r.resp == Done
    // only the sender's lastSeen changes; the history, the clients and the id counter stay as they were
    ensures r.room.users == Touch(s.users, u, now)
    ensures r.room.history == s.history && r.room.clients == s.clients && r.room.nextId == s.nextId
    // every client, the sender included, gets the flag as a boolean: the truthiness of the input
    ensures r.room.outbox == s.outbox + Fanout(s.clients, Typing(s.users.Get(u).username, u, Truthy(isTyping)), broken)
  {
    var e := Typing(s.users.Get(u).username, u, Truthy(isTyping));
    Outcome(s.(users := Touch(s.users, u, now), outbox := s.outbox + Fanout(s.clients, e, broken)), Done)
  }
}

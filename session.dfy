/**
 * The room over time: requests handled one at a time, each atomically, and what holds of every
 * state reached that way.
 */
module Sessions {
  import opened Js
  import opened ChatTypes
  import opened RoomStates
  import opened JoinHandler
  import opened MessageHandler
  import opened TypingHandler
  import opened EventsHandler

  /** Something that reaches the room: a request to one of the four routes, or a close event. */
  datatype Request =
    | JoinRequest(httpMethod: string, username: JsValue)
    | MessageRequest(httpMethod: string, message: JsValue, userId: Option<UserId>)
    | TypingRequest(httpMethod: string, userId: Option<UserId>, isTyping: JsValue)
    | EventsRequest(userId: Option<UserId>)
    | Close(res: ClientId, owner: UserId)    // `req` close or end, or `res` close, of a push connection

  /** A request, the clock reading it sees, and the clients whose writes throw while it runs. */
  datatype Call = Call(request: Request, now: Time, broken: set<ClientId>)

  /** The state after handling one call. */
  function Apply(s: RoomState, c: Call): (r: RoomState)
    requires Inv(s)
    ensures Inv(r) && Evolves(s, r)
  {
    match c.request
    case JoinRequest(m, name) => JoinStep(s, m, name, c.now, c.broken).room
    case MessageRequest(m, text, u) => MessageStep(s, m, text, u, c.now, c.broken).room
    case TypingRequest(m, u, flag) => TypingStep(s, m, u, flag, c.now, c.broken).room
    case EventsRequest(u) => ConnectStep(s, u, c.now, c.broken).room
    case Close(res, u) => CleanupStep(s, res, u, c.now, c.broken)
  }

  /** The state after handling the calls one after the other. */
  function Run(s: RoomState, calls: seq<Call>): (r: RoomState)
    requires Inv(s)
    ensures Inv(r) && Evolves(s, r)
    decreases |calls|
  {
    if calls == [] then s
    else
      var s' := Apply(s, calls[0]);
      var r := Run(s', calls[1..]);
      EvolvesTransitive(s, s', r);
      r
  }

  lemma EvolvesTransitive(s1: RoomState, s2: RoomState, s3: RoomState)
    requires Evolves(s1, s2) && Evolves(s2, s3)
    ensures Evolves(s1, s3)
  {
    assert s3.outbox[..|s1.outbox|] == s3.outbox[..|s2.outbox|][..|s1.outbox|];
  }

  /** A user id or client id that has been removed stays removed, whatever is handled afterwards. */
  lemma RemovedStaysRemoved(s: RoomState, calls: seq<Call>, u: UserId, c: ClientId)
    requires Inv(s)
    ensures Departed(s, u) ==> Departed(Run(s, calls), u)
    ensures Disconnected(s, c) ==> Disconnected(Run(s, calls), c)
  {
  }

  /**
   * `cleanup` is registered on three close events of one connection and runs on each of them, with
   * any other requests handled in between: only the first one removes the user and writes to
   * clients; every later one leaves the state exactly as it finds it.
   */
  lemma CleanupTakesEffectOnce(s: RoomState, res: ClientId, userId: UserId, calls: seq<Call>,
                               now: Time, broken: set<ClientId>, now': Time, broken': set<ClientId>)
    requires Inv(s) && res < s.nextId && userId < s.nextId
    ensures var first := CleanupStep(s, res, userId, now, broken);
            var later := Run(first, calls);
            CleanupStep(later, res, userId, now', broken') == later
  {
    var first := CleanupStep(s, res, userId, now, broken);
    RemovedStaysRemoved(first, calls, userId, res);
  }
}

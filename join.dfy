/** The `join` handler: register a user under a fresh id and announce them to every push client. */
module JoinHandler {
  import opened Js
  import opened ChatTypes
  import opened Broadcast
  import opened RoomStates

  /** The rejections of `join`, in the order the handler tests them. */
  const MethodNotAllowed := Failed(405, "Method not allowed")
  const UsernameRequired := Failed(400, "Username is required")

  /** The username is rejected with 400: missing/falsy, or nothing left once trimmed. */
  predicate BlankUsername(username: JsValue) {
    !Truthy(username) || (username.Str? && Trim(username.s) == [])
  }

  /**
   * One `join` request with body field `username`, made at time `now`, while the writes to the
   * clients in `broken` throw.
   */
  function JoinStep(s: RoomState, httpMethod: string, username: JsValue, now: Time, broken: set<ClientId>): (r: Outcome)
    requires Inv(s)
    ensures Inv(r.room) && Evolves(s, r.room)
    // a request that is not a POST is refused, and nothing changes
    ensures httpMethod != "POST" ==> r == Outcome(s, MethodNotAllowed)
    // a missing or blank username is refused, whatever else holds, and nothing changes
    ensures httpMethod == "POST" && BlankUsername(username) ==> r == Outcome(s, UsernameRequired)
    // a username that is neither falsy nor a string makes `trim` throw before anything changes
    ensures httpMethod == "POST" && Truthy(username) && !username.Str? ==> r == Outcome(s, Crash)
    // otherwise the join succeeds, and registers the trimmed name
    ensures r.resp.Joined? <==> httpMethod == "POST" && username.Str? && Trim(username.s) != []
    ensures !r.resp.Joined? ==> r.room == s
    ensures r.resp.Joined? ==> r == Register(s, Trim(username.s), now, broken)
  {
    if httpMethod != "POST" then Outcome(s, MethodNotAllowed)
    else if !Truthy(username) then Outcome(s, UsernameRequired)
    else if !username.Str? then Outcome(s, Crash)
    else if Trim(username.s) == [] then Outcome(s, UsernameRequired)
    else Register(s, Trim(username.s), now, broken)
  }

  /** The accepted path of `join`: store the user under a fresh id and announce them. */
  function Register(s: RoomState, name: string, now: Time, broken: set<ClientId>): (r: Outcome)
    requires Inv(s)
    ensures Inv(r.room) && Evolves(s, r.room)
    ensures r.resp.Joined?
    ensures var id := r.resp.userId;
      // the response carries the id and the name, and that is what was stored
      && r.resp.username == name
      && id !in s.users.entries
      && r.room.users.entries == s.users.entries[id := User(name, now, now)]
      && r.room.users.keys == s.users.keys + [id]
      && r.room.users.entries[id].joinedAt == r.room.users.entries[id].lastSeen
      && r.room.history == s.history && r.room.clients == s.clients
      // every client is told `userJoined`, then every client gets the list with the new user last
      && r.room.outbox == s.outbox + Fanout(s.clients, UserJoined(name, id, now), broken)
                                   + Fanout(s.clients, UsersList(Usernames(s.users) + [name]), broken)
  {
    var id := s.nextId;
    var users := s.users.Set(id, User(name, now, now));
    UsernamesAfterAdd(s.users, id, User(name, now, now));
    var added := Fanout(s.clients, UserJoined(name, id, now), broken)
               + Fanout(s.clients, UsersList(Usernames(users)), broken);
    AddUserKeepsInv(s, User(name, now, now), added);
    Outcome(s.(users := users, nextId := s.nextId + 1, outbox := s.outbox + added), Joined(id, name))
  }

  /**
   * The writes a successful join adds: each client gets `userJoined` and then `usersList`, and the
   * list has grown by one.
   */
  lemma RegisterWritesEachClientTwice(s: RoomState, name: string, now: Time, broken: set<ClientId>)
    requires Inv(s)
    ensures var r := Register(s, name, now, broken);
            var added := r.room.outbox[|s.outbox|..];
            && |added| == 2 * |s.clients|
            && (forall k :: 0 <= k < |s.clients| ==>
                  && added[k] == WriteTo(s.clients[k], UserJoined(name, r.resp.userId, now), broken)
                  && added[|s.clients| + k] == WriteTo(s.clients[k], UsersList(Usernames(r.room.users)), broken))
            && |Usernames(r.room.users)| == |Usernames(s.users)| + 1
  {
    var r := Register(s, name, now, broken);
    var e1 := UserJoined(name, r.resp.userId, now);
    var e2 := UsersList(Usernames(s.users) + [name]);
    UsernamesAfterAdd(s.users, r.resp.userId, User(name, now, now));
    assert r.room.outbox[|s.outbox|..] == Fanout(s.clients, e1, broken) + Fanout(s.clients, e2, broken);
    SuccessiveBroadcasts(s.clients, e1, e2, broken);
  }

  /** In the writes of a successful join every `userJoined` precedes every `usersList`. */
  lemma RegisterAnnouncesBeforeListing(s: RoomState, name: string, now: Time, broken: set<ClientId>)
    requires Inv(s)
    ensures var r := Register(s, name, now, broken);
            var added := r.room.outbox[|s.outbox|..];
            forall i, j ::
              (0 <= i < |added| && 0 <= j < |added| && added[i].event.UserJoined? && added[j].event.UsersList?)
              ==> i < j
  {
    var r := Register(s, name, now, broken);
    var e1 := UserJoined(name, r.resp.userId, now);
    var e2 := UsersList(Usernames(s.users) + [name]);
    var added := r.room.outbox[|s.outbox|..];
    var both := Fanout(s.clients, e1, broken) + Fanout(s.clients, e2, broken);
    assert r.room.outbox == s.outbox + both;
    assert added == both;
    ListComesLast(both, s.clients, e1, e2, broken);
    forall i, j | 0 <= i < |added| && 0 <= j < |added| && added[i].event.UserJoined? && added[j].event.UsersList?
      ensures i < j
    {
      assert !both[i].event.UsersList? && both[j].event.UsersList?;
    }
  }
}

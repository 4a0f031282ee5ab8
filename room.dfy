/**
 * The shared chat room as the server holds it: the module-level `activeUsers` and `messages` of
 * join.js and the `global.sseClients` of events.js, changed in place by the four handlers.
 */
module ChatRoom {
  import opened Js
  import opened Seqs
  import opened OrderedSets
  import opened ChatTypes
  import opened History
  import opened Broadcast
  import opened RoomStates
  import J = JoinHandler
  import M = MessageHandler
  import T = TypingHandler
  import E = EventsHandler

  class Room {
    var users: Users             // activeUsers
    var history: seq<Message>    // messages
    var clients: seq<ClientId>   // global.sseClients
    var outbox: seq<Write>       // every client.write made so far
    var nextId: nat              // source of fresh user, message and client ids

    /** The room's state as a value. */
    function State(): RoomState
      reads this
    {
      RoomState(users, history, clients, outbox, nextId)
    }

    ghost predicate Valid()
      reads this
    {
      Inv(State())
    }

    /** The room at server start. */
    constructor ()
      ensures Valid() && State() == Initial()
    {
      users, history, clients, outbox, nextId := OrderedMaps.Empty(), [], [], [], 0;
    }

    /** `broadcastEvent(e)`: write `e` to every client in turn; a write that throws is caught and the loop goes on. */
    method BroadcastEvent(e: Event, broken: set<ClientId>)
      modifies this`outbox
      ensures outbox == old(outbox) + Fanout(clients, e, broken)
    {
      var all := clients;
      var i := 0;
      while i < |all|
        invariant 0 <= i <= |all|
        invariant outbox == old(outbox) + Fanout(all[..i], e, broken)
      {
        var client := all[i];
        var delivered := client !in broken;
        outbox := outbox + [Write(client, e, delivered)];
        FanoutSnoc(all[..i], client, e, broken);
        assert all[..i + 1] == all[..i] + [client];
        i := i + 1;
      }
      assert all[..|all|] == all;
    }

    /** `broadcastUsersList()`: broadcast the usernames of `activeUsers` in insertion order. */
    method BroadcastUsersList(broken: set<ClientId>)
      requires users.Valid()
      modifies this`outbox
      ensures outbox == old(outbox) + Fanout(clients, UsersList(Usernames(users)), broken)
    {
      BroadcastEvent(UsersList(Usernames(users)), broken);
    }

    /** The `join` handler. */
    method Join(httpMethod: string, username: JsValue, now: Time, broken: set<ClientId>) returns (resp: Response)
      requires Valid()
      modifies this
      ensures Outcome(State(), resp) == J.JoinStep(old(State()), httpMethod, username, now, broken)
      ensures Valid()
    {
      if httpMethod != "POST" {
        return J.MethodNotAllowed;
      }
      if !Truthy(username) {
        return J.UsernameRequired;
      }
      if !username.Str? {
        return Crash;  // `username.trim` is not a function
      }
      var name := Trim(username.s);
      if |name| == 0 {
        return J.UsernameRequired;
      }
      ghost var s0 := State();
      var userId := RegisterUser(name, now, broken);
      resp := Joined(userId, name);
      assert Outcome(State(), resp) == J.Register(s0, name, now, broken);
    }

    /** The accepted path of the `join` handler: store the user under a fresh id and announce them. */
    method RegisterUser(name: string, now: Time, broken: set<ClientId>) returns (userId: UserId)
      requires users.Valid()
      modifies this`users, this`nextId, this`outbox
      ensures userId == old(nextId) && nextId == old(nextId) + 1
      ensures users == old(users).Set(userId, User(name, now, now))
      ensures outbox == old(outbox) + Fanout(clients, UserJoined(name, userId, now), broken)
                                    + Fanout(clients, UsersList(Usernames(users)), broken)
    {
      userId := nextId;
      nextId := nextId + 1;
      users := users.Set(userId, User(name, now, now));
      BroadcastEvent(UserJoined(name, userId, now), broken);
      BroadcastUsersList(broken);
    }

    /** The `message` handler. */
    method PostMessage(httpMethod: string, message: JsValue, userId: Option<UserId>, now: Time, broken: set<ClientId>)
      returns (resp: Response)
      requires Valid()
      modifies this
      ensures Outcome(State(), resp) == M.MessageStep(old(State()), httpMethod, message, userId, now, broken)
      ensures Valid()
    {
      if httpMethod != "POST" {
        return M.MethodNotAllowed;
      }
      if !Truthy(message) {
        return M.MessageRequired;
      }
      if !message.Str? {
        return Crash;  // `message.trim` is not a function
      }
      var text := Trim(message.s);
      if |text| == 0 {
        return M.MessageRequired;
      }
      if userId.None? || !users.Has(userId.value) {
        return M.InvalidUser;
      }
      ghost var s0 := State();
      Publish(message.s, userId.value, now, broken);
      resp := Done;
      assert Outcome(State(), resp) == M.Deliver(s0, message.s, userId.value, now, broken);
    }

    /** The accepted path of the `message` handler: store the message of user `u` and push it to every client. */
    method Publish(text: string, u: UserId, now: Time, broken: set<ClientId>)
      requires users.Valid() && users.Has(u)
      modifies this`users, this`history, this`nextId, this`outbox
      ensures var m := Message(old(nextId), old(users).Get(u).username, Trim(text), now, u);
              && users == Touch(old(users), u, now)
              && history == Append(old(history), m)
              && nextId == old(nextId) + 1
              && outbox == old(outbox) + Fanout(clients, NewMessage(m), broken)
    {
      var m := Message(nextId, users.Get(u).username, Trim(text), now, u);
      var h := history + [m];
      if |h| > MaxHistory {
        h := h[1..];  // messages.shift()
      }
      users, history, nextId := Touch(users, u, now), h, nextId + 1;
      BroadcastEvent(NewMessage(m), broken);
    }

    /** The `typing` handler. */
    method SetTyping(httpMethod: string, userId: Option<UserId>, isTyping: JsValue, now: Time, broken: set<ClientId>)
      returns (resp: Response)
      requires Valid()
      modifies this
      ensures Outcome(State(), resp) == T.TypingStep(old(State()), httpMethod, userId, isTyping, now, broken)
      ensures Valid()
    {
      if httpMethod != "POST" {
        return T.MethodNotAllowed;
      }
      if userId.None? || !users.Has(userId.value) {
        return T.InvalidUser;
      }
      ghost var s0 := State();
      AnnounceTyping(userId.value, Truthy(isTyping), now, broken);
      resp := Done;
      assert Outcome(State(), resp) == T.Notify(s0, userId.value, isTyping, now, broken);
    }

    /** The accepted path of the `typing` handler: refresh user `u` and push the flag to every client. */
    method AnnounceTyping(u: UserId, typing: bool, now: Time, broken: set<ClientId>)
      requires users.Valid() && users.Has(u)
      modifies this`users, this`outbox
      ensures users == Touch(old(users), u, now)
      ensures outbox == old(outbox) + Fanout(clients, Typing(old(users).Get(u).username, u, typing), broken)
    {
      users := Touch(users, u, now);
      BroadcastEvent(Typing(users.Get(u).username, u, typing), broken);
    }

    /** The `events` handler: on success the response is the open stream of the new client. */
    method Connect(userId: Option<UserId>, now: Time, broken: set<ClientId>) returns (resp: Response)
      requires Valid()
      modifies this
      ensures Outcome(State(), resp) == E.ConnectStep(old(State()), userId, now, broken)
      ensures Valid()
    {
      if userId.None? || !users.Has(userId.value) {
        return E.InvalidUser;
      }
      ghost var s0 := State();
      var res := Subscribe(userId.value, now, broken);
      resp := Streaming(res);
      assert Outcome(State(), resp) == E.Open(s0, userId.value, now, broken);
    }

    /** The accepted path of the `events` handler: add a client under a fresh id and tell every client the list. */
    method Subscribe(u: UserId, now: Time, broken: set<ClientId>) returns (res: ClientId)
      requires users.Valid() && users.Has(u)
      modifies this`nextId, this`clients, this`outbox, this`users
      ensures res == old(nextId) && nextId == old(nextId) + 1
      ensures clients == Add(old(clients), res)
      ensures outbox == old(outbox) + Fanout(clients, UsersList(Usernames(old(users))), broken)
      ensures users == Touch(old(users), u, now)
    {
      res := nextId;
      nextId := nextId + 1;
      clients := Add(clients, res);
      BroadcastUsersList(broken);
      if users.Has(u) {  // `if (user)`
        users := Touch(users, u, now);
      }
    }

    /** The `cleanup` closure of the connection `res` of user `userId`. */
    method Cleanup(res: ClientId, userId: UserId, now: Time, broken: set<ClientId>)
      requires Valid()
      modifies this
      ensures State() == E.CleanupStep(old(State()), res, userId, now, broken)
      ensures Valid()
    {
      ghost var s0 := State();
      clients := Delete(clients, res);
      if users.Has(userId) {
        Depart(s0, res, userId, now, broken);
      }
    }

    /** The rest of `cleanup` once the client `res` is gone from `s0`'s clients, when the user is still registered. */
    method Depart(ghost s0: RoomState, res: ClientId, userId: UserId, now: Time, broken: set<ClientId>)
      requires s0.users.Valid() && s0.users.Has(userId)
      requires users == s0.users && clients == Delete(s0.clients, res)
      modifies this`users, this`outbox
      ensures users == s0.users.Delete(userId)
      ensures outbox == old(outbox) + E.LeaveWrites(s0, res, userId, now, broken)
    {
      var user := users.Get(userId);
      users := users.Delete(userId);
      if clients != [] {  // `sseClients.size > 0`
        var e := UserLeft(user.username, userId, now);
        ghost var before := outbox;
        BroadcastExcept(res, e, broken);
        BroadcastUsersList(broken);
        AppendAssoc(before, FanoutExcept(clients, res, e, broken), Fanout(clients, UsersList(Usernames(users)), broken));
      } else {
        assert outbox + [] == outbox;
      }
    }

    /** The `userLeft` loop of `cleanup`: write `e` to every client but `res`, each write under its own try/catch. */
    method BroadcastExcept(res: ClientId, e: Event, broken: set<ClientId>)
      modifies this`outbox
      ensures outbox == old(outbox) + FanoutExcept(clients, res, e, broken)
    {
      var all := clients;
      var i := 0;
      while i < |all|
        invariant 0 <= i <= |all|
        invariant outbox == old(outbox) + FanoutExcept(all[..i], res, e, broken)
      {
        var client := all[i];
        if client != res {
          outbox := outbox + [Write(client, e, client !in broken)];
        }
        FanoutExceptSnoc(all[..i], client, res, e, broken);
        assert all[..i + 1] == all[..i] + [client];
        i := i + 1;
      }
      assert all[..|all|] == all;
    }
  }
}

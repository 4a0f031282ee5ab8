/**
 * The `events` handler: open a push connection for a known user, and the `cleanup` that runs when
 * the connection closes (and is registered on three close events).
 */
module EventsHandler {
  import opened Seqs
  import opened OrderedSets
  import opened ChatTypes
  import opened Broadcast
  import opened RoomStates

  const InvalidUser := Failed(401, "Invalid user")

  /**
   * One `events` request with query field `userId`, made at time `now`, while the writes to the
   * clients in `broken` throw. The handler takes any HTTP method. On success the response is the
   * open stream, named by the new client's id.
   */
  function ConnectStep(s: RoomState, userId: Option<UserId>, now: Time, broken: set<ClientId>): (r: Outcome)
    requires Inv(s)
    ensures Inv(r.room) && Evolves(s, r.room)
    ensures !KnownUser(s, userId) ==> r == Outcome(s, InvalidUser)
    ensures r.resp.Streaming? <==> KnownUser(s, userId)
    ensures r.resp.Streaming? ==> r == Open(s, userId.value, now, broken)
  {
    if userId.None? || !s.users.Has(userId.value) then Outcome(s, InvalidUser)
    else Open(s, userId.value, now, broken)
  }

  /** The accepted path of `events` for the known user `u`: a new client, told the current list. */
  function Open(s: RoomState, u: UserId, now: Time, broken: set<ClientId>): (r: Outcome)
    requires Inv(s) && s.users.Has(u)
    ensures Inv(r.room) && Evolves(s, r.room)
    ensures r.resp.Streaming?
    ensures var c := r.resp.client;
      // a new client joins the set, at the end
      && c !in s.clients
      && r.room.clients == s.clients + [c]
      // every client, the new one included, is sent the current list of usernames
      && r.room.outbox == s.outbox + Fanout(s.clients + [c], UsersList(Usernames(s.users)), broken)
      // the user's lastSeen is updated, nothing else about the users changes
      && r.room.users == Touch(s.users, u, now)
      && r.room.history == s.history
  {
    var c := s.nextId;
    var clients := Add(s.clients, c);
    var outbox := s.outbox + Fanout(clients, UsersList(Usernames(s.users)), broken);
    // `if (user)` after `activeUsers.get(userId)`: the user was found above, so this always holds
    var users := if s.users.Has(u) then Touch(s.users, u, now) else s.users;
    Outcome(s.(clients := clients, outbox := outbox, users := users, nextId := s.nextId + 1), Streaming(c))
  }

  /**
   * `cleanup` for the connection `res` of user `userId` at time `now`, while the writes to the
   * clients in `broken` throw: the client always leaves the set, and the user, if still
   * registered, is evicted.
   */
  function CleanupStep(s: RoomState, res: ClientId, userId: UserId, now: Time, broken: set<ClientId>): (r: RoomState)
    requires Inv(s)
    ensures Inv(r) && Evolves(s, r)
    ensures r.clients == Delete(s.clients, res) && res !in r.clients
    ensures !r.users.Has(userId)
    ensures r.history == s.history && r.nextId == s.nextId
    // a user already gone: the client is deleted again and nothing is written
    ensures !s.users.Has(userId) ==> r == s.(clients := Delete(s.clients, res))
    ensures s.users.Has(userId) ==> r == Evict(s, res, userId, now, broken)
  {
    if !s.users.Has(userId) then
      RemovalKeepsInv(s, res, s.users, []);
      assert s.outbox + [] == s.outbox;
      s.(clients := Delete(s.clients, res))
    else
      Evict(s, res, userId, now, broken)
  }

  /**
   * The part of `cleanup` for a user still registered: the user leaves the table, and the
   * remaining clients are sent `LeaveWrites`.
   */
  function Evict(s: RoomState, res: ClientId, userId: UserId, now: Time, broken: set<ClientId>): (r: RoomState)
    requires Inv(s) && s.users.Has(userId)
    ensures Inv(r) && Evolves(s, r)
    ensures r.clients == Delete(s.clients, res)
    ensures r.users == s.users.Delete(userId)
    ensures r.history == s.history && r.nextId == s.nextId
    ensures r.outbox == s.outbox + LeaveWrites(s, res, userId, now, broken)
  {
    var clients := Delete(s.clients, res);
    var users := s.users.Delete(userId);
    var added := LeaveWrites(s, res, userId, now, broken);
    RemovalKeepsInv(s, res, users, added);
    s.(clients := clients, users := users, outbox := s.outbox + added)
  }

  /**
   * The writes of the first `cleanup` of a registered user: nothing when no client remains
   * (`sseClients.size > 0` fails), otherwise `userLeft` to every client but the closing one, then
   * the list of the remaining usernames to every client.
   */
  function LeaveWrites(s: RoomState, res: ClientId, userId: UserId, now: Time, broken: set<ClientId>): seq<Write>
    requires s.users.Valid() && s.users.Has(userId)
  {
    var clients := Delete(s.clients, res);
    if clients == [] then []
    else
      var left := UserLeft(s.users.Get(userId).username, userId, now);
      FanoutExcept(clients, res, left, broken) + Fanout(clients, UsersList(Usernames(s.users.Delete(userId))), broken)
  }

  /**
   * The `userLeft` loop and the list broadcast of `cleanup` reach the remaining clients alike:
   * `userLeft` and then `usersList` to each of them, so two writes per remaining client, and none
   * to the closing client.
   */
  lemma EvictSkipsClosingClient(s: RoomState, res: ClientId, userId: UserId, now: Time, broken: set<ClientId>)
    requires s.users.Valid() && s.users.Has(userId)
    ensures var added, clients := LeaveWrites(s, res, userId, now, broken), Delete(s.clients, res);
            && |added| == 2 * |clients|
            && (clients != [] ==>
                  added == Fanout(clients, UserLeft(s.users.Get(userId).username, userId, now), broken)
                           + Fanout(clients, UsersList(Usernames(s.users.Delete(userId))), broken))
            && (forall i :: 0 <= i < |added| ==> added[i].to != res)
  {
    var clients := Delete(s.clients, res);
    if clients != [] {
      var left := UserLeft(s.users.Get(userId).username, userId, now);
      FanoutExceptIsFanoutOfRest(clients, res, left, broken);
      SuccessiveBroadcasts(clients, left, UsersList(Usernames(s.users.Delete(userId))), broken);
    }
  }

  /** In the writes of the first `cleanup` of a registered user every `userLeft` precedes every `usersList`. */
  lemma EvictAnnouncesBeforeListing(s: RoomState, res: ClientId, userId: UserId, now: Time, broken: set<ClientId>)
    requires s.users.Valid() && s.users.Has(userId)
    ensures var added := LeaveWrites(s, res, userId, now, broken);
            forall i, j ::
              (0 <= i < |added| && 0 <= j < |added| && added[i].event.UserLeft? && added[j].event.UsersList?)
              ==> i < j
  {
    var clients := Delete(s.clients, res);
    if clients != [] {
      var left := UserLeft(s.users.Get(userId).username, userId, now);
      FanoutExceptIsFanoutOfRest(clients, res, left, broken);
      ListComesLast(LeaveWrites(s, res, userId, now, broken), clients, left,
                    UsersList(Usernames(s.users.Delete(userId))), broken);
    }
  }

  /** The first `cleanup` of a registered user takes exactly that user out of the `usersList` payload. */
  lemma EvictShrinksList(s: RoomState, res: ClientId, userId: UserId, now: Time, broken: set<ClientId>)
    requires Inv(s) && s.users.Has(userId)
    ensures var r := Evict(s, res, userId, now, broken);
            exists k :: 0 <= k < |s.users.keys| && s.users.keys[k] == userId
                        && Usernames(r.users) == Usernames(s.users)[..k] + Usernames(s.users)[k + 1..]
  {
    var k :| 0 <= k < |s.users.keys| && s.users.keys[k] == userId;
    UsernamesAfterDelete(s.users, k);
  }

  /** `cleanup` is idempotent: running it again for the same connection changes nothing more. */
  lemma CleanupIdempotent(s: RoomState, res: ClientId, userId: UserId, now: Time, now': Time,
                          broken: set<ClientId>, broken': set<ClientId>)
    requires Inv(s)
    ensures var once := CleanupStep(s, res, userId, now, broken);
            CleanupStep(once, res, userId, now', broken') == once
  {
    var once := CleanupStep(s, res, userId, now, broken);
    AddDeleteIdempotent(s.clients, res);
  }
}

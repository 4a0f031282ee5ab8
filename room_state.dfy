/**
 * The room's shared state as a value: the three module-level stores the handlers share, the log
 * of every write made to a push client, and the counter fresh ids are drawn from.
 */
module RoomStates {
  import opened Seqs
  import opened OrderedMaps
  import opened ChatTypes
  import opened History
  import opened Broadcast
  import opened OrderedSets

  datatype RoomState = RoomState(
    users: Users,            // activeUsers (join.js)
    history: seq<Message>,   // messages (join.js), oldest first
    clients: seq<ClientId>,  // global.sseClients (events.js), in insertion order
    outbox: seq<Write>,      // every client.write so far, in the order it was made
    nextId: nat              // ids below nextId have been handed out
  )

  /** What a handler leaves behind: the new state and the answer to its request. */
  datatype Outcome = Outcome(room: RoomState, resp: Response)

  /** The state invariant every handler keeps. */
  ghost predicate Inv(s: RoomState) {
    && s.users.Valid()
    && Distinct(s.clients)
    && (forall u :: u in s.users.entries ==> u < s.nextId)
    && (forall i :: 0 <= i < |s.clients| ==> s.clients[i] < s.nextId)
    && (forall i :: 0 <= i < |s.history| ==> s.history[i].id < s.nextId)
    && |s.history| <= MaxHistory
  }

  /** The state when the server starts: no users, no messages, no clients, nothing written. */
  function Initial(): (s: RoomState)
    ensures Inv(s)
    ensures s.users.Size() == 0 && s.history == [] && s.clients == [] && s.outbox == []
  {
    RoomState(Empty(), [], [], [], 0)
  }

  /** `userId && activeUsers.has(userId)`. */
  predicate KnownUser(s: RoomState, userId: Option<UserId>) {
    userId.Some? && s.users.Has(userId.value)
  }

  /** `activeUsers.get(u).lastSeen = now`: only that one field of that one user changes. */
  function Touch(users: Users, u: UserId, now: Time): (r: Users)
    requires users.Valid() && users.Has(u)
    ensures r.Valid() && r.keys == users.keys && r.entries.Keys == users.entries.Keys
    ensures r.entries[u] == users.entries[u].(lastSeen := now)
    ensures forall k :: k in users.entries && k != u ==> r.entries[k] == users.entries[k]
    ensures Usernames(r) == Usernames(users)
  {
    var user := users.Get(u);
    UsernamesAfterUpdate(users, u, user.(lastSeen := now));
    users.Set(u, user.(lastSeen := now))
  }

  /** A user id that was handed out and is no longer in the table: it can never come back. */
  ghost predicate Departed(s: RoomState, u: UserId) {
    u < s.nextId && u !in s.users.entries
  }

  /** A client id that was handed out and is no longer connected: it can never come back. */
  ghost predicate Disconnected(s: RoomState, c: ClientId) {
    c < s.nextId && c !in s.clients
  }

  /**
   * How every handler changes the state: writes already made stay as they were (new ones are only
   * appended), the counter never goes back, and the only users and clients that appear were given
   * ids the counter had not yet handed out.
   */
  ghost predicate Evolves(s: RoomState, s': RoomState) {
    && |s.outbox| <= |s'.outbox| && s'.outbox[..|s.outbox|] == s.outbox
    && s.nextId <= s'.nextId
    && (forall u :: u in s'.users.entries ==> u in s.users.entries || s.nextId <= u)
    && (forall c :: c in s'.clients ==> c in s.clients || s.nextId <= c)
  }

  /** Registering a user under the next id, and recording writes, keeps the invariant. */
  lemma AddUserKeepsInv(s: RoomState, u: User, added: seq<Write>)
    requires Inv(s)
    ensures var s' := s.(users := s.users.Set(s.nextId, u), nextId := s.nextId + 1, outbox := s.outbox + added);
            Inv(s') && Evolves(s, s')
  {
    assert (s.outbox + added)[..|s.outbox|] == s.outbox;
  }

  /** Deleting a client and shrinking the users table, and recording writes, keeps the invariant. */
  lemma RemovalKeepsInv(s: RoomState, res: ClientId, users: Users, added: seq<Write>)
    requires Inv(s) && users.Valid() && users.entries.Keys <= s.users.entries.Keys
    ensures var s' := s.(clients := Delete(s.clients, res), users := users, outbox := s.outbox + added);
            Inv(s') && Evolves(s, s')
  {
    assert (s.outbox + added)[..|s.outbox|] == s.outbox;
    var clients := Delete(s.clients, res);
    forall i | 0 <= i < |clients| ensures clients[i] < s.nextId {
      assert clients[i] in s.clients;
    }
  }
}

/**
 * What `broadcastEvent` and `broadcastUsersList` write: one write of the event to each connected
 * client in the set's order, each under its own try/catch.
 */
module Broadcast {
  import opened Seqs
  import opened OrderedMaps
  import opened ChatTypes

  /** The users table, `activeUsers`, in insertion order. */
  type Users = OrderedMap<UserId, User>

  /** `try { c.write(e) } catch { }`: the write is made, and it is delivered unless `c`'s write throws. */
  function WriteTo(c: ClientId, e: Event, broken: set<ClientId>): Write {
    Write(c, e, c !in broken)
  }

  /**
   * The writes `broadcastEvent(e)` makes, given the clients whose write throws (`broken`): every
   * client is written to, in order, and a throwing write only marks that one write undelivered.
   */
  function Fanout(clients: seq<ClientId>, e: Event, broken: set<ClientId>): (r: seq<Write>)
    ensures |r| == |clients|
  {
    if clients == [] then []
    else [WriteTo(clients[0], e, broken)] + Fanout(clients[1..], e, broken)
  }

  /** The `k`-th write of a broadcast goes to the `k`-th client. */
  lemma {:induction false} FanoutAt(clients: seq<ClientId>, e: Event, broken: set<ClientId>)
    ensures forall k :: 0 <= k < |clients| ==> Fanout(clients, e, broken)[k] == WriteTo(clients[k], e, broken)
  {
    if clients != [] {
      FanoutAt(clients[1..], e, broken);
      var r := Fanout(clients, e, broken);
      forall k | 1 <= k < |clients| ensures r[k] == WriteTo(clients[k], e, broken) {
        assert r[k] == Fanout(clients[1..], e, broken)[k - 1];
        assert clients[k] == clients[1..][k - 1];
      }
    }
  }

  /**
   * The writes of the `userLeft` loop of `cleanup`: `forEach` over the clients, skipping the
   * closing one (`client !== res`), each write under its own try/catch.
   */
  function FanoutExcept(clients: seq<ClientId>, closing: ClientId, e: Event, broken: set<ClientId>): seq<Write> {
    if clients == [] then []
    else if clients[0] == closing then FanoutExcept(clients[1..], closing, e, broken)
    else [WriteTo(clients[0], e, broken)] + FanoutExcept(clients[1..], closing, e, broken)
  }

  /** Skipping the closing client is broadcasting to the other clients. */
  lemma {:induction false} FanoutExceptIsFanoutOfRest(clients: seq<ClientId>, closing: ClientId, e: Event, broken: set<ClientId>)
    ensures FanoutExcept(clients, closing, e, broken) == Fanout(Remove(clients, closing), e, broken)
  {
    if clients != [] {
      FanoutExceptIsFanoutOfRest(clients[1..], closing, e, broken);
    }
  }

  /** Extending the client list by one extends a broadcast by that client's write. */
  lemma {:induction false} FanoutSnoc(clients: seq<ClientId>, c: ClientId, e: Event, broken: set<ClientId>)
    ensures Fanout(clients + [c], e, broken) == Fanout(clients, e, broken) + [WriteTo(c, e, broken)]
  {
    if clients != [] {
      FanoutSnoc(clients[1..], c, e, broken);
      assert (clients + [c])[1..] == clients[1..] + [c];
    }
  }

  /** One more turn of the `userLeft` loop adds that client's write, unless it is the closing one. */
  lemma {:induction false} FanoutExceptSnoc(clients: seq<ClientId>, c: ClientId, closing: ClientId, e: Event, broken: set<ClientId>)
    ensures FanoutExcept(clients + [c], closing, e, broken)
            == FanoutExcept(clients, closing, e, broken) + (if c == closing then [] else [WriteTo(c, e, broken)])
  {
    if clients == [] {
      assert [c][1..] == [];
    } else {
      FanoutExceptSnoc(clients[1..], c, closing, e, broken);
      assert (clients + [c])[1..] == clients[1..] + [c];
    }
  }

  /** A client receives exactly one write of a broadcast event, delivered unless its write throws. */
  lemma FanoutReachesEachClientOnce(clients: seq<ClientId>, e: Event, broken: set<ClientId>, c: ClientId)
    requires Distinct(clients) && c in clients
    ensures exists k :: 0 <= k < |clients| && Fanout(clients, e, broken)[k] == WriteTo(c, e, broken)
    ensures forall k, k' ::
              (0 <= k < k' < |clients| && Fanout(clients, e, broken)[k].to == c)
              ==> Fanout(clients, e, broken)[k'].to != c
  {
    FanoutAt(clients, e, broken);
    var k :| 0 <= k < |clients| && clients[k] == c;
    assert Fanout(clients, e, broken)[k] == WriteTo(c, e, broken);
  }

  /**
   * Two broadcasts made one after the other: each client gets the first event and then the
   * second, and every write of the first precedes every write of the second.
   */
  lemma SuccessiveBroadcasts(clients: seq<ClientId>, e1: Event, e2: Event, broken: set<ClientId>)
    requires e1 != e2
    ensures var all := Fanout(clients, e1, broken) + Fanout(clients, e2, broken);
            && |all| == 2 * |clients|
            && (forall k :: 0 <= k < |clients| ==> all[k] == WriteTo(clients[k], e1, broken))
            && (forall k :: 0 <= k < |clients| ==> all[|clients| + k] == WriteTo(clients[k], e2, broken))
            && (forall i :: 0 <= i < |all| ==> all[i].event == if i < |clients| then e1 else e2)
            && (forall i :: 0 <= i < |all| ==> all[i].to in clients)
            && (forall i, j :: (0 <= i < |all| && 0 <= j < |all| && all[i].event == e1 && all[j].event == e2) ==> i < j)
  {
    var first, second := Fanout(clients, e1, broken), Fanout(clients, e2, broken);
    FanoutAt(clients, e1, broken);
    FanoutAt(clients, e2, broken);
    var all := first + second;
    assert forall i :: 0 <= i < |first| ==> all[i] == first[i];
    assert forall j :: |first| <= j < |all| ==> all[j] == second[j - |first|];
  }

  /**
   * An event followed by a `usersList` broadcast: every write of the event comes before every
   * write of the list.
   */
  lemma ListComesLast(added: seq<Write>, clients: seq<ClientId>, e: Event, list: Event, broken: set<ClientId>)
    requires !e.UsersList? && list.UsersList?
    requires added == Fanout(clients, e, broken) + Fanout(clients, list, broken)
    ensures forall i, j ::
              (0 <= i < |added| && 0 <= j < |added| && !added[i].event.UsersList? && added[j].event.UsersList?)
              ==> i < j
  {
    SuccessiveBroadcasts(clients, e, list, broken);
    forall i, j | 0 <= i < |added| && 0 <= j < |added| && !added[i].event.UsersList? && added[j].event.UsersList?
      ensures i < j
    {
      assert i < |clients| <= j;
    }
  }

  /** `Array.from(activeUsers.values()).map(user => user.username)`: the `usersList` payload. */
  function Usernames(users: Users): (r: seq<string>)
    requires users.Valid()
    ensures |r| == |users.keys| == users.Size()
    ensures forall i :: 0 <= i < |r| ==> r[i] == users.entries[users.keys[i]].username
  {
    SizeIsKeyCount(users);
    var values := users.Values();
    seq(|values|, i requires 0 <= i < |values| => values[i].username)
  }

  /** A user added to the table is added at the end of the presence list. */
  lemma UsernamesAfterAdd(users: Users, id: UserId, u: User)
    requires users.Valid() && !users.Has(id)
    ensures Usernames(users.Set(id, u)) == Usernames(users) + [u.username]
  {
    var before, after := Usernames(users), Usernames(users.Set(id, u));
    SizeIsKeyCount(users);
    SizeIsKeyCount(users.Set(id, u));
    assert |after| == |before| + 1;
    forall i | 0 <= i < |before| ensures after[i] == before[i] {
      assert users.keys[i] != id;
    }
  }

  /** Changing a present user's record without renaming them leaves the presence list alone. */
  lemma UsernamesAfterUpdate(users: Users, id: UserId, u: User)
    requires users.Valid() && users.Has(id) && users.Get(id).username == u.username
    ensures Usernames(users.Set(id, u)) == Usernames(users)
  {
  }

  /** A user removed from the table disappears from their place in the presence list. */
  lemma UsernamesAfterDelete(users: Users, k: nat)
    requires users.Valid() && k < |users.keys|
    ensures Usernames(users.Delete(users.keys[k])) == Usernames(users)[..k] + Usernames(users)[k + 1..]
  {
    var before, after := Usernames(users), Usernames(users.Delete(users.keys[k]));
    var expected := before[..k] + before[k + 1..];
    RemoveAt(users.keys, k);
    assert |after| == |expected|;
    forall i | 0 <= i < |after| ensures after[i] == expected[i] {
      UsernameAfterDeleteAt(users, k, i);
    }
  }

  /** After deleting the `k`-th user, the `i`-th name is the old `i`-th before `k` and the old `i+1`-th from `k` on. */
  lemma UsernameAfterDeleteAt(users: Users, k: nat, i: nat)
    requires users.Valid() && k < |users.keys| && i < |users.keys| - 1
    ensures Usernames(users.Delete(users.keys[k]))[i] == Usernames(users)[if i < k then i else i + 1]
  {
    DeleteAt(users, k, i);
  }
}

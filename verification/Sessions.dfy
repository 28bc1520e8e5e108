/** Sessions and their subscription indexes (pkg/server/session.go).

    A session keeps its own subscription maps; the manager keeps the reverse indexes
    key -> session IDs, which broadcasts read instead of scanning all sessions. */
module Sessions {
  import opened Wrappers

  // ---------------------------------------------------------------- reverse indexes

  type Index = map<nat, set<nat>>

  /** The keys somebody is subscribed to; `forward` maps a session ID to its own keys. */
  function Subscribed(forward: map<nat, set<nat>>): set<nat> {
    set id, k | id in forward && k in forward[id] :: k
  }

  /** The inverse of `forward`: for each key with a subscriber, the sessions that hold it.
      There are no empty entries. */
  function Invert(forward: map<nat, set<nat>>): Index {
    map k | k in Subscribed(forward) :: set id | id in forward && k in forward[id]
  }

  function AddSubscriber(index: Index, key: nat, id: nat): Index {
    index[key := (if key in index then index[key] else {}) + {id}]
  }

  /** Removes the subscriber and drops the entry once it is empty. */
  function DropSubscriber(index: Index, key: nat, id: nat): Index {
    if key !in index then index
    else if index[key] - {id} == {} then index - {key}
    else index[key := index[key] - {id}]
  }

  lemma SubscribedIff(forward: map<nat, set<nat>>, k: nat)
    ensures k in Subscribed(forward) <==> exists id :: id in forward && k in forward[id]
    ensures k in Invert(forward) ==> Invert(forward)[k] != {}
  {
    if k in Invert(forward) {
      var id :| id in forward && k in forward[id];
      assert id in Invert(forward)[k];
    }
  }

  lemma AddIsInverse(forward: map<nat, set<nat>>, key: nat, id: nat)
    requires id in forward
    ensures AddSubscriber(Invert(forward), key, id) == Invert(forward[id := forward[id] + {key}])
  {
    var forward' := forward[id := forward[id] + {key}];
    assert key in forward'[id];
    forall k ensures k in Subscribed(forward') <==> k in Subscribed(forward) || k == key {
      if k in Subscribed(forward) {
        var i :| i in forward && k in forward[i];
        assert k in forward'[i];
      }
    }
    var a, b := AddSubscriber(Invert(forward), key, id), Invert(forward');
    assert a.Keys == b.Keys;
    forall k | k in a ensures a[k] == b[k] {
    }
  }

  lemma DropIsInverse(forward: map<nat, set<nat>>, key: nat, id: nat)
    requires id in forward
    ensures DropSubscriber(Invert(forward), key, id) == Invert(forward[id := forward[id] - {key}])
  {
    var forward' := forward[id := forward[id] - {key}];
    forall k | k != key ensures k in Subscribed(forward') <==> k in Subscribed(forward) {
      if k in Subscribed(forward) {
        var i :| i in forward && k in forward[i];
        assert k in forward'[i];
      }
    }
    SubscribedIff(forward', key);
    if key in Subscribed(forward) {
      var left := Invert(forward)[key] - {id};
      assert left == set i | i in forward' && key in forward'[i];
      if left != {} {
        var i :| i in left;
        assert key in forward'[i];
      }
    }
    var a, b := DropSubscriber(Invert(forward), key, id), Invert(forward');
    assert a.Keys == b.Keys;
    forall k | k in a ensures a[k] == b[k] {
    }
  }

  /** A session without subscriptions does not show in the inverse. */
  lemma RegisterIsInverse(forward: map<nat, set<nat>>, id: nat)
    requires id !in forward
    ensures Invert(forward[id := {}]) == Invert(forward)
  {
    var f := forward[id := {}];
    forall k ensures k in Subscribed(f) <==> k in Subscribed(forward) {
      if k in Subscribed(forward) {
        var i :| i in forward && k in forward[i];
        assert k in f[i];
      }
    }
    assert Invert(f).Keys == Invert(forward).Keys;
    forall k | k in Invert(f) ensures Invert(f)[k] == Invert(forward)[k] {
    }
  }

  /** Takes a subscriber out of the entries of all its keys. */
  method DropFromAll(index: Index, keys: set<nat>, id: nat, ghost forward: map<nat, set<nat>>)
    returns (index': Index)
    requires index == Invert(forward) && id in forward && forward[id] == keys
    ensures index' == Invert(forward - {id})
  {
    index' := index;
    var rest := keys;
    assert forward[id := rest] == forward;
    while rest != {}
      invariant index' == Invert(forward[id := rest])
    {
      var key :| key in rest;
      DropIsInverse(forward[id := rest], key, id);
      index' := DropSubscriber(index', key, id);
      assert forward[id := rest][id := rest - {key}] == forward[id := rest - {key}];
      rest := rest - {key};
    }
    RegisterIsInverse(forward - {id}, id);
    assert (forward - {id})[id := {}] == forward[id := {}];
  }

  // ---------------------------------------------------------------- sessions

  /** A session's data.  Channel keys never have a subchannel, so a channel ID is the key. */
  datatype Session = Session(
    id: nat, userId: Option<int>, nickname: string, admin: bool, shadowbanned: bool,
    joined: Option<nat>, threads: map<nat, nat>, channels: set<nat>)

  type Registry = map<nat, Session>

  function ThreadKeys(sessions: Registry): map<nat, set<nat>> {
    map id | id in sessions :: sessions[id].threads.Keys
  }

  function ChannelKeys(sessions: Registry): map<nat, set<nat>> {
    map id | id in sessions :: sessions[id].channels
  }

  lemma KeysAfterUpdate(sessions: Registry, id: nat, s: Session)
    ensures ThreadKeys(sessions[id := s]) == ThreadKeys(sessions)[id := s.threads.Keys]
    ensures ChannelKeys(sessions[id := s]) == ChannelKeys(sessions)[id := s.channels]
    ensures id in sessions && s.threads.Keys == sessions[id].threads.Keys ==>
      ThreadKeys(sessions[id := s]) == ThreadKeys(sessions)
    ensures id in sessions && s.channels == sessions[id].channels ==>
      ChannelKeys(sessions[id := s]) == ChannelKeys(sessions)
  {
  }

  lemma KeysAfterRemoval(sessions: Registry, id: nat)
    ensures ThreadKeys(sessions - {id}) == ThreadKeys(sessions) - {id}
    ensures ChannelKeys(sessions - {id}) == ChannelKeys(sessions) - {id}
  {
  }

  class SessionManager {
    var sessions: Registry
    var nextId: nat
    var threadSubscribers: Index
    var channelSubscribers: Index

    /** The reverse indexes are exactly the inverse of the sessions' own subscription maps. */
    ghost predicate Valid()
      reads this
    {
      && (forall id :: id in sessions ==> sessions[id].id == id && id < nextId)
      && threadSubscribers == Invert(ThreadKeys(sessions))
      && channelSubscribers == Invert(ChannelKeys(sessions))
    }

    constructor ()
      ensures Valid() && sessions == map[] && nextId == 1
    {
      sessions, nextId, threadSubscribers, channelSubscribers := map[], 1, map[], map[];
    }

    /** Registers a session under an ID never used before, once the database has taken its record;
        if it refuses (`recorded` is its answer), nothing changes. */
    method CreateSession(userId: Option<int>, nickname: string, recorded: bool) returns (r: Option<nat>)
      requires Valid()
      modifies this
      ensures Valid()
      ensures !recorded ==> r == None && nextId == old(nextId) && sessions == old(sessions)
      ensures recorded ==> r == Some(old(nextId)) && nextId == old(nextId) + 1 && old(nextId) !in old(sessions)
      ensures recorded ==>
        sessions == old(sessions)[old(nextId) := Session(old(nextId), userId, nickname, false, false, None, map[], {})]
    {
      if !recorded {
        return None;
      }
      var id := nextId;
      var s := Session(id, userId, nickname, false, false, None, map[], {});
      RegisterIsInverse(ThreadKeys(sessions), id);
      RegisterIsInverse(ChannelKeys(sessions), id);
      KeysAfterUpdate(sessions, id, s);
      assert s.threads.Keys == {};
      nextId, sessions := nextId + 1, sessions[id := s];
      return Some(id);
    }

    /** Unregisters the session and takes it out of both indexes; no effect on an unknown ID. */
    method RemoveSession(id: nat)
      requires Valid()
      modifies this
      ensures Valid() && nextId == old(nextId)
      ensures sessions == old(sessions) - {id}
    {
      if id !in sessions {
        assert sessions == sessions - {id};
        return;
      }
      var s := sessions[id];
      KeysAfterRemoval(sessions, id);
      threadSubscribers := DropFromAll(threadSubscribers, s.threads.Keys, id, ThreadKeys(sessions));
      channelSubscribers := DropFromAll(channelSubscribers, s.channels, id, ChannelKeys(sessions));
      sessions := sessions - {id};
    }

    method SubscribeToThread(id: nat, threadId: nat, channelId: nat)
      requires Valid() && id in sessions
      modifies this
      ensures Valid() && nextId == old(nextId)
      ensures var was := old(sessions)[id];
        sessions == old(sessions)[id := was.(threads := was.threads[threadId := channelId])]
    {
      var s := sessions[id].(threads := sessions[id].threads[threadId := channelId]);
      assert s.threads.Keys == sessions[id].threads.Keys + {threadId};
      AddIsInverse(ThreadKeys(sessions), threadId, id);
      KeysAfterUpdate(sessions, id, s);
      sessions := sessions[id := s];
      threadSubscribers := AddSubscriber(threadSubscribers, threadId, id);
    }

    method UnsubscribeFromThread(id: nat, threadId: nat)
      requires Valid() && id in sessions
      modifies this
      ensures Valid() && nextId == old(nextId)
      ensures sessions == old(sessions)[id := old(sessions)[id].(threads := old(sessions)[id].threads - {threadId})]
    {
      var s := sessions[id].(threads := sessions[id].threads - {threadId});
      assert s.threads.Keys == sessions[id].threads.Keys - {threadId};
      DropIsInverse(ThreadKeys(sessions), threadId, id);
      KeysAfterUpdate(sessions, id, s);
      sessions := sessions[id := s];
      threadSubscribers := DropSubscriber(threadSubscribers, threadId, id);
    }

    method SubscribeToChannel(id: nat, channelId: nat)
      requires Valid() && id in sessions
      modifies this
      ensures Valid() && nextId == old(nextId)
      ensures sessions == old(sessions)[id := old(sessions)[id].(channels := old(sessions)[id].channels + {channelId})]
    {
      var s := sessions[id].(channels := sessions[id].channels + {channelId});
      AddIsInverse(ChannelKeys(sessions), channelId, id);
      KeysAfterUpdate(sessions, id, s);
      sessions := sessions[id := s];
      channelSubscribers := AddSubscriber(channelSubscribers, channelId, id);
    }

    method UnsubscribeFromChannel(id: nat, channelId: nat)
      requires Valid() && id in sessions
      modifies this
      ensures Valid() && nextId == old(nextId)
      ensures sessions == old(sessions)[id := old(sessions)[id].(channels := old(sessions)[id].channels - {channelId})]
    {
      var s := sessions[id].(channels := sessions[id].channels - {channelId});
      DropIsInverse(ChannelKeys(sessions), channelId, id);
      KeysAfterUpdate(sessions, id, s);
      sessions := sessions[id := s];
      channelSubscribers := DropSubscriber(channelSubscribers, channelId, id);
    }

    /** The index lookup finds what a scan over all registered sessions would. */
    method GetThreadSubscribers(threadId: nat) returns (ids: set<nat>)
      requires Valid()
      ensures ids == set id | id in sessions && threadId in sessions[id].threads
    {
      SubscribedIff(ThreadKeys(sessions), threadId);
      assert forall id :: id in sessions ==> ThreadKeys(sessions)[id] == sessions[id].threads.Keys;
      ids := if threadId in threadSubscribers then threadSubscribers[threadId] else {};
    }

    method GetChannelSubscribers(channelId: nat) returns (ids: set<nat>)
      requires Valid()
      ensures ids == set id | id in sessions && channelId in sessions[id].channels
    {
      SubscribedIff(ChannelKeys(sessions), channelId);
      assert forall id :: id in sessions ==> ChannelKeys(sessions)[id] == sessions[id].channels;
      ids := if channelId in channelSubscribers then channelSubscribers[channelId] else {};
    }
  }
}

/**
  The server's in-memory session engine (server.js): the presence registry
  `users` (socket id to user), the bounded community message log, and the
  private rooms, changed by the socket handlers, the two resets and the
  periodic sweep.

  The handlers that read the clock (the two resets, the sweep and
  `CHAT_EXTEND`) take its reading `now` as a parameter; every handler
  returns the emissions it would make, each with its audience. A JavaScript `Map`
  iterates in insertion order; `roomOrder` keeps that order of the rooms'
  keys, since both the sweep and the rejoin search walk the rooms in it.
 */
module Server {
  import opened Types
  import opened Seqs

  const COMMUNITY_RESET_PERIOD: int := 1800000
  const SITE_RESET_PERIOD: int := 7200000
  /** Community messages older than five minutes are swept. */
  const RETENTION: int := 300000
  /** At most this many community messages are kept. */
  const COMMUNITY_CAP: nat := 200

  const CONNECTION_ISSUE: string := "Connection issue. Please wait."
  const INVALID_KEY: string := "Invalid or Expired Secret Key"

  /** A user as the registry stores it: the HEARTBEAT's user plus the
      socket it came from. */
  datatype OnlineUser = OnlineUser(user: User, socketId: string)

  datatype CloseReason = Expired | Exit

  datatype ServerEvent =
    | InitState(communityMessages: seq<Message>, communityTimerEnd: int, siteTimerEnd: int, onlineUsers: set<OnlineUser>)
    | Heartbeat(user: User, communityTimerEnd: int, siteTimerEnd: int)
    | MessageEvent(message: Message)
    | ChatRequestEvent(request: ChatRequest)
    | ChatAccept(requestId: Option<string>, room: PrivateRoom)
    | ChatClosed(roomId: string, reason: CloseReason)
    | ChatExtended(room: PrivateRoom)
    | ResetCommunity(nextReset: int)
    | ResetSite(nextReset: int)
    | Error(text: string)

  /** `io.emit` reaches every connection, `socket.broadcast.emit` every
      connection but the sender's, `socket.emit` the sender only. */
  datatype Audience = Everyone | AllBut(socketId: string) | Only(socketId: string)

  datatype Emission = Emission(to: Audience, event: ServerEvent)

  // ---------------------------------------------------------------------
  // The rules, as functions of the old state

  /** `communityMessages.push(m)` followed by one `shift()` when the log
      has grown past the cap. */
  function AppendCapped(log: seq<Message>, m: Message): (r: seq<Message>)
    ensures |log| <= COMMUNITY_CAP ==> |r| <= COMMUNITY_CAP
    ensures |log| < COMMUNITY_CAP ==> r == log + [m]
    ensures |log| == COMMUNITY_CAP ==> r == log[1..] + [m]
    ensures |r| > 0 && r[|r| - 1] == m
    ensures |r| <= |log| + 1 && r == (log + [m])[|log| + 1 - |r|..]
  {
    var grown := log + [m];
    if |grown| > COMMUNITY_CAP then grown[1..] else grown
  }

  /** Still within the five-minute window at `now`. */
  function IsRecent(now: int): Message -> bool {
    (m: Message) => now - m.timestamp < RETENTION
  }

  /** A room is expired once `now` is strictly past its deadline. */
  predicate IsExpired(room: PrivateRoom, now: int) {
    now > room.expiresAt
  }

  function ExpiredIn(rooms: map<string, PrivateRoom>, now: int): string -> bool {
    (id: string) => id in rooms && IsExpired(rooms[id], now)
  }

  function LiveIn(rooms: map<string, PrivateRoom>, now: int): string -> bool {
    (id: string) => id in rooms && !IsExpired(rooms[id], now)
  }

  /** The rooms the sweep keeps. */
  function SweptRooms(rooms: map<string, PrivateRoom>, now: int): (r: map<string, PrivateRoom>)
    ensures forall id :: id in r <==> id in rooms && now <= rooms[id].expiresAt
    ensures forall id :: id in r ==> r[id] == rooms[id]
  {
    map id | id in rooms && !IsExpired(rooms[id], now) :: rooms[id]
  }

  /** One `CHAT_CLOSED{reason: 'expired'}` per id, in order. */
  function ExpiryNotices(ids: seq<string>): (r: seq<Emission>)
    ensures |r| == |ids|
    ensures forall k :: 0 <= k < |ids| ==> r[k] == Emission(Everyone, ChatClosed(ids[k], Expired))
  {
    if ids == [] then [] else [Emission(Everyone, ChatClosed(ids[0], Expired))] + ExpiryNotices(ids[1..])
  }

  lemma ExpiryNoticesSnoc(ids: seq<string>, id: string)
    ensures ExpiryNotices(ids + [id]) == ExpiryNotices(ids) + [Emission(Everyone, ChatClosed(id, Expired))]
  {
    var l, r := ExpiryNotices(ids + [id]), ExpiryNotices(ids) + [Emission(Everyone, ChatClosed(id, Expired))];
    assert |l| == |r|;
    forall k | 0 <= k < |l| ensures l[k] == r[k] {
      assert k < |ids| ==> (ids + [id])[k] == ids[k];
    }
  }

  /** Sweeping twice at the same instant removes nothing more, and a later
      sweep never brings a room back. */
  lemma SweepSettles(rooms: map<string, PrivateRoom>, now: int, later: int)
    requires now <= later
    ensures SweptRooms(SweptRooms(rooms, now), now) == SweptRooms(rooms, now)
    ensures SweptRooms(SweptRooms(rooms, now), later) == SweptRooms(rooms, later)
  {
  }

  /** The room after `CHAT_EXTEND`: only a room that has not been extended
      is changed, and then it is marked extended and given 30 minutes from
      `now`. */
  function ExtendRoom(rooms: map<string, PrivateRoom>, roomId: string, now: int): (r: map<string, PrivateRoom>)
    ensures r.Keys == rooms.Keys
    ensures forall id :: id in rooms && id != roomId ==> r[id] == rooms[id]
    ensures roomId in rooms ==> r[roomId].extended
    ensures roomId in rooms && rooms[roomId].extended ==> r[roomId] == rooms[roomId]
    ensures roomId in rooms && !rooms[roomId].extended ==>
      && r[roomId].expiresAt == now + PRIVATE_ROOM_LIFETIME
      && r[roomId].participants == rooms[roomId].participants
      && r[roomId].reconnectCode == rooms[roomId].reconnectCode
      && r[roomId].createdAt == rooms[roomId].createdAt
      && r[roomId].id == rooms[roomId].id
  {
    if roomId in rooms && !rooms[roomId].extended then
      rooms[roomId := rooms[roomId].(extended := true, expiresAt := now + PRIVATE_ROOM_LIFETIME)]
    else rooms
  }

  /** An extension is granted at most once: a second `CHAT_EXTEND`, at any
      later instant, leaves the rooms as the first one left them. */
  lemma ExtendAtMostOnce(rooms: map<string, PrivateRoom>, roomId: string, first: int, second: int)
    ensures ExtendRoom(ExtendRoom(rooms, roomId, first), roomId, second) == ExtendRoom(rooms, roomId, first)
  {
  }

  /** `participants.includes(id)` or else `participants.push(id)`. */
  function AddParticipant(participants: seq<string>, id: string): (r: seq<string>)
    ensures forall x :: x in r <==> x in participants || x == id
    ensures |participants| <= |r| <= |participants| + 1 && r[..|participants|] == participants
    ensures Distinct(participants) ==> Distinct(r)
    ensures id in participants ==> r == participants
  {
    if id in participants then participants else participants + [id]
  }

  /** The room has the reconnect code. */
  predicate HasCode(rooms: map<string, PrivateRoom>, id: string, code: string) {
    id in rooms && rooms[id].reconnectCode == code
  }

  /** The first room, in `order`, whose reconnect code is `code`. */
  function FirstWithCode(order: seq<string>, rooms: map<string, PrivateRoom>, code: string): (r: Option<string>)
    ensures r.None? <==> forall k :: 0 <= k < |order| ==> !HasCode(rooms, order[k], code)
    ensures r.Some? ==> HasCode(rooms, r.value, code)
    ensures r.Some? ==> exists k :: (0 <= k < |order| && order[k] == r.value &&
                                     forall j :: 0 <= j < k ==> !HasCode(rooms, order[j], code))
    decreases |order|
  {
    if order == [] then None
    else if HasCode(rooms, order[0], code) then Some(order[0])
    else
      var r := FirstWithCode(order[1..], rooms, code);
      assert forall k :: 1 <= k < |order| ==> order[k] == order[1..][k - 1];
      if r.Some? then
        var k' :| 0 <= k' < |order[1..]| && order[1..][k'] == r.value
          && forall j :: 0 <= j < k' ==> !HasCode(rooms, order[1..][j], code);
        assert order[k' + 1] == r.value;
        r
      else r
  }

  /** A run of community messages, each appended with the cap: however
      many arrive, the log stays within the cap and ends with the latest. */
  function AppendAll(log: seq<Message>, ms: seq<Message>): (r: seq<Message>)
    ensures |log| <= COMMUNITY_CAP ==> |r| <= COMMUNITY_CAP
    ensures ms != [] ==> |r| > 0 && r[|r| - 1] == ms[|ms| - 1]
    ensures ms == [] ==> r == log
    decreases |ms|
  {
    if ms == [] then log else AppendAll(AppendCapped(log, ms[0]), ms[1..])
  }

  /** What the sweep has done after walking `order[..i]`: the rooms seen
      so far are deleted if expired, the live ones listed in order, and one
      notice given per deletion. */
  ghost predicate SweptUpTo(order: seq<string>, rooms: map<string, PrivateRoom>, now: int, i: nat,
                            remaining: map<string, PrivateRoom>, kept: seq<string>, notices: seq<Emission>)
    requires i <= |order|
  {
    && kept == Filter(order[..i], LiveIn(rooms, now))
    && notices == ExpiryNotices(Filter(order[..i], ExpiredIn(rooms, now)))
    && (forall id :: id in remaining <==> id in rooms && (id !in order[..i] || !IsExpired(rooms[id], now)))
    && (forall id :: id in remaining ==> remaining[id] == rooms[id])
  }

  /** One step of the sweep keeps `SweptUpTo`. */
  lemma SweepStep(order: seq<string>, rooms: map<string, PrivateRoom>, now: int, i: nat,
                  remaining: map<string, PrivateRoom>, kept: seq<string>, notices: seq<Emission>)
    requires Distinct(order) && i < |order| && order[i] in rooms
    requires SweptUpTo(order, rooms, now, i, remaining, kept, notices)
    ensures var id := order[i];
      if id in remaining && IsExpired(remaining[id], now)
      then SweptUpTo(order, rooms, now, i + 1, remaining - {id}, kept, notices + [Emission(Everyone, ChatClosed(id, Expired))])
      else SweptUpTo(order, rooms, now, i + 1, remaining, kept + [id], notices)
  {
    var id := order[i];
    assert order[..i + 1] == order[..i] + [id];
    assert id !in order[..i];
    FilterSnoc(order[..i], id, LiveIn(rooms, now));
    FilterSnoc(order[..i], id, ExpiredIn(rooms, now));
    ExpiryNoticesSnoc(Filter(order[..i], ExpiredIn(rooms, now)), id);
  }

  /** The room half of the sweep, walking the rooms in their order and
      deleting each expired one as it is met. */
  method SweepRooms(order: seq<string>, rooms: map<string, PrivateRoom>, now: int)
    returns (remaining: map<string, PrivateRoom>, kept: seq<string>, notices: seq<Emission>)
    requires Distinct(order) && forall id :: id in rooms <==> id in order
    ensures remaining == SweptRooms(rooms, now)
    ensures kept == Filter(order, LiveIn(rooms, now))
    ensures notices == ExpiryNotices(Filter(order, ExpiredIn(rooms, now)))
  {
    remaining, kept, notices := rooms, [], [];
    var i := 0;
    assert order[..0] == [];
    while i < |order|
      invariant 0 <= i <= |order|
      invariant SweptUpTo(order, rooms, now, i, remaining, kept, notices)
    {
      var id := order[i];
      assert id in order;
      SweepStep(order, rooms, now, i, remaining, kept, notices);
      if id in remaining && IsExpired(remaining[id], now) {
        remaining := remaining - {id};
        notices := notices + [Emission(Everyone, ChatClosed(id, Expired))];
      } else {
        kept := kept + [id];
      }
      i := i + 1;
    }
    assert order[..i] == order;
  }

  // ---------------------------------------------------------------------
  // The engine

  class SessionEngine {
    var users: map<string, OnlineUser>
    var communityMessages: seq<Message>
    var privateRooms: map<string, PrivateRoom>
    /** The keys of `privateRooms` in insertion order. */
    var roomOrder: seq<string>
    var communityTimerEnd: int
    var siteTimerEnd: int

    ghost predicate Valid()
      reads this
    {
      && |communityMessages| <= COMMUNITY_CAP
      && Distinct(roomOrder)
      && (forall id :: id in privateRooms <==> id in roomOrder)
      && (forall id :: id in privateRooms ==> privateRooms[id].id == id)
      && (forall sid :: sid in users ==> users[sid].socketId == sid)
    }

    /** The state when the process starts at `now`. */
    constructor (now: int)
      ensures Valid()
      ensures users == map[] && communityMessages == [] && privateRooms == map[] && roomOrder == []
      ensures communityTimerEnd == now + COMMUNITY_RESET_PERIOD
      ensures siteTimerEnd == now + SITE_RESET_PERIOD
    {
      users := map[];
      communityMessages := [];
      privateRooms := map[];
      roomOrder := [];
      communityTimerEnd := now + COMMUNITY_RESET_PERIOD;
      siteTimerEnd := now + SITE_RESET_PERIOD;
    }

    /** `resetCommunity`: the community log is emptied and the next reset
        is 30 minutes away. */
    method ResetCommunityAt(now: int) returns (out: seq<Emission>)
      requires Valid()
      modifies this
      ensures Valid()
      ensures communityMessages == [] && communityTimerEnd == now + COMMUNITY_RESET_PERIOD
      ensures users == old(users) && privateRooms == old(privateRooms) && roomOrder == old(roomOrder)
      ensures siteTimerEnd == old(siteTimerEnd)
      ensures out == [Emission(Everyone, ResetCommunity(communityTimerEnd))]
    {
      communityMessages := [];
      communityTimerEnd := now + COMMUNITY_RESET_PERIOD;
      out := [Emission(Everyone, ResetCommunity(communityTimerEnd))];
    }

    /** `resetSite`: everything is emptied and both timers restart. */
    method ResetSiteAt(now: int) returns (out: seq<Emission>)
      requires Valid()
      modifies this
      ensures Valid()
      ensures users == map[] && communityMessages == [] && privateRooms == map[] && roomOrder == []
      ensures communityTimerEnd == now + COMMUNITY_RESET_PERIOD
      ensures siteTimerEnd == now + SITE_RESET_PERIOD
      ensures out == [Emission(Everyone, ResetSite(siteTimerEnd))]
    {
      users := map[];
      communityMessages := [];
      privateRooms := map[];
      roomOrder := [];
      communityTimerEnd := now + COMMUNITY_RESET_PERIOD;
      siteTimerEnd := now + SITE_RESET_PERIOD;
      out := [Emission(Everyone, ResetSite(siteTimerEnd))];
    }

    /** The five-second sweep: stale community messages are dropped, and
        every room strictly past its deadline is deleted, with one
        `CHAT_CLOSED{reason: 'expired'}` each, in the rooms' order. */
    method Sweep(now: int) returns (out: seq<Emission>)
      requires Valid()
      modifies this
      ensures Valid()
      ensures communityMessages == Filter(old(communityMessages), IsRecent(now))
      ensures privateRooms == SweptRooms(old(privateRooms), now)
      ensures roomOrder == Filter(old(roomOrder), LiveIn(old(privateRooms), now))
      ensures out == ExpiryNotices(Filter(old(roomOrder), ExpiredIn(old(privateRooms), now)))
      ensures users == old(users)
      ensures communityTimerEnd == old(communityTimerEnd) && siteTimerEnd == old(siteTimerEnd)
    {
      var rooms, kept;
      rooms, kept, out := SweepRooms(roomOrder, privateRooms, now);
      FilterDistinct(roomOrder, LiveIn(privateRooms, now));
      forall id ensures id in kept <==> id in rooms {
        FilterMembership(roomOrder, LiveIn(privateRooms, now), id);
      }
      communityMessages := Filter(communityMessages, IsRecent(now));
      privateRooms := rooms;
      roomOrder := kept;
    }

    /** On connection: the new socket alone receives the current state. */
    method Connect(socketId: string) returns (out: Emission)
      ensures out.to == Only(socketId)
      ensures out.event == InitState(communityMessages, communityTimerEnd, siteTimerEnd, users.Values)
    {
      out := Emission(Only(socketId), InitState(communityMessages, communityTimerEnd, siteTimerEnd, users.Values));
    }

    /** `HEARTBEAT`: without a user it is ignored; otherwise the socket's
        entry is overwritten and the others are told. */
    method OnHeartbeat(socketId: string, user: Option<User>) returns (out: seq<Emission>)
      requires Valid()
      modifies this
      ensures Valid()
      ensures user.None? ==> users == old(users) && out == []
      ensures user.Some? ==>
        && users == old(users)[socketId := OnlineUser(user.value, socketId)]
        && out == [Emission(AllBut(socketId), Heartbeat(user.value, communityTimerEnd, siteTimerEnd))]
      ensures communityMessages == old(communityMessages) && privateRooms == old(privateRooms)
      ensures roomOrder == old(roomOrder)
      ensures communityTimerEnd == old(communityTimerEnd) && siteTimerEnd == old(siteTimerEnd)
    {
      if user.None? {
        return [];
      }
      users := users[socketId := OnlineUser(user.value, socketId)];
      out := [Emission(AllBut(socketId), Heartbeat(user.value, communityTimerEnd, siteTimerEnd))];
    }

    /** `MESSAGE`: a community message joins the capped log; every message
        is relayed to everyone. */
    method OnMessage(message: Message) returns (out: seq<Emission>)
      requires Valid()
      modifies this
      ensures Valid()
      ensures message.roomId == COMMUNITY ==> communityMessages == AppendCapped(old(communityMessages), message)
      ensures message.roomId != COMMUNITY ==> communityMessages == old(communityMessages)
      ensures out == [Emission(Everyone, MessageEvent(message))]
      ensures users == old(users) && privateRooms == old(privateRooms) && roomOrder == old(roomOrder)
      ensures communityTimerEnd == old(communityTimerEnd) && siteTimerEnd == old(siteTimerEnd)
    {
      if message.roomId == COMMUNITY {
        var log := communityMessages + [message];
        if |log| > COMMUNITY_CAP {
          log := log[1..];
        }
        communityMessages := log;
      }
      out := [Emission(Everyone, MessageEvent(message))];
    }

    /** `CHAT_REQUEST`: relayed to every other connection; no state. */
    method OnChatRequest(socketId: string, request: ChatRequest) returns (out: seq<Emission>)
      ensures out == [Emission(AllBut(socketId), ChatRequestEvent(request))]
    {
      out := [Emission(AllBut(socketId), ChatRequestEvent(request))];
    }

    /** `CHAT_ACCEPT`: the room is stored under its id (a known id keeps
        its place in the order) and the acceptance is relayed. */
    method OnChatAccept(requestId: string, room: PrivateRoom) returns (out: seq<Emission>)
      requires Valid()
      modifies this
      ensures Valid()
      ensures privateRooms == old(privateRooms)[room.id := room]
      ensures roomOrder == if room.id in old(privateRooms) then old(roomOrder) else old(roomOrder) + [room.id]
      ensures out == [Emission(Everyone, ChatAccept(Some(requestId), room))]
      ensures users == old(users) && communityMessages == old(communityMessages)
      ensures communityTimerEnd == old(communityTimerEnd) && siteTimerEnd == old(siteTimerEnd)
    {
      if room.id !in privateRooms {
        roomOrder := roomOrder + [room.id];
      }
      privateRooms := privateRooms[room.id := room];
      out := [Emission(Everyone, ChatAccept(Some(requestId), room))];
    }

    /** `CHAT_EXIT`: a present room is deleted with one
        `CHAT_CLOSED{reason: 'exit'}`; an unknown id does nothing. */
    method OnChatExit(roomId: string) returns (out: seq<Emission>)
      requires Valid()
      modifies this
      ensures Valid()
      ensures roomId in old(privateRooms) ==>
        && privateRooms == old(privateRooms) - {roomId}
        && roomOrder == Filter(old(roomOrder), IsNot(roomId))
        && out == [Emission(Everyone, ChatClosed(roomId, Exit))]
      ensures roomId !in old(privateRooms) ==>
        privateRooms == old(privateRooms) && roomOrder == old(roomOrder) && out == []
      ensures users == old(users) && communityMessages == old(communityMessages)
      ensures communityTimerEnd == old(communityTimerEnd) && siteTimerEnd == old(siteTimerEnd)
    {
      if roomId !in privateRooms {
        return [];
      }
      privateRooms := privateRooms - {roomId};
      FilterDistinct(roomOrder, IsNot(roomId));
      forall id ensures id in Filter(roomOrder, IsNot(roomId)) <==> id in roomOrder && id != roomId {
        FilterMembership(roomOrder, IsNot(roomId), id);
      }
      roomOrder := Filter(roomOrder, IsNot(roomId));
      out := [Emission(Everyone, ChatClosed(roomId, Exit))];
    }

    /** `CHAT_EXTEND`: see `ExtendRoom`; the updated room is announced
        only when the extension was granted. */
    method OnChatExtend(roomId: string, now: int) returns (out: seq<Emission>)
      requires Valid()
      modifies this
      ensures Valid()
      ensures privateRooms == ExtendRoom(old(privateRooms), roomId, now)
      ensures out == if roomId in old(privateRooms) && !old(privateRooms)[roomId].extended
        then [Emission(Everyone, ChatExtended(privateRooms[roomId]))] else []
      ensures users == old(users) && communityMessages == old(communityMessages) && roomOrder == old(roomOrder)
      ensures communityTimerEnd == old(communityTimerEnd) && siteTimerEnd == old(siteTimerEnd)
    {
      if roomId !in privateRooms {
        return [];
      }
      var room := privateRooms[roomId];
      if !room.extended {
        room := room.(extended := true, expiresAt := now + PRIVATE_ROOM_LIFETIME);
        privateRooms := privateRooms[room.id := room];
        out := [Emission(Everyone, ChatExtended(room))];
      } else {
        out := [];
      }
    }

    /** The search loop of `CHAT_REJOIN`: the first room in order whose
        reconnect code matches. */
    method FindRoomByCode(code: string) returns (found: Option<string>)
      ensures found == FirstWithCode(roomOrder, privateRooms, code)
    {
      var i := 0;
      while i < |roomOrder|
        invariant 0 <= i <= |roomOrder|
        invariant forall j :: 0 <= j < i ==> !HasCode(privateRooms, roomOrder[j], code)
        invariant FirstWithCode(roomOrder, privateRooms, code) == FirstWithCode(roomOrder[i..], privateRooms, code)
      {
        assert roomOrder[i..][1..] == roomOrder[i + 1..];
        if HasCode(privateRooms, roomOrder[i], code) {
          return Some(roomOrder[i]);
        }
        i := i + 1;
      }
      return None;
    }

    /** `CHAT_REJOIN`: an unknown socket or an unknown code is answered
        with an error to the sender only and changes nothing; otherwise the
        caller's user id joins the first matching room, without duplicate,
        and the room is broadcast. */
    method OnChatRejoin(socketId: string, code: string) returns (out: seq<Emission>)
      requires Valid()
      modifies this
      ensures Valid()
      ensures socketId !in old(users) ==>
        privateRooms == old(privateRooms) && out == [Emission(Only(socketId), Error(CONNECTION_ISSUE))]
      ensures socketId in old(users) && FirstWithCode(old(roomOrder), old(privateRooms), code).None? ==>
        privateRooms == old(privateRooms) && out == [Emission(Only(socketId), Error(INVALID_KEY))]
      ensures socketId in old(users) && FirstWithCode(old(roomOrder), old(privateRooms), code).Some? ==>
        var id := FirstWithCode(old(roomOrder), old(privateRooms), code).value;
        var room := old(privateRooms)[id];
        && privateRooms == old(privateRooms)[id := room.(participants := AddParticipant(room.participants, old(users)[socketId].user.id))]
        && out == [Emission(Everyone, ChatAccept(None, privateRooms[id]))]
      ensures users == old(users) && communityMessages == old(communityMessages) && roomOrder == old(roomOrder)
      ensures communityTimerEnd == old(communityTimerEnd) && siteTimerEnd == old(siteTimerEnd)
    {
      if socketId !in users {
        return [Emission(Only(socketId), Error(CONNECTION_ISSUE))];
      }
      var currentUser := users[socketId].user;
      var found := FindRoomByCode(code);
      if found.None? {
        return [Emission(Only(socketId), Error(INVALID_KEY))];
      }
      var room := privateRooms[found.value];
      if currentUser.id !in room.participants {
        room := room.(participants := room.participants + [currentUser.id]);
      }
      privateRooms := privateRooms[found.value := room];
      out := [Emission(Everyone, ChatAccept(None, room))];
    }

    /** `disconnect`: only this socket's registry entry goes. */
    method OnDisconnect(socketId: string)
      requires Valid()
      modifies this
      ensures Valid()
      ensures users == old(users) - {socketId}
      ensures communityMessages == old(communityMessages) && privateRooms == old(privateRooms)
      ensures roomOrder == old(roomOrder)
      ensures communityTimerEnd == old(communityTimerEnd) && siteTimerEnd == old(siteTimerEnd)
    {
      users := users - {socketId};
    }
  }

  function IsNot(x: string): string -> bool {
    (y: string) => y != x
  }
}

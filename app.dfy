/**
  The client's state (App.tsx): the message list and its reducers, the
  private rooms the client knows of, the request and accept guards around
  the `isDeciding` busy flag, the `mm:ss` countdowns and the selector of the
  messages shown in the active room.

  Each React state variable is a field of `ClientSession`; a state setter
  and the reducer handed to it are one assignment. Ids, the clock, the
  random draws and the hour are parameters.
 */
module App {
  import opened Types
  import opened Seqs
  import opened JsText
  import opened Helpers

  /** What the client hands to the socket. */
  datatype ClientEvent =
    | EmitMessage(message: Message)
    | EmitChatRequest(request: ChatRequest)
    | EmitChatAccept(requestId: string, room: PrivateRoom)

  // ---------------------------------------------------------------------
  // The message reducers

  /** `prev.find(m => m.id === id)` finds something. */
  predicate ContainsId(ms: seq<Message>, id: string) {
    exists k :: 0 <= k < |ms| && ms[k].id == id
  }

  /** The message list as `MESSAGE` and `handleSendMessage` leave it: a
      message whose id is already listed changes nothing; any other is
      appended at the end. */
  function AddMessage(ms: seq<Message>, m: Message): (r: seq<Message>)
    ensures ContainsId(ms, m.id) ==> r == ms
    ensures !ContainsId(ms, m.id) ==> r == ms + [m]
    ensures ContainsId(r, m.id)
  {
    if ContainsId(ms, m.id) then ms
    else
      assert (ms + [m])[|ms|] == m;
      ms + [m]
  }

  /** Receiving the same message twice is receiving it once, and the list
      stays free of repeated ids. */
  lemma AddMessageIdempotent(ms: seq<Message>, m: Message)
    ensures AddMessage(AddMessage(ms, m), m) == AddMessage(ms, m)
    ensures DistinctBy(ms, MessageId) ==> DistinctBy(AddMessage(ms, m), MessageId)
  {
    var r := AddMessage(ms, m);
    if !ContainsId(ms, m.id) && DistinctBy(ms, MessageId) {
      forall i, j | 0 <= i < j < |r| ensures MessageId(r[i]) != MessageId(r[j]) {
        if j == |ms| {
          assert r[i] == ms[i];
        } else {
          assert r[i] == ms[i] && r[j] == ms[j];
        }
      }
    }
  }

  /** Not already listed in `prev`. */
  function IsNewTo(prev: seq<Message>): Message -> bool {
    (m: Message) => !ContainsId(prev, m.id)
  }

  /** The `INIT_STATE` merge: the list so far, followed by the incoming
      messages (none when the field is missing) whose ids it does not
      already hold, in their incoming order. */
  function MergeInit(prev: seq<Message>, incoming: Option<seq<Message>>): (r: seq<Message>)
    ensures |prev| <= |r| && r[..|prev|] == prev
    ensures r[|prev|..] == Filter(if incoming.Some? then incoming.value else [], IsNewTo(prev))
    ensures forall m :: m in r[|prev|..] <==> incoming.Some? && m in incoming.value && !ContainsId(prev, m.id)
  {
    var arriving := if incoming.Some? then incoming.value else [];
    var r := prev + Filter(arriving, IsNewTo(prev));
    assert r[|prev|..] == Filter(arriving, IsNewTo(prev));
    forall m ensures m in r[|prev|..] <==> m in arriving && !ContainsId(prev, m.id) {
      FilterMembership(arriving, IsNewTo(prev), m);
    }
    r
  }

  /** A repeated `INIT_STATE` (a reconnection) adds nothing more. */
  lemma MergeInitIdempotent(prev: seq<Message>, incoming: Option<seq<Message>>)
    ensures MergeInit(MergeInit(prev, incoming), incoming) == MergeInit(prev, incoming)
  {
    var r := MergeInit(prev, incoming);
    var arriving := if incoming.Some? then incoming.value else [];
    forall m | m in arriving ensures ContainsId(r, m.id) {
      if ContainsId(prev, m.id) {
        var k :| 0 <= k < |prev| && prev[k].id == m.id;
        assert r[k] == prev[k];
      } else {
        assert m in r[|prev|..];
        var k :| 0 <= k < |r[|prev|..]| && r[|prev|..][k] == m;
        assert r[|prev| + k] == m;
      }
    }
    var added := Filter(arriving, IsNewTo(r));
    if added != [] {
      FilterMembership(arriving, IsNewTo(r), added[0]);
      assert false;
    }
    assert r + [] == r;
  }

  /** When neither side repeats an id, the merged list does not either. */
  lemma MergeInitDistinct(prev: seq<Message>, incoming: seq<Message>)
    requires DistinctBy(prev, MessageId) && DistinctBy(incoming, MessageId)
    ensures DistinctBy(MergeInit(prev, Some(incoming)), MessageId)
  {
    var added := Filter(incoming, IsNewTo(prev));
    FilterDistinctBy(incoming, IsNewTo(prev), MessageId);
    var r := prev + added;
    assert r == MergeInit(prev, Some(incoming));
    forall i, j | 0 <= i < j < |r| ensures MessageId(r[i]) != MessageId(r[j]) {
      if j < |prev| {
        assert r[i] == prev[i] && r[j] == prev[j];
      } else if i < |prev| {
        assert r[j] == added[j - |prev|] && r[j] in added;
        assert IsNewTo(prev)(r[j]);
        assert r[i] == prev[i];
      } else {
        assert r[i] == added[i - |prev|] && r[j] == added[j - |prev|];
      }
    }
  }

  function IsNotCommunity(m: Message): bool { m.roomId != COMMUNITY }

  /** The community reset filter of `RESET_COMMUNITY` and of the ticker. */
  function ClearCommunity(ms: seq<Message>): (r: seq<Message>)
    ensures forall m :: m in r <==> m in ms && m.roomId != COMMUNITY
  {
    forall m ensures m in Filter(ms, IsNotCommunity) <==> m in ms && m.roomId != COMMUNITY {
      FilterMembership(ms, IsNotCommunity, m);
    }
    Filter(ms, IsNotCommunity)
  }

  /** The reset keeps the remaining messages in their order: it works
      piece by piece on a concatenation, leaves a list without community
      messages as it is, and a second reset removes nothing more. */
  lemma ClearCommunityOrder(a: seq<Message>, b: seq<Message>)
    ensures ClearCommunity(a + b) == ClearCommunity(a) + ClearCommunity(b)
    ensures (forall k :: 0 <= k < |a| ==> a[k].roomId != COMMUNITY) ==> ClearCommunity(a) == a
    ensures ClearCommunity(ClearCommunity(a)) == ClearCommunity(a)
  {
    FilterConcat(a, b, IsNotCommunity);
    if forall k :: 0 <= k < |a| ==> a[k].roomId != COMMUNITY {
      FilterAll(a, IsNotCommunity);
    }
    FilterIdempotent(a, IsNotCommunity);
  }

  /** Shown in room `roomId`: not reported and not from a hidden sender. */
  function IsShownIn(roomId: string, reported: set<string>, hidden: set<string>): Message -> bool {
    (m: Message) => m.roomId == roomId && m.id !in reported && m.senderId !in hidden
  }

  /** `activeMessages`. */
  function ActiveMessages(ms: seq<Message>, roomId: string, reported: set<string>, hidden: set<string>): (r: seq<Message>)
    ensures forall m :: m in r <==> m in ms && m.roomId == roomId && m.id !in reported && m.senderId !in hidden
    ensures |r| <= |ms|
  {
    forall m ensures m in Filter(ms, IsShownIn(roomId, reported, hidden)) <==> m in ms && IsShownIn(roomId, reported, hidden)(m) {
      FilterMembership(ms, IsShownIn(roomId, reported, hidden), m);
    }
    Filter(ms, IsShownIn(roomId, reported, hidden))
  }

  /** A message that arrives is shown at the end of the active list exactly
      when the selector admits it. */
  lemma ActiveMessagesAppend(ms: seq<Message>, m: Message, roomId: string, reported: set<string>, hidden: set<string>)
    ensures ActiveMessages(ms + [m], roomId, reported, hidden) ==
      ActiveMessages(ms, roomId, reported, hidden) + (if IsShownIn(roomId, reported, hidden)(m) then [m] else [])
  {
    FilterSnoc(ms, m, IsShownIn(roomId, reported, hidden));
  }

  // ---------------------------------------------------------------------
  // Countdowns

  /** `max(0, end - now)`. */
  function Remaining(end: int, now: int): nat {
    if end - now > 0 then end - now else 0
  }

  /** Whole minutes and the leftover whole seconds of the remaining time. */
  function CountdownParts(end: int, now: int): (p: (nat, nat))
    ensures p.1 < 60
    ensures p.0 * 60 + p.1 == Remaining(end, now) / 1000
    ensures (p.0 * 60 + p.1) * 1000 <= Remaining(end, now) < (p.0 * 60 + p.1 + 1) * 1000
  {
    var diff := Remaining(end, now);
    var mins := diff / 60000;
    var rest := diff % 60000;
    var secs := rest / 1000;
    assert diff == mins * 60000 + rest;
    assert rest == secs * 1000 + rest % 1000;
    assert diff == (mins * 60 + secs) * 1000 + rest % 1000;
    (mins, secs)
  }

  /** Minutes and seconds, each padded to two digits, around a colon. */
  function ClockText(mins: nat, secs: nat): string {
    PadStart2(NatToString(mins)) + ":" + PadStart2(NatToString(secs))
  }

  /** The text reads back as the two numbers; seconds below 60 take
      exactly two digits, and so do minutes below 100. */
  lemma ClockTextReadsBack(mins: nat, secs: nat)
    requires secs < 60
    ensures var r := ClockText(mins, secs);
      && |r| >= 5 && r[|r| - 3] == ':'
      && AllDigits(r[..|r| - 3]) && DecimalValue(r[..|r| - 3]) == mins
      && AllDigits(r[|r| - 2..]) && DecimalValue(r[|r| - 2..]) == secs
    ensures mins < 100 ==> |ClockText(mins, secs)| == 5
  {
    var m, s := PadStart2(NatToString(mins)), PadStart2(NatToString(secs));
    var r := m + ":" + s;
    PaddedRoundTrip(mins);
    PaddedRoundTrip(secs);
    assert |s| == 2;
    assert r[|m|] == ':';
    assert r[..|r| - 3] == m;
    assert r[|r| - 2..] == s;
  }

  /** The `mm:ss` text of `timeLeftGlobal` and of each room's tab. */
  function Countdown(end: int, now: int): string {
    var p := CountdownParts(end, now);
    ClockText(p.0, p.1)
  }

  /** The countdown text reads back as the minutes and seconds it shows,
      which together make the remaining time in whole seconds; under 100
      minutes the text is exactly `mm:ss`. */
  lemma CountdownReadsBack(end: int, now: int)
    ensures var r := Countdown(end, now);
      && AllDigits(r[..|r| - 3]) && AllDigits(r[|r| - 2..])
      && DecimalValue(r[..|r| - 3]) * 60 + DecimalValue(r[|r| - 2..]) == Remaining(end, now) / 1000
      && DecimalValue(r[|r| - 2..]) < 60
    ensures Remaining(end, now) < 6000000 ==> |Countdown(end, now)| == 5
  {
    var p := CountdownParts(end, now);
    ClockTextReadsBack(p.0, p.1);
    var total := p.0 * 60 + p.1;
    assert total * 1000 <= Remaining(end, now);
    if Remaining(end, now) < 6000000 {
      assert total < 6000;
      assert p.0 < 100;
    }
  }

  // ---------------------------------------------------------------------
  // Guards

  /** Every guard of `sendRequest`: not oneself, not already requested, no
      private room yet, and a target that accepts requests and is not busy
      deciding on another. */
  predicate MayRequest(self: User, sent: set<string>, rooms: map<string, PrivateRoom>, target: User) {
    && target.id != self.id
    && target.id !in sent
    && |rooms| == 0
    && target.acceptingRequests
    && !target.isDeciding
  }

  /** A target once requested is never requested again. */
  lemma RequestOnce(self: User, sent: set<string>, rooms: map<string, PrivateRoom>, target: User, again: User)
    requires again.id == target.id
    ensures !MayRequest(self, sent + {target.id}, rooms, again)
  {
  }

  /** The guard of the `CHAT_REQUEST` handler: addressed to this user, who
      is open to private chat, has no private room and is not deciding. */
  predicate MayReceive(self: User, open: bool, rooms: map<string, PrivateRoom>, request: ChatRequest) {
    request.toId == self.id && open && |rooms| == 0 && !self.isDeciding
  }

  /** While the user is deciding on one request, the guard refuses every
      other, so a shown request is never replaced. */
  lemma DecidingRefuses(self: User, open: bool, rooms: map<string, PrivateRoom>, request: ChatRequest)
    requires self.isDeciding
    ensures !MayReceive(self, open, rooms, request)
  {
  }

  // ---------------------------------------------------------------------
  // The client

  class ClientSession {
    var currentUser: User
    var isOpenToPrivate: bool
    var sentRequestIds: set<string>
    var messages: seq<Message>
    var privateRooms: map<string, PrivateRoom>
    var activeRoomId: string
    var activeRoomType: RoomType
    var activeIncomingRequest: Option<ChatRequest>
    var commTimerEnd: int
    var currentTime: int
    var hiddenUserIds: set<string>
    /** Never added to: no setter exists for it. */
    var reportedMessageIds: set<string>
    var onlineUsers: map<string, User>

    /** A shown incoming request always has the busy flag set; the consent
        flag follows the toggle; the active room is the community room or
        one of the known private rooms. */
    ghost predicate Valid()
      reads this
    {
      && (activeIncomingRequest.Some? ==> currentUser.isDeciding)
      && currentUser.acceptingRequests == isOpenToPrivate
      && reportedMessageIds == {}
      && (activeRoomType == CommunityRoom ==> activeRoomId == COMMUNITY)
      && (activeRoomType == PrivateRoomType ==> activeRoomId in privateRooms)
    }

    /** The state on page load at `now`, with the user id `id` and the
        username drawn from `draw`. */
    constructor (id: string, draw: Draw, now: int)
      ensures Valid()
      ensures currentUser == User(id, GenerateUsername(draw), now, false, false)
      ensures !isOpenToPrivate && sentRequestIds == {} && messages == [] && privateRooms == map[]
      ensures activeRoomId == COMMUNITY && activeRoomType == CommunityRoom && activeIncomingRequest == None
      ensures commTimerEnd == now + 1800000 && currentTime == now
      ensures hiddenUserIds == {} && onlineUsers == map[]
    {
      currentUser := User(id, GenerateUsername(draw), now, false, false);
      isOpenToPrivate := false;
      sentRequestIds := {};
      messages := [];
      privateRooms := map[];
      activeRoomId := COMMUNITY;
      activeRoomType := CommunityRoom;
      activeIncomingRequest := None;
      commTimerEnd := now + 1800000;
      currentTime := now;
      hiddenUserIds := {};
      reportedMessageIds := {};
      onlineUsers := map[];
    }

    /** The messages the active room shows. */
    function Shown(): seq<Message>
      reads this
    {
      ActiveMessages(messages, activeRoomId, reportedMessageIds, hiddenUserIds)
    }

    /** The consent toggle, together with the effect that copies it into
        the user record. */
    method ToggleOpenToPrivate()
      requires Valid()
      modifies this
      ensures Valid()
      ensures isOpenToPrivate == !old(isOpenToPrivate)
      ensures currentUser == old(currentUser).(acceptingRequests := isOpenToPrivate)
      ensures sentRequestIds == old(sentRequestIds) && messages == old(messages) && privateRooms == old(privateRooms)
      ensures activeIncomingRequest == old(activeIncomingRequest)
      ensures activeRoomId == old(activeRoomId) && activeRoomType == old(activeRoomType)
      ensures commTimerEnd == old(commTimerEnd) && currentTime == old(currentTime)
      ensures hiddenUserIds == old(hiddenUserIds) && onlineUsers == old(onlineUsers)
    {
      isOpenToPrivate := !isOpenToPrivate;
      currentUser := currentUser.(acceptingRequests := isOpenToPrivate);
    }

    /** The one-second ticker: the clock advances, and while the community
        room is shown and its reset time has passed, its messages go. */
    method Tick(now: int)
      requires Valid()
      modifies this
      ensures Valid()
      ensures currentTime == now
      ensures messages == if old(activeRoomType) == CommunityRoom && now >= old(commTimerEnd)
        then ClearCommunity(old(messages)) else old(messages)
      ensures commTimerEnd == old(commTimerEnd) && privateRooms == old(privateRooms)
      ensures activeRoomId == old(activeRoomId) && activeRoomType == old(activeRoomType)
      ensures currentUser == old(currentUser) && isOpenToPrivate == old(isOpenToPrivate)
      ensures sentRequestIds == old(sentRequestIds) && activeIncomingRequest == old(activeIncomingRequest)
      ensures hiddenUserIds == old(hiddenUserIds) && onlineUsers == old(onlineUsers)
    {
      currentTime := now;
      if activeRoomType == CommunityRoom && now >= commTimerEnd {
        messages := ClearCommunity(messages);
      }
    }

    /** `handleSendMessage`: the new message, stamped `now` and addressed
        to the active room, joins the list unless its id is already there,
        and is sent. */
    method SendMessage(id: string, text: string, now: int) returns (out: ClientEvent)
      requires Valid()
      modifies this
      ensures Valid()
      ensures out.EmitMessage?
      ensures out.message == Message(id, currentUser.id, currentUser.username, text, now, activeRoomId, None)
      ensures messages == AddMessage(old(messages), out.message)
      ensures currentUser == old(currentUser) && privateRooms == old(privateRooms)
      ensures activeRoomId == old(activeRoomId) && activeRoomType == old(activeRoomType)
      ensures activeIncomingRequest == old(activeIncomingRequest) && sentRequestIds == old(sentRequestIds)
      ensures isOpenToPrivate == old(isOpenToPrivate)
      ensures commTimerEnd == old(commTimerEnd) && currentTime == old(currentTime)
      ensures hiddenUserIds == old(hiddenUserIds) && onlineUsers == old(onlineUsers)
    {
      var msg := Message(id, currentUser.id, currentUser.username, text, now, activeRoomId, None);
      messages := AddMessage(messages, msg);
      out := EmitMessage(msg);
    }

    /** `sendRequest`: when a guard fails nothing is sent and nothing
        changes; otherwise the request is sent and the target is marked as
        requested. */
    method SendRequest(target: User, requestId: string, now: int) returns (out: Option<ClientEvent>)
      requires Valid()
      modifies this
      ensures Valid()
      ensures !MayRequest(old(currentUser), old(sentRequestIds), old(privateRooms), target) ==>
        out == None && sentRequestIds == old(sentRequestIds)
      ensures MayRequest(old(currentUser), old(sentRequestIds), old(privateRooms), target) ==>
        && out == Some(EmitChatRequest(ChatRequest(requestId, currentUser.id, currentUser.username, target.id, now)))
        && sentRequestIds == old(sentRequestIds) + {target.id}
      ensures currentUser == old(currentUser) && messages == old(messages) && privateRooms == old(privateRooms)
      ensures activeIncomingRequest == old(activeIncomingRequest)
      ensures isOpenToPrivate == old(isOpenToPrivate)
      ensures activeRoomId == old(activeRoomId) && activeRoomType == old(activeRoomType)
      ensures commTimerEnd == old(commTimerEnd) && currentTime == old(currentTime)
      ensures hiddenUserIds == old(hiddenUserIds) && onlineUsers == old(onlineUsers)
    {
      if target.id == currentUser.id { return None; }
      if target.id in sentRequestIds { return None; }
      if |privateRooms| > 0 { return None; }
      if !target.acceptingRequests || target.isDeciding { return None; }
      out := Some(EmitChatRequest(ChatRequest(requestId, currentUser.id, currentUser.username, target.id, now)));
      sentRequestIds := sentRequestIds + {target.id};
    }

    /** `acceptRequest`: with a private room already present, the request
        is dropped and nothing is sent; otherwise a room for the two users,
        with a new reconnect code and 30 minutes to live, is sent. Either
        way the client is no longer deciding. */
    method AcceptRequest(request: ChatRequest, roomId: string, draws: seq<Draw>, now: int) returns (out: Option<ClientEvent>)
      requires Valid()
      requires |draws| == RECONNECT_CODE_LENGTH
      modifies this
      ensures Valid()
      ensures activeIncomingRequest == None && currentUser == old(currentUser).(isDeciding := false)
      ensures |old(privateRooms)| > 0 ==> out == None
      ensures |old(privateRooms)| == 0 ==> out.Some? && out.value.EmitChatAccept? && out.value.requestId == request.id
      ensures out.Some? && out.value.EmitChatAccept? ==>
        var room := out.value.room;
        && room.id == roomId
        && room.participants == [request.fromId, request.toId]
        && IsReconnectCode(room.reconnectCode)
        && room.createdAt == now && room.expiresAt == now + PRIVATE_ROOM_LIFETIME
        && !room.extended
      ensures sentRequestIds == old(sentRequestIds) && messages == old(messages) && privateRooms == old(privateRooms)
      ensures activeRoomId == old(activeRoomId) && activeRoomType == old(activeRoomType)
      ensures isOpenToPrivate == old(isOpenToPrivate)
      ensures commTimerEnd == old(commTimerEnd) && currentTime == old(currentTime)
      ensures hiddenUserIds == old(hiddenUserIds) && onlineUsers == old(onlineUsers)
    {
      if |privateRooms| > 0 {
        activeIncomingRequest := None;
        currentUser := currentUser.(isDeciding := false);
        return None;
      }
      var code := GenerateReconnectCode(draws);
      var room := PrivateRoom(roomId, [request.fromId, request.toId], code, now, now + PRIVATE_ROOM_LIFETIME, false, None);
      out := Some(EmitChatAccept(request.id, room));
      activeIncomingRequest := None;
      currentUser := currentUser.(isDeciding := false);
    }

    /** `INIT_STATE`: merge the community log and take the reset time. */
    method OnInitState(incoming: Option<seq<Message>>, communityTimerEnd: int)
      requires Valid()
      modifies this
      ensures Valid()
      ensures messages == MergeInit(old(messages), incoming)
      ensures commTimerEnd == communityTimerEnd
      ensures currentUser == old(currentUser) && privateRooms == old(privateRooms)
      ensures activeIncomingRequest == old(activeIncomingRequest)
      ensures isOpenToPrivate == old(isOpenToPrivate) && sentRequestIds == old(sentRequestIds)
      ensures activeRoomId == old(activeRoomId) && activeRoomType == old(activeRoomType)
      ensures currentTime == old(currentTime)
      ensures hiddenUserIds == old(hiddenUserIds) && onlineUsers == old(onlineUsers)
    {
      messages := MergeInit(messages, incoming);
      commTimerEnd := communityTimerEnd;
    }

    /** `HEARTBEAT`: the peer is recorded as active at `now`; a reset time
        is taken only when present and non-zero (a truthiness test). */
    method OnHeartbeat(user: User, communityTimerEnd: Option<int>, now: int)
      requires Valid()
      modifies this
      ensures Valid()
      ensures onlineUsers == old(onlineUsers)[user.id := user.(lastActive := now)]
      ensures commTimerEnd == if communityTimerEnd.Some? && communityTimerEnd.value != 0
        then communityTimerEnd.value else old(commTimerEnd)
      ensures currentUser == old(currentUser) && messages == old(messages) && privateRooms == old(privateRooms)
      ensures activeIncomingRequest == old(activeIncomingRequest)
      ensures isOpenToPrivate == old(isOpenToPrivate) && sentRequestIds == old(sentRequestIds)
      ensures activeRoomId == old(activeRoomId) && activeRoomType == old(activeRoomType)
      ensures currentTime == old(currentTime) && hiddenUserIds == old(hiddenUserIds)
    {
      onlineUsers := onlineUsers[user.id := user.(lastActive := now)];
      if communityTimerEnd.Some? && communityTimerEnd.value != 0 {
        commTimerEnd := communityTimerEnd.value;
      }
    }

    /** `MESSAGE`: added unless its id is already listed. */
    method OnMessage(message: Message)
      requires Valid()
      modifies this
      ensures Valid()
      ensures messages == AddMessage(old(messages), message)
      ensures currentUser == old(currentUser) && privateRooms == old(privateRooms)
      ensures activeIncomingRequest == old(activeIncomingRequest) && commTimerEnd == old(commTimerEnd)
      ensures isOpenToPrivate == old(isOpenToPrivate) && sentRequestIds == old(sentRequestIds)
      ensures activeRoomId == old(activeRoomId) && activeRoomType == old(activeRoomType)
      ensures currentTime == old(currentTime)
      ensures hiddenUserIds == old(hiddenUserIds) && onlineUsers == old(onlineUsers)
    {
      messages := AddMessage(messages, message);
    }

    /** `RESET_COMMUNITY`: the community messages go, the rest stay. */
    method OnResetCommunity(nextReset: int)
      requires Valid()
      modifies this
      ensures Valid()
      ensures messages == ClearCommunity(old(messages))
      ensures commTimerEnd == nextReset
      ensures currentUser == old(currentUser) && privateRooms == old(privateRooms)
      ensures activeIncomingRequest == old(activeIncomingRequest)
      ensures isOpenToPrivate == old(isOpenToPrivate) && sentRequestIds == old(sentRequestIds)
      ensures activeRoomId == old(activeRoomId) && activeRoomType == old(activeRoomType)
      ensures currentTime == old(currentTime)
      ensures hiddenUserIds == old(hiddenUserIds) && onlineUsers == old(onlineUsers)
    {
      messages := ClearCommunity(messages);
      commTimerEnd := nextReset;
    }

    /** `CHAT_REQUEST`: the request is shown, and the user marked busy,
        only when it passes the guard; so a shown request is never replaced
        by another. */
    method OnChatRequest(request: ChatRequest)
      requires Valid()
      modifies this
      ensures Valid()
      ensures MayReceive(old(currentUser), old(isOpenToPrivate), old(privateRooms), request) ==>
        activeIncomingRequest == Some(request) && currentUser == old(currentUser).(isDeciding := true)
      ensures !MayReceive(old(currentUser), old(isOpenToPrivate), old(privateRooms), request) ==>
        activeIncomingRequest == old(activeIncomingRequest) && currentUser == old(currentUser)
      ensures old(activeIncomingRequest).Some? ==> activeIncomingRequest == old(activeIncomingRequest)
      ensures messages == old(messages) && privateRooms == old(privateRooms) && sentRequestIds == old(sentRequestIds)
      ensures isOpenToPrivate == old(isOpenToPrivate)
      ensures activeRoomId == old(activeRoomId) && activeRoomType == old(activeRoomType)
      ensures commTimerEnd == old(commTimerEnd) && currentTime == old(currentTime)
      ensures hiddenUserIds == old(hiddenUserIds) && onlineUsers == old(onlineUsers)
    {
      if request.toId == currentUser.id && isOpenToPrivate && |privateRooms| == 0 {
        if !currentUser.isDeciding {
          activeIncomingRequest := Some(request);
          currentUser := currentUser.(isDeciding := true);
        }
      }
    }

    /** The 30-second expiry of a shown request. */
    method ExpireRequest()
      requires Valid()
      modifies this
      ensures Valid()
      ensures activeIncomingRequest == None && currentUser == old(currentUser).(isDeciding := false)
      ensures messages == old(messages) && privateRooms == old(privateRooms) && sentRequestIds == old(sentRequestIds)
      ensures isOpenToPrivate == old(isOpenToPrivate)
      ensures activeRoomId == old(activeRoomId) && activeRoomType == old(activeRoomType)
      ensures commTimerEnd == old(commTimerEnd) && currentTime == old(currentTime)
      ensures hiddenUserIds == old(hiddenUserIds) && onlineUsers == old(onlineUsers)
    {
      activeIncomingRequest := None;
      currentUser := currentUser.(isDeciding := false);
    }

    /** The Ignore button: the request is hidden but the busy flag stays
        set until the expiry fires. */
    method IgnoreRequest()
      requires Valid()
      modifies this
      ensures Valid()
      ensures activeIncomingRequest == None && currentUser == old(currentUser)
      ensures messages == old(messages) && privateRooms == old(privateRooms) && sentRequestIds == old(sentRequestIds)
      ensures isOpenToPrivate == old(isOpenToPrivate)
      ensures activeRoomId == old(activeRoomId) && activeRoomType == old(activeRoomType)
      ensures commTimerEnd == old(commTimerEnd) && currentTime == old(currentTime)
      ensures hiddenUserIds == old(hiddenUserIds) && onlineUsers == old(onlineUsers)
    {
      activeIncomingRequest := None;
    }

    /** `CHAT_ACCEPT`: the room is recorded under its id, and a room this
        user belongs to becomes the active one. */
    method OnChatAccept(room: PrivateRoom)
      requires Valid()
      modifies this
      ensures Valid()
      ensures privateRooms == old(privateRooms)[room.id := room]
      ensures currentUser.id in room.participants ==> activeRoomId == room.id && activeRoomType == PrivateRoomType
      ensures currentUser.id !in room.participants ==>
        activeRoomId == old(activeRoomId) && activeRoomType == old(activeRoomType)
      ensures currentUser == old(currentUser) && messages == old(messages)
      ensures activeIncomingRequest == old(activeIncomingRequest)
      ensures isOpenToPrivate == old(isOpenToPrivate) && sentRequestIds == old(sentRequestIds)
      ensures commTimerEnd == old(commTimerEnd) && currentTime == old(currentTime)
      ensures hiddenUserIds == old(hiddenUserIds) && onlineUsers == old(onlineUsers)
    {
      privateRooms := privateRooms[room.id := room];
      if currentUser.id in room.participants {
        activeRoomId := room.id;
        activeRoomType := PrivateRoomType;
      }
    }

    /** The Global tab. */
    method SelectCommunity()
      requires Valid()
      modifies this
      ensures Valid()
      ensures activeRoomId == COMMUNITY && activeRoomType == CommunityRoom
      ensures messages == old(messages) && privateRooms == old(privateRooms) && currentUser == old(currentUser)
      ensures activeIncomingRequest == old(activeIncomingRequest)
      ensures isOpenToPrivate == old(isOpenToPrivate) && sentRequestIds == old(sentRequestIds)
      ensures commTimerEnd == old(commTimerEnd) && currentTime == old(currentTime)
      ensures hiddenUserIds == old(hiddenUserIds) && onlineUsers == old(onlineUsers)
    {
      activeRoomId := COMMUNITY;
      activeRoomType := CommunityRoom;
    }

    /** A private room's tab; tabs exist only for known rooms. */
    method SelectRoom(roomId: string)
      requires Valid() && roomId in privateRooms
      modifies this
      ensures Valid()
      ensures activeRoomId == roomId && activeRoomType == PrivateRoomType
      ensures messages == old(messages) && privateRooms == old(privateRooms) && currentUser == old(currentUser)
      ensures activeIncomingRequest == old(activeIncomingRequest)
      ensures isOpenToPrivate == old(isOpenToPrivate) && sentRequestIds == old(sentRequestIds)
      ensures commTimerEnd == old(commTimerEnd) && currentTime == old(currentTime)
      ensures hiddenUserIds == old(hiddenUserIds) && onlineUsers == old(onlineUsers)
    {
      activeRoomId := roomId;
      activeRoomType := PrivateRoomType;
    }

    /** Hide/Report: nothing that user sent is shown any more. */
    method HideUser(userId: string)
      requires Valid()
      modifies this
      ensures Valid()
      ensures hiddenUserIds == old(hiddenUserIds) + {userId}
      ensures forall m :: m in Shown() ==> m.senderId != userId
      ensures messages == old(messages) && privateRooms == old(privateRooms) && currentUser == old(currentUser)
      ensures activeRoomId == old(activeRoomId) && activeIncomingRequest == old(activeIncomingRequest)
      ensures isOpenToPrivate == old(isOpenToPrivate) && sentRequestIds == old(sentRequestIds)
      ensures activeRoomType == old(activeRoomType)
      ensures commTimerEnd == old(commTimerEnd) && currentTime == old(currentTime)
      ensures onlineUsers == old(onlineUsers)
    {
      hiddenUserIds := hiddenUserIds + {userId};
    }
  }
}

/**
  The records the server and the clients exchange. Optional boolean fields
  of the JavaScript objects (`isDeciding`, `extended`) are plain booleans
  here: an absent field is read as `false`, which is how every use in the
  program treats it (only its truthiness is ever tested).
 */
module Types {

  datatype Option<T> = None | Some(value: T)

  /** The room id of the shared room. */
  const COMMUNITY: string := "community"

  /** A private room lasts 30 minutes, and an extension gives 30 more. */
  const PRIVATE_ROOM_LIFETIME: int := 1800000

  datatype User = User(
    id: string,
    username: string,
    lastActive: int,
    acceptingRequests: bool,  // consent flag
    isDeciding: bool)         // busy while an incoming request is shown

  datatype Reply = Reply(text: string, senderName: string)

  datatype Message = Message(
    id: string,
    senderId: string,
    senderName: string,
    text: string,
    timestamp: int,
    roomId: string,
    replyTo: Option<Reply>)

  function MessageId(m: Message): string { m.id }

  datatype PrivateRoom = PrivateRoom(
    id: string,
    participants: seq<string>,
    reconnectCode: string,
    createdAt: int,
    expiresAt: int,
    extended: bool,                 // the one extension has been used
    rejoinStartedAt: Option<int>)   // declared, never read or written

  datatype ChatRequest = ChatRequest(
    id: string,
    fromId: string,
    fromName: string,
    toId: string,
    timestamp: int)

  datatype RoomType = CommunityRoom | PrivateRoomType
}

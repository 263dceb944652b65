# Ghost Talk session core, modelled in Dafny

Ghost Talk is an anonymous chat site. It has one shared community room and
short-lived two-person private rooms. This project models its core and
proves properties of the model:

- **The server's session engine** (`server.js`, file `server.dfy`). This is
  the class `Server.SessionEngine`. Its fields are:
  - the presence registry `users`;
  - the community log, capped at 200 messages;
  - the private rooms, including the order in which a JavaScript `Map`
    iterates them;
  - the two reset deadlines.

  Every socket handler is a method. So are the two resets and the
  five-second sweep. Those that read the clock (the two resets, the sweep
  and `CHAT_EXTEND`) take its reading `now` as a parameter; the other
  handlers read no clock. Each returns the emissions it makes, every one
  tagged with its audience.
- **The moderation verdict** (`moderation.js`, file `moderation.dfy`). It
  covers the blank-text check and the critical-word regular expression. The
  expression is given a reference meaning and an executable scanner, and the
  two are proved equivalent. It also covers the mapping of the classifier's
  reply, with fail-open. The classifier call itself is an input, its
  `ClassifierOutcome`.
- **The generators** (`utils/helpers.ts`, file `helpers.dfy`). These are the
  reconnect code, the anonymous username and the welcome prompt chosen by
  hour. Each `Math.random()` result is a `Draw`, a real number in [0, 1)
  passed as a parameter.
- **The client** (`App.tsx`, file `app.dfy`). This covers:
  - the message-list reducers;
  - the active-message selector;
  - the `mm:ss` countdowns;
  - the request and accept guards around the `isDeciding` busy flag, as the
    class `App.ClientSession`.
- **The view rules of the chat panel** (`components/ChatBox.tsx`, file
  `chatbox.dfy`). These are the 301-second community window with its "keep
  the previous list" shortcut, compact rendering, the fading marker and
  submit.

Shared pieces:

- `types.dfy` holds the records of `types.ts`.
- `jstext.dfy` writes out the JavaScript string operations the code relies
  on:
  - `trim`;
  - `toUpperCase`;
  - the case folding of a regular expression with the `i` flag;
  - `toString` of a non-negative integer;
  - `padStart(2, '0')`.
- `seqs.dfy` holds `Array.prototype.filter` and its laws.

Points where the model follows the code rather than the obvious reading:

- A private room expires only when `now` is strictly greater than its
  deadline.
- An extension is granted once, and a second one is silently ignored.
- `CHAT_REJOIN` takes the first matching room in insertion order. It can give
  a room a third participant.
- The Ignore button hides the incoming request but leaves `isDeciding` set.
  So the only invariant is "a shown request implies busy", not the converse.
- `reportedMessageIds` has no setter, so it is always empty.
- The client tests the heartbeat's reset time by truthiness, so a value of 0
  is ignored.
- The client never handles `CHAT_CLOSED` or `CHAT_EXTENDED`. Its map of
  private rooms therefore only grows.

## Model

| member | source | states |
|---|---|---|
| Server.AppendCapped | server.js:78-80 | a community message is appended at the end and the oldest one is dropped only when the log passes 200; a log within the cap stays within it, ends with the new message, and is a suffix of the old log plus the new message |
| Server.AppendAll | server.js:77-83 | however many community messages arrive one after another, a log that starts within the cap stays within it and ends with the latest message |
| Server.SweptRooms | server.js:47-53 | the sweep keeps a room iff `now <= expiresAt` (strict-inequality expiry) and leaves each kept room untouched |
| Server.ExpiryNotices | server.js:50 | one `CHAT_CLOSED` with reason expired per removed room id, to everyone, in order |
| Server.SweepSettles | server.js:43-54 | sweeping again at the same instant removes nothing more, and a later sweep never restores a room |
| Server.SweepStep | server.js:47-53 | one step of the room walk deletes the room if it is expired, with a notice, and otherwise keeps it in the order and the map |
| Server.SweepRooms | server.js:47-53 | walking the rooms in their order and deleting each expired one as it is met leaves exactly the rooms of `SweptRooms`, the live ids in their order, and one expiry notice per deleted room in that order |
| Server.ExtendRoom | server.js:104-113 | only a present room that has not been extended changes: it becomes extended with `expiresAt = now + 1800000`, its other fields kept; an absent or already extended room and every other room stay as they were |
| Server.ExtendAtMostOnce | server.js:106-108 | a second `CHAT_EXTEND`, at any later time, leaves the rooms exactly as the first left them |
| Server.AddParticipant | server.js:132-134 | the caller's id is in the result, the old participants stay as a prefix, at most one id is added, nothing is added when the id is already listed, and a duplicate-free list stays duplicate-free |
| Server.FirstWithCode | server.js:122-128 | the result is absent iff no room in order has the code; otherwise it is a room with the code and no earlier room in order has it |
| Server.SessionEngine.constructor | server.js:16-21 | empty registry, log and rooms; the community and site deadlines are 30 and 120 minutes away |
| Server.SessionEngine.ResetCommunityAt | server.js:23-28 | the log is emptied, the community deadline is `now + 1800000`, users, rooms and the site deadline are unchanged, and `RESET_COMMUNITY` with the new deadline goes to everyone |
| Server.SessionEngine.ResetSiteAt | server.js:30-38 | users, log and rooms are all emptied, the deadlines become `now + 1800000` and `now + 7200000`, and `RESET_SITE` with the site deadline goes to everyone |
| Server.SessionEngine.Sweep | server.js:43-54 | the log becomes exactly the old messages with `now - timestamp < 300000` in their order, the rooms become `SweptRooms`, one expiry notice goes out per removed room, and users and deadlines are unchanged |
| Server.SessionEngine.Connect | server.js:60-65 | the connecting socket alone receives the log, both deadlines and the registered users |
| Server.SessionEngine.OnHeartbeat | server.js:67-75 | without a user nothing changes and nothing is sent; otherwise only this socket's entry is overwritten, with the socket id attached, and every other socket is told |
| Server.SessionEngine.OnMessage | server.js:77-83 | a community message goes through `AppendCapped`, any other room id leaves the log unchanged, and the message is broadcast in every case |
| Server.SessionEngine.OnChatRequest | server.js:85-88 | the request is relayed to every socket but the sender's, and nothing is stored |
| Server.SessionEngine.OnChatAccept | server.js:90-94 | the room is stored under its id; a new id goes to the end of the order and a known one keeps its place; the acceptance is relayed to everyone |
| Server.SessionEngine.OnChatExit | server.js:96-102 | a present room is removed, with exactly one `CHAT_CLOSED` with reason exit; an absent id changes nothing and sends nothing |
| Server.SessionEngine.OnChatExtend | server.js:104-113 | the rooms become `ExtendRoom` of the old ones; `CHAT_EXTENDED` goes out only when the extension was granted; the order is unchanged |
| Server.SessionEngine.FindRoomByCode | server.js:122-128 | the search loop returns `FirstWithCode` over the rooms in insertion order |
| Server.SessionEngine.OnChatRejoin | server.js:115-141 | an unknown socket gets 'Connection issue. Please wait.' and an unknown code gets 'Invalid or Expired Secret Key', both sent to the caller only and changing nothing; otherwise the caller's user id is added, without duplicates, to the first room with the code, and that room is broadcast as `CHAT_ACCEPT` |
| Server.SessionEngine.OnDisconnect | server.js:143-146 | only this socket's registry entry is deleted |
| Moderation.SameLineCorrect | moderation.js:21 | the scanner for `first.*second` accepts iff `second` starts at or after the end of an occurrence of `first` with no line terminator between them |
| Moderation.OccursCorrect | moderation.js:21 | the scanner for a single word accepts iff the word occurs somewhere, letters compared case-insensitively |
| Moderation.CriticalPatternCorrect | moderation.js:21 | the executable pattern test agrees with the reference meaning of all eight alternatives of the critical expression |
| Moderation.CriticalPattern | moderation.js:21 | the executable test of the critical expression; `Moderation.CriticalPatternCorrect` proves it equal to the reference meaning of all eight alternatives |
| Moderation.ClassifierReply | moderation.js:38-42 | a reply maps to BLOCKED iff, trimmed, it spells BLOCKED in any case, and to BORDERLINE iff it spells BORDERLINE |
| Moderation.ClassifierVerdict | moderation.js:38-42 | the verdict a classifier outcome maps to; `Moderation.ClassifierReply` proves that a reply gives BLOCKED iff, trimmed, it spells BLOCKED in any case, and BORDERLINE iff it spells BORDERLINE |
| Moderation.Moderate | moderation.js:17-48 | blank text is ALLOWED whatever the classifier says; non-blank text that matches the pattern is BLOCKED whatever the classifier says; any other text gets the classifier's mapped verdict; a failed call blocks only a pattern match; BORDERLINE never goes with a pattern match |
| Moderation.FailOpen | moderation.js:43-47 | with the classifier down, nothing is BORDERLINE and text that does not match the pattern is ALLOWED |
| Moderation.PatternSpansHyphen | moderation.js:21-24 | "BOMB-making" is BLOCKED even when the classifier answers ALLOWED |
| JsText.Trim | moderation.js:18 | the result is a slice of the input with only trimmable characters cut from both ends, begins and ends with a non-trimmable character, and is empty iff the input is all whitespace |
| JsText.TrimIdempotent | components/ChatBox.tsx:89-90 | trimming a trimmed text changes nothing |
| JsText.UpperEqualsWordIff | moderation.js:38-41 | `toUpperCase(t)` equals an upper-case ASCII word iff `t` spells it with each letter in either case |
| JsText.PaddedRoundTrip | App.tsx:98 | a padded decimal string is all digits, reads back as the number, and below 100 is exactly two characters |
| Helpers.DrawIndex | utils/helpers.ts:10 | `floor(r * n)` is an index below `n` |
| Helpers.DrawFor | utils/helpers.ts:10 | every index below `n` is produced by some draw |
| Helpers.AlphabetShape | utils/helpers.ts:7 | the alphabet has 32 distinct characters and contains none of I, O, 0 and 1 |
| Helpers.GenerateReconnectCode | utils/helpers.ts:6-13 | the loop builds exactly 6 alphabet characters, the k-th one chosen by the k-th draw |
| Helpers.EveryCodeReachable | utils/helpers.ts:6-13 | every 6-character code over the alphabet is generated by some draws |
| Helpers.GenerateUsername | utils/helpers.ts:4 | "GHOST-" followed by 5 digits, 11 characters in all, reading back as `floor(r * 90000 + 10000)`, which lies in [10000, 99999] |
| Helpers.EveryUsernameReachable | utils/helpers.ts:4 | every number in [10000, 99999] is generated by some draw |
| Helpers.WelcomePrompt | utils/helpers.ts:78-83 | the prompt is from the day pool when `6 <= hour < 18` and from the night pool otherwise |
| Helpers.PoolShape | utils/helpers.ts:24-76 | each prompt pool has 24 entries |
| App.AddMessage | App.tsx:111-114 | a message whose id is listed leaves the list unchanged; any other message is appended at the end; the id is listed afterwards |
| App.AddMessageIdempotent | App.tsx:186-191 | receiving the same message twice is the same as receiving it once, and a list without repeated ids keeps that property |
| App.MergeInit | App.tsx:169-173 | the previous list is kept as a prefix; what follows is exactly the incoming messages, none if the field is missing, whose ids were not already listed, in their incoming order |
| App.MergeInitIdempotent | App.tsx:168-175 | a repeated `INIT_STATE` with the same log adds nothing |
| App.MergeInitDistinct | App.tsx:169-173 | if neither the list nor the incoming log repeats an id, the merge does not either |
| App.ClearCommunity | App.tsx:193-196 | exactly the messages whose room is not the community room are kept |
| App.ClearCommunityOrder | App.tsx:88 | the reset filter distributes over concatenation, so the order of what remains is kept; a list without community messages is left as it is; clearing twice is clearing once |
| App.ActiveMessages | App.tsx:233-240 | exactly the messages in the active room that are not reported and not from a hidden sender are selected, in order |
| App.ActiveMessagesAppend | App.tsx:233-240 | an arriving message appears at the end of the selection exactly when the selector admits it |
| App.CountdownParts | App.tsx:95-97 | the seconds part is below 60, and minutes times 60 plus seconds is the remaining time `max(0, end - now)` in whole seconds |
| App.ClockTextReadsBack | App.tsx:98 | the `mm:ss` text holds a colon before the last two characters, its two parts read back as the minutes and the seconds, and below 100 minutes it is 5 characters |
| App.CountdownReadsBack | App.tsx:94-99 | the global countdown text (the room tabs at App.tsx:417-420 use the same arithmetic) reads back as whole minutes and seconds that add up to the remaining time, with seconds below 60 |
| App.Countdown | App.tsx:94-99 | the `mm:ss` text of `timeLeftGlobal` and of each room tab (App.tsx:417-420); `App.CountdownReadsBack` proves it reads back as the remaining whole seconds |
| App.RequestOnce | App.tsx:121 | once a target has been requested, the guard blocks every further request to it |
| App.MayRequest | App.tsx:119-126 | every guard of `sendRequest`; `App.RequestOnce` proves a requested target is refused from then on, and `App.ClientSession.SendRequest` sends exactly when it holds |
| App.MayReceive | App.tsx:203-205 | the guard of the `CHAT_REQUEST` handler; `App.ClientSession.OnChatRequest` shows a request exactly when it holds |
| App.DecidingRefuses | App.tsx:203-205 | while the user is deciding, every incoming request is refused, so a shown request is never replaced |
| App.ClientSession.constructor | App.tsx:44-75 | the initial client state: not open to private chat, not deciding, no rooms or messages, the community view, and a reset deadline 30 minutes away |
| App.ClientSession.ToggleOpenToPrivate | App.tsx:62-65 | the toggle flips the flag and copies it into the user's `acceptingRequests`; every field the handler does not set keeps its old value |
| App.ClientSession.Tick | App.tsx:81-92 | the clock advances; only while the community view is shown and its deadline has passed are the community messages cleared; every field the handler does not set keeps its old value |
| App.ClientSession.SendMessage | App.tsx:101-117 | the message is stamped with the user, `now` and the active room, added by id, and sent; every field the handler does not set keeps its old value |
| App.ClientSession.SendRequest | App.tsx:119-142 | when the target is oneself, already requested, or busy or not accepting, or when any private room exists, nothing is sent and the requested set is unchanged; otherwise the request is sent and the target id is added to the set; every field the handler does not set keeps its old value |
| App.ClientSession.AcceptRequest | App.tsx:144-165 | with a private room present, nothing is sent; otherwise the room sent is the requester and the recipient, with a valid reconnect code, created at `now` and expiring at `now + 1800000`; either way the request is dropped and `isDeciding` becomes false; every field the handler does not set keeps its old value |
| App.ClientSession.OnInitState | App.tsx:168-175 | the list becomes `MergeInit` of the old one and the reset deadline is taken; every field the handler does not set keeps its old value |
| App.ClientSession.OnHeartbeat | App.tsx:177-184 | the peer is recorded as active at `now`, and the reset deadline is taken only when present and non-zero; every field the handler does not set keeps its old value |
| App.ClientSession.OnMessage | App.tsx:186-191 | the list becomes `AddMessage` of the old one; every field the handler does not set keeps its old value |
| App.ClientSession.OnResetCommunity | App.tsx:193-196 | the community messages are removed and the new deadline is taken; every field the handler does not set keeps its old value |
| App.ClientSession.OnChatRequest | App.tsx:202-215 | the request is shown and `isDeciding` set iff it is addressed to this user, who is open to private chat, has no room and is not deciding; a shown request is never replaced; every field the handler does not set keeps its old value |
| App.ClientSession.ExpireRequest | App.tsx:208-211 | the 30-second expiry drops the request and clears `isDeciding`; every field the handler does not set keeps its old value |
| App.ClientSession.IgnoreRequest | App.tsx:372 | Ignore drops the request but leaves `isDeciding` as it was; every field the handler does not set keeps its old value |
| App.ClientSession.OnChatAccept | App.tsx:217-228 | the room is stored under its id, and the view switches to it iff this user is a participant; every field the handler does not set keeps its old value |
| App.ClientSession.SelectCommunity | App.tsx:410 | the community view becomes active; every field the handler does not set keeps its old value |
| App.ClientSession.SelectRoom | App.tsx:425 | a known private room becomes active; every field the handler does not set keeps its old value |
| App.ClientSession.HideUser | App.tsx:448 | the user is added to the hidden set, and none of their messages is in the active selection; every other field keeps its old value, and since no other handler changes the hidden set, the user stays hidden after later events |
| ChatBox.Visible | components/ChatBox.tsx:34 | exactly the messages with `currentTime - timestamp < 301000` |
| ChatBox.FilterMessages | components/ChatBox.tsx:29-43 | outside the community view the messages as given; in it, the previous list when it has the window's length and the same last id (or both are empty), and the window otherwise |
| ChatBox.KeepingPreviousIsSound | components/ChatBox.tsx:36-42 | if the messages only grew by appending (ids distinct) and the clock did not go back since the previous list was computed, the list kept is exactly the current window |
| ChatBox.ExpiringWindow | components/ChatBox.tsx:134-135 | a listed community message is marked fading iff its age is in [300000, 301000) |
| ChatBox.IsExpiring | components/ChatBox.tsx:135 | a community message at least 300000 ms old; `ChatBox.ExpiringWindow` proves a listed one fades iff its age is in [300000, 301000) |
| ChatBox.CompactRunSender | components/ChatBox.tsx:132-133 | in a run of compact messages, every one has the sender of the message that opens the run |
| ChatBox.IsCompact | components/ChatBox.tsx:133 | a message with a predecessor from the same sender less than 60000 ms earlier; `ChatBox.CompactRunSender` proves a compact run has one sender |
| ChatBox.HandleSubmit | components/ChatBox.tsx:88-96 | a non-blank input is sent trimmed and the input cleared; a blank one sends nothing and leaves the input as it was |
| ChatBox.SubmitStable | components/ChatBox.tsx:89-90 | submitting the text that was sent would send the same text |

## Left out

- Server plumbing is not modelled: the Express and socket.io setup, CORS, static files and `listen` (server.js:1-14, 149-158). The `setInterval` scheduling (server.js:40-41, 43) is replaced by methods that take `now`. Logging is dropped. `io.emit`, `socket.emit` and `socket.broadcast.emit` become the returned `Emission` records.
- The classifier call and `generateTopic` (moderation.js:28-36, 55-75) are network calls. The classifier's reply, missing reply or failure is the `ClassifierOutcome` parameter.
- `generateId` (utils/helpers.ts:2) is float text: ids are parameters. `formatTime` (utils/helpers.ts:15-22) depends on `Intl` and is not part of this model. `new Date().getHours()` becomes the `hour` parameter.
- Helpers.GenerateUsername: the real product `r * 90000` is exact here, whereas JavaScript rounds it to a double. Around integer boundaries the two floors could differ by one; the [10000, 99999] range holds either way.
- JsText.ToUpperCase: maps only the characters whose upper case can be an ASCII letter (a-z, U+0131, U+017F). Every other character is left unchanged, so the result can differ from JavaScript's elsewhere. Comparisons with BLOCKED and BORDERLINE, the only use, come out the same.
- Moderate: a missing `text` (a falsy non-string) is not modelled; the input is always a string.
- Server.SessionEngine.Connect: the registered users are a set, because the registry's iteration order is not modelled.
- The client's `Date.now()` readings are one `now` per handler. `acceptRequest` reads the clock twice (App.tsx:157-158), and the model uses one reading for both.
- ChatBox.ExpiringWindow: uses one clock. The panel's 500 ms ticker (components/ChatBox.tsx:23-26, with its `now` state at components/ChatBox.tsx:21) and the reading inside `filterMessages` can differ by up to a tick, and the model does not capture that difference.
- ChatBox.KeepingPreviousIsSound: covers only the case where the message list grew by appending since the last run. Mixed changes, such as hiding a user while messages arrive, are not covered.
- React mechanics are not modelled: rendering, stale closures over `currentUser` and `privateRooms.size` in the socket handlers, effect ordering, scrolling, resize listeners, `alert` and `window.location.reload` on `RESET_SITE` (App.tsx:199), and the cleanup `return () => socket.close()` (App.tsx:230), which runs whenever `privateRooms.size` changes. The timer handles of the 30-second request expiry (App.tsx:152, 207-211) are also out; the expiry itself is the method `ExpireRequest`.
- The age gate, the peer list, the notification menu, the key alert and the reconnect modal are UI and are not modelled. The modal's "Restore" button (App.tsx:497-503) looks the code up in the client's own rooms and never sends `CHAT_REJOIN`.
- services/socketService.ts is a thin wrapper over socket.io-client and is not part of this model.
- The field `rejoinStartedAt` is declared but never read or written; it is carried as an `Option` and nothing more.

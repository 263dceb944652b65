/**
  The view rules of the chat panel (components/ChatBox.tsx): which messages
  the panel lists, which of them are drawn compact or fading, and what a
  submit sends.
 */
module ChatBox {
  import opened Types
  import opened Seqs
  import opened JsText

  /** The community panel lists messages younger than 301 seconds. */
  const VISIBLE_AGE: int := 301000
  /** From five minutes of age a community message fades out. */
  const EXPIRING_AGE: int := 300000
  /** A message within a minute of the previous one from the same sender
      is drawn compact. */
  const COMPACT_GAP: int := 60000

  function IsVisibleAt(currentTime: int): Message -> bool {
    (m: Message) => currentTime - m.timestamp < VISIBLE_AGE
  }

  /** The messages the community panel may list at `currentTime`. */
  function Visible(messages: seq<Message>, currentTime: int): (r: seq<Message>)
    ensures forall m :: m in r <==> m in messages && currentTime - m.timestamp < VISIBLE_AGE
    ensures |r| <= |messages|
  {
    forall m ensures m in Filter(messages, IsVisibleAt(currentTime)) <==> m in messages && IsVisibleAt(currentTime)(m) {
      FilterMembership(messages, IsVisibleAt(currentTime), m);
    }
    Filter(messages, IsVisibleAt(currentTime))
  }

  /** The test by which `filterMessages` keeps the list it already shows:
      same length, and both empty or ending in the same id. */
  predicate LooksUnchanged(prev: seq<Message>, filtered: seq<Message>) {
    |prev| == |filtered| && (|prev| == 0 || prev[|prev| - 1].id == filtered[|filtered| - 1].id)
  }

  /** The list `filterMessages` stores: outside the community room the
      messages as given; in it, the previous list when it looks unchanged
      and otherwise the window at `currentTime`. */
  function FilterMessages(isCommunity: bool, messages: seq<Message>, currentTime: int, prev: seq<Message>): (r: seq<Message>)
    ensures !isCommunity ==> r == messages
    ensures isCommunity ==> |r| == |Visible(messages, currentTime)|
    ensures isCommunity ==> r == prev || r == Visible(messages, currentTime)
    ensures isCommunity && !LooksUnchanged(prev, Visible(messages, currentTime)) ==> r == Visible(messages, currentTime)
    ensures isCommunity && LooksUnchanged(prev, Visible(messages, currentTime)) ==> r == prev
  {
    if !isCommunity then messages
    else
      var filtered := Visible(messages, currentTime);
      if LooksUnchanged(prev, filtered) then prev else filtered
  }

  /** No message of `before` shares its id with a message of `added`. */
  lemma {:induction false} OldAndNewIdsDiffer(before: seq<Message>, added: seq<Message>, p: Message, m: Message)
    requires DistinctBy(before + added, MessageId)
    requires p in before && m in added
    ensures p.id != m.id
  {
    var i :| 0 <= i < |before| && before[i] == p;
    var j :| 0 <= j < |added| && added[j] == m;
    assert (before + added)[i] == p && (before + added)[|before| + j] == m;
    assert MessageId(p) != MessageId(m);
  }

  /** Under the append-only hypothesis, a list that looks unchanged has
      no newly visible message at its end. */
  lemma {:induction false} NothingNewSeen(before: seq<Message>, added: seq<Message>, t0: int, t: int)
    requires DistinctBy(before + added, MessageId)
    requires LooksUnchanged(Visible(before, t0), Filter(before, IsVisibleAt(t)) + Filter(added, IsVisibleAt(t)))
    ensures Filter(added, IsVisibleAt(t)) == []
  {
    var prev := Visible(before, t0);
    var late := Filter(added, IsVisibleAt(t));
    var filtered := Filter(before, IsVisibleAt(t)) + late;
    if late != [] {
      var m := late[|late| - 1];
      assert m == filtered[|filtered| - 1];
      FilterMembership(added, IsVisibleAt(t), m);
      var p := prev[|prev| - 1];
      assert p in prev;
      OldAndNewIdsDiffer(before, added, p, m);
      assert false;
    }
  }

  /** Keeping the previous list never shows a stale one, as long as the
      messages only grew by appending since it was computed and the clock
      did not go back: the list shown is then exactly the current window. */
  lemma {:induction false} KeepingPreviousIsSound(before: seq<Message>, added: seq<Message>, t0: int, t: int)
    requires DistinctBy(before + added, MessageId)
    requires t0 <= t
    ensures FilterMessages(true, before + added, t, Visible(before, t0)) == Visible(before + added, t)
  {
    var prev := Visible(before, t0);
    var filtered := Visible(before + added, t);
    if LooksUnchanged(prev, filtered) {
      FilterConcat(before, added, IsVisibleAt(t));
      NothingNewSeen(before, added, t0, t);
      assert filtered == Filter(before, IsVisibleAt(t));
      FilterNarrow(before, IsVisibleAt(t0), IsVisibleAt(t));
      FilterSameLength(prev, IsVisibleAt(t));
    }
  }

  /** `isExpiring`: a community message at least five minutes old. */
  predicate IsExpiring(isCommunity: bool, now: int, m: Message) {
    isCommunity && now - m.timestamp >= EXPIRING_AGE
  }

  /** A listed community message fades only during the last second of its
      visibility: between 300 and 301 seconds of age. */
  lemma ExpiringWindow(messages: seq<Message>, now: int, m: Message)
    ensures m in Visible(messages, now) && IsExpiring(true, now, m) <==>
      m in messages && EXPIRING_AGE <= now - m.timestamp < VISIBLE_AGE
  {
  }

  /** `isCompact` for the message at `idx` of the listed messages: there is
      a previous one, from the same sender, less than a minute earlier. */
  predicate IsCompact(shown: seq<Message>, idx: nat)
    requires idx < |shown|
  {
    idx > 0 && shown[idx - 1].senderId == shown[idx].senderId && shown[idx].timestamp - shown[idx - 1].timestamp < COMPACT_GAP
  }

  /** A run of compact messages all come from the sender of the message
      that opens the run. */
  lemma {:induction false} CompactRunSender(shown: seq<Message>, start: nat, idx: nat)
    requires start <= idx < |shown|
    requires forall k :: start < k <= idx ==> IsCompact(shown, k)
    ensures shown[idx].senderId == shown[start].senderId
    decreases idx - start
  {
    if idx > start {
      assert IsCompact(shown, idx);
      CompactRunSender(shown, start, idx - 1);
    }
  }

  /** `handleSubmit`: a text that is not blank is sent trimmed and the input
      is cleared; a blank one sends nothing and keeps the input. */
  function HandleSubmit(input: string): (r: (Option<string>, string))
    ensures r.0.Some? <==> !AllTrimmable(input)
    ensures r.0.Some? ==> r.0.value == Trim(input) && r.1 == ""
    ensures r.0.Some? ==> !IsTrimmable(r.0.value[0]) && !IsTrimmable(r.0.value[|r.0.value| - 1])
    ensures r.0.None? ==> r.1 == input
  {
    var text := Trim(input);
    if text != [] then (Some(text), "") else (None, input)
  }

  /** What is sent would be sent unchanged if it were typed again. */
  lemma SubmitStable(input: string)
    requires HandleSubmit(input).0.Some?
    ensures HandleSubmit(HandleSubmit(input).0.value).0 == HandleSubmit(input).0
  {
    TrimIdempotent(input);
  }
}

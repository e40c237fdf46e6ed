/** The outbound bridge's decision logic (src/main.rs lines 159-219): the
    cursor `telegram_update_id`, the long-poll reply handling, and the walk
    over the `result` array that publishes each update and moves the cursor
    past it. The cursor is overwritten with `update_id + 1`, never max-ed. */
module Outbound {

  import opened Wrappers
  import opened TelegramApi

  /** `let mut telegram_update_id: u64 = 1` (src/main.rs line 159). */
  const InitialCursor: nat := 1

  /** One element of the `result` array, seen through the two questions the
      loop asks of it: `id` is `update["update_id"].as_u64()`, `text` is
      `serde_json::to_string(update)` (`None` when serialization fails). */
  datatype Update = Update(id: Option<nat>, text: Option<string>)

  /** One MQTT publish the loop attempted, with the broker's verdict; the
      verdict is only ever logged. */
  datatype Publish = Publish(payload: string, delivered: bool)

  /** The loop's state while it walks one `result` array. */
  datatype State = State(cursor: nat, sent: seq<Publish>)

  /** How one long-poll attempt ended: the POST failed, the body could not
      be read, the body was not JSON, or a JSON value whose `result` field
      is an array (`Some`) or is missing / not an array (`None`). */
  datatype PollReply =
    | SendFailed
    | BodyUnreadable
    | NotJson
    | Json(result: Option<seq<Update>>)

  /** Handling of one array element (src/main.rs lines 184-216): without a
      u64 `update_id` it is skipped; otherwise it is published when it
      serializes, and the cursor becomes `update_id + 1` in every case. */
  function Step(s: State, u: Update, delivered: bool): State
  {
    match u.id
    case None => s
    case Some(id) =>
      var sent := if u.text.Some? then s.sent + [Publish(u.text.value, delivered)] else s.sent;
      State(id + 1, sent)
  }

  /** `for update in updates` (src/main.rs line 181): the elements in array
      order. `broker(i)` is the outcome of the publish for element `i`. */
  function Process(s: State, us: seq<Update>, broker: nat -> bool): State
    decreases |us|
  {
    if |us| == 0 then s
    else Step(Process(s, us[..|us| - 1], broker), us[|us| - 1], broker(|us| - 1))
  }

  /** One turn of the outer loop after the poll request (src/main.rs lines
      175-235): only a JSON reply with a `result` array does anything. */
  function Cycle(cursor: nat, reply: PollReply, broker: nat -> bool): State
  {
    match reply
    case Json(Some(us)) => Process(State(cursor, []), us, broker)
    case _ => State(cursor, [])
  }

  // ---------------------------------------------------------------------
  // Reference definitions, written independently of the fold above.

  /** The payloads that must be published for an array: the serialized text
      of every element that has an id and serializes, in array order. */
  function Payloads(us: seq<Update>): (ps: seq<string>)
    ensures |ps| <= |us|
  {
    if |us| == 0 then []
    else
      (if us[0].id.Some? && us[0].text.Some? then [us[0].text.value] else [])
      + Payloads(us[1..])
  }

  /** The payloads of a list of publishes. */
  function PayloadsOf(sent: seq<Publish>): seq<string>
  {
    seq(|sent|, i requires 0 <= i < |sent| => sent[i].payload)
  }

  /** The id of the last element that carries one. */
  function LastId(us: seq<Update>): (r: Option<nat>)
    ensures r.None? <==> forall k | 0 <= k < |us| :: us[k].id.None?
    ensures r.Some? ==>
      exists k | 0 <= k < |us| :: us[k].id == r && forall j | k < j < |us| :: us[j].id.None?
  {
    if |us| == 0 then None
    else
      match LastId(us[1..])
      case Some(v) =>
        var k :| 0 <= k < |us[1..]| && us[1..][k].id == Some(v) && forall j | k < j < |us[1..]| :: us[1..][j].id.None?;
        assert us[k + 1].id == Some(v);
        assert forall j | k + 1 < j < |us| :: us[j].id == us[1..][j - 1].id;
        Some(v)
      case None =>
        assert forall j | 0 < j < |us| :: us[j].id == us[1..][j - 1].id;
        us[0].id
  }

  /** The cursor a `result` array leaves behind: one past the last id, or
      the old cursor when no element has an id. */
  function CursorAfter(cursor: nat, us: seq<Update>): nat
  {
    match LastId(us)
    case None => cursor
    case Some(id) => id + 1
  }

  /** The precondition under which the cursor is monotone: every id in the
      array is at least `cursor` and ids strictly ascend in array order. */
  predicate AscendingFrom(cursor: nat, us: seq<Update>)
  {
    && (forall k | 0 <= k < |us| && us[k].id.Some? :: us[k].id.value >= cursor)
    && (forall i, j | 0 <= i < j < |us| && us[i].id.Some? && us[j].id.Some? ::
          us[i].id.value < us[j].id.value)
  }

  // ---------------------------------------------------------------------
  // The fold against the reference definitions.

  lemma {:induction false} PayloadsSnoc(us: seq<Update>, u: Update)
    ensures Payloads(us + [u])
         == Payloads(us) + (if u.id.Some? && u.text.Some? then [u.text.value] else [])
    decreases |us|
  {
    if |us| == 0 {
      assert us + [u] == [u];
      assert [u][1..] == [];
    } else {
      assert (us + [u])[1..] == us[1..] + [u];
      PayloadsSnoc(us[1..], u);
    }
  }

  lemma {:induction false} LastIdSnoc(us: seq<Update>, u: Update)
    ensures LastId(us + [u]) == if u.id.Some? then u.id else LastId(us)
    decreases |us|
  {
    if |us| == 0 {
      assert us + [u] == [u];
      assert [u][1..] == [];
    } else {
      assert (us + [u])[1..] == us[1..] + [u];
      LastIdSnoc(us[1..], u);
    }
  }

  /** The published payloads are exactly the id-bearing, serializable
      elements, in array order, after whatever was published before. */
  lemma {:induction false} ProcessPublishes(s: State, us: seq<Update>, broker: nat -> bool)
    ensures PayloadsOf(Process(s, us, broker).sent) == PayloadsOf(s.sent) + Payloads(us)
    decreases |us|
  {
    if |us| == 0 {
    } else {
      var n := |us| - 1;
      var prev := Process(s, us[..n], broker);
      ProcessPublishes(s, us[..n], broker);
      PayloadsSnoc(us[..n], us[n]);
      assert us[..n] + [us[n]] == us;
      if us[n].id.Some? && us[n].text.Some? {
        PayloadsOfSnoc(prev.sent, Publish(us[n].text.value, broker(n)));
      }
    }
  }

  lemma PayloadsOfSnoc(sent: seq<Publish>, p: Publish)
    ensures PayloadsOf(sent + [p]) == PayloadsOf(sent) + [p.payload]
  {
    assert PayloadsOf(sent + [p])[..|sent|] == PayloadsOf(sent);
  }

  /** The cursor ends one past the id of the last element that has one, or
      unchanged when none has. */
  lemma {:induction false} ProcessCursor(s: State, us: seq<Update>, broker: nat -> bool)
    ensures Process(s, us, broker).cursor == CursorAfter(s.cursor, us)
    decreases |us|
  {
    if |us| == 0 {
    } else {
      var n := |us| - 1;
      ProcessCursor(s, us[..n], broker);
      LastIdSnoc(us[..n], us[n]);
      assert us[..n] + [us[n]] == us;
    }
  }

  /** Publish outcomes never influence the cursor or what is published: a
      failed publish still moves the cursor past its update. */
  lemma BrokerIrrelevant(s: State, us: seq<Update>, b1: nat -> bool, b2: nat -> bool)
    ensures Process(s, us, b1).cursor == Process(s, us, b2).cursor
    ensures PayloadsOf(Process(s, us, b1).sent) == PayloadsOf(Process(s, us, b2).sent)
  {
    ProcessCursor(s, us, b1);
    ProcessCursor(s, us, b2);
    ProcessPublishes(s, us, b1);
    ProcessPublishes(s, us, b2);
  }

  /** One poll cycle, stated against the reference definitions: anything but
      a JSON `result` array publishes nothing and keeps the cursor. */
  lemma CycleEffect(cursor: nat, reply: PollReply, broker: nat -> bool)
    ensures var r := Cycle(cursor, reply, broker);
      match reply
      case Json(Some(us)) => r.cursor == CursorAfter(cursor, us) && PayloadsOf(r.sent) == Payloads(us)
      case _ => r.cursor == cursor && r.sent == []
  {
    if reply.Json? && reply.result.Some? {
      ProcessCursor(State(cursor, []), reply.result.value, broker);
      ProcessPublishes(State(cursor, []), reply.result.value, broker);
    }
  }

  /** The elements that carry a u64 id, in array order. */
  function WithIds(us: seq<Update>): (vs: seq<Update>)
    ensures |vs| <= |us|
    ensures forall k | 0 <= k < |vs| :: vs[k].id.Some?
  {
    if |us| == 0 then []
    else (if us[0].id.Some? then [us[0]] else []) + WithIds(us[1..])
  }

  /** Elements without a u64 `update_id` are invisible: dropping them from
      the array changes neither the cursor nor the published payloads. */
  lemma IdlessElementsInvisible(s: State, us: seq<Update>, b1: nat -> bool, b2: nat -> bool)
    ensures Process(s, WithIds(us), b2).cursor == Process(s, us, b1).cursor
    ensures PayloadsOf(Process(s, WithIds(us), b2).sent) == PayloadsOf(Process(s, us, b1).sent)
  {
    ProcessCursor(s, us, b1);
    ProcessCursor(s, WithIds(us), b2);
    ProcessPublishes(s, us, b1);
    ProcessPublishes(s, WithIds(us), b2);
    WithIdsKeeps(us);
  }

  lemma {:induction false} WithIdsKeeps(us: seq<Update>)
    ensures LastId(WithIds(us)) == LastId(us)
    ensures Payloads(WithIds(us)) == Payloads(us)
    decreases |us|
  {
    if |us| == 0 {
    } else {
      WithIdsKeeps(us[1..]);
      var rest := WithIds(us[1..]);
      if us[0].id.Some? {
        assert WithIds(us) == [us[0]] + rest;
        assert ([us[0]] + rest)[1..] == rest;
      } else {
        assert WithIds(us) == rest;
      }
    }
  }

  // ---------------------------------------------------------------------
  // Monotonicity of the cursor.

  /** Under ascending ids that start at or above the cursor, no element of
      the array moves the cursor backwards. */
  lemma CursorStepMonotone(c: nat, sent: seq<Publish>, us: seq<Update>, broker: nat -> bool, i: nat)
    requires AscendingFrom(c, us)
    requires i < |us|
    ensures Process(State(c, sent), us[..i], broker).cursor <= Process(State(c, sent), us[..i + 1], broker).cursor
  {
    var s := State(c, sent);
    assert us[..i + 1][..i] == us[..i];
    ProcessCursor(s, us[..i], broker);
    if us[i].id.Some? {
      match LastId(us[..i])
      case None =>
      case Some(v) =>
        var k :| 0 <= k < i && us[..i][k].id == Some(v);
        assert us[k].id == Some(v);
    }
  }

  /** Under ascending ids that start at or above the cursor, the cursor
      after any prefix of the array is at most the cursor after any longer
      prefix, and it finally lies past every id of the array. */
  lemma {:induction false} CursorNeverDecreases(c: nat, sent: seq<Publish>, us: seq<Update>, broker: nat -> bool)
    requires AscendingFrom(c, us)
    ensures forall i, j | 0 <= i <= j <= |us| ::
      Process(State(c, sent), us[..i], broker).cursor <= Process(State(c, sent), us[..j], broker).cursor
    ensures forall k | 0 <= k < |us| && us[k].id.Some? ::
      us[k].id.value < Process(State(c, sent), us, broker).cursor
  {
    forall i, j | 0 <= i <= j <= |us|
      ensures Process(State(c, sent), us[..i], broker).cursor <= Process(State(c, sent), us[..j], broker).cursor
    {
      CursorChain(c, sent, us, broker, i, j);
    }
    ProcessCursor(State(c, sent), us, broker);
    forall k | 0 <= k < |us| && us[k].id.Some?
      ensures us[k].id.value < Process(State(c, sent), us, broker).cursor
    {
      var v := LastId(us).value;
      var m :| 0 <= m < |us| && us[m].id == Some(v) && forall j | m < j < |us| :: us[j].id.None?;
      assert k <= m;
    }
  }

  lemma {:induction false} CursorChain(c: nat, sent: seq<Publish>, us: seq<Update>, broker: nat -> bool, i: nat, j: nat)
    requires AscendingFrom(c, us)
    requires i <= j <= |us|
    ensures Process(State(c, sent), us[..i], broker).cursor <= Process(State(c, sent), us[..j], broker).cursor
    decreases j - i
  {
    if i < j {
      CursorStepMonotone(c, sent, us, broker, i);
      CursorChain(c, sent, us, broker, i + 1, j);
    }
  }

  /** Without the ordering precondition the cursor can move backwards: it is
      overwritten, not max-ed. */
  lemma CursorCanDecrease()
    ensures Process(State(5, []), [Update(Some(2), Some("u2"))], _ => true).cursor == 3
    ensures Process(State(1, []), [Update(Some(7), None), Update(Some(3), None)], _ => true).cursor == 4
  {
    ProcessCursor(State(5, []), [Update(Some(2), Some("u2"))], _ => true);
    ProcessCursor(State(1, []), [Update(Some(7), None), Update(Some(3), None)], _ => true);
  }

  /** A reply with updates 5 and 6 read from cursor 5 publishes both, in
      order, and leaves the cursor at 7, even if both publishes fail. */
  lemma TwoUpdatesExample(t5: string, t6: string, broker: nat -> bool)
    ensures var r := Cycle(5, Json(Some([Update(Some(5), Some(t5)), Update(Some(6), Some(t6))])), broker);
      r.cursor == 7 && PayloadsOf(r.sent) == [t5, t6]
  {
    var us := [Update(Some(5), Some(t5)), Update(Some(6), Some(t6))];
    CycleEffect(5, Json(Some(us)), broker);
    assert us[1..][1..] == [];
  }

  /** An empty `result` array publishes nothing and keeps the cursor. */
  lemma EmptyResultExample(cursor: nat, broker: nat -> bool)
    ensures Cycle(cursor, Json(Some([])), broker) == State(cursor, [])
  {
  }

  // ---------------------------------------------------------------------
  // The imperative walk, as the source writes it.

  /** Handles one poll reply by walking the `result` array with a loop, as
      the source does; returns the new cursor and the publishes issued. */
  method HandleReply(cursor: nat, reply: PollReply, broker: nat -> bool) returns (next: nat, sent: seq<Publish>)
    ensures State(next, sent) == Cycle(cursor, reply, broker)
    ensures reply.Json? && reply.result.Some? ==>
      next == CursorAfter(cursor, reply.result.value) && PayloadsOf(sent) == Payloads(reply.result.value)
    ensures !(reply.Json? && reply.result.Some?) ==> next == cursor && sent == []
  {
    next, sent := cursor, [];
    if reply.Json? && reply.result.Some? {
      var updates := reply.result.value;
      var i := 0;
      while i < |updates|
        invariant i <= |updates|
        invariant State(next, sent) == Process(State(cursor, []), updates[..i], broker)
      {
        assert updates[..i + 1][..i] == updates[..i];
        var update := updates[i];
        match update.id {
          case Some(id) =>
            if update.text.Some? {
              sent := sent + [Publish(update.text.value, broker(i))];
            }
            next := id + 1;
          case None =>
        }
        i := i + 1;
      }
      assert updates[..i] == updates;
    }
    CycleEffect(cursor, reply, broker);
  }

  // ---------------------------------------------------------------------
  // The outer loop over many poll cycles.

  /** The cursors of a series of poll cycles from `cursor`: entry `k` is
      the offset sent with poll `k`, the last entry the cursor after all of
      them. `broker(k, i)` is the publish outcome of element `i` in poll
      `k`. `FreshStartPolls` ties these entries to the poll requests. */
  function Cursors(cursor: nat, replies: seq<PollReply>, broker: (nat, nat) -> bool): (cs: seq<nat>)
    ensures |cs| == |replies| + 1 && cs[0] == cursor
    decreases |replies|
  {
    if |replies| == 0 then [cursor]
    else
      var n := |replies| - 1;
      var prev := Cursors(cursor, replies[..n], broker);
      prev + [Cycle(prev[n], replies[n], (i: nat) => broker(n, i)).cursor]
  }

  /** The platform keeps its side of the protocol: every `result` array
      answering poll `k` holds ascending ids no lower than that poll's
      offset. */
  predicate HonestReplies(cursor: nat, replies: seq<PollReply>, broker: (nat, nat) -> bool)
  {
    var cs := Cursors(cursor, replies, broker);
    forall k | 0 <= k < |replies| && replies[k].Json? && replies[k].result.Some? ::
      AscendingFrom(cs[k], replies[k].result.value)
  }

  lemma {:induction false} CursorsPrefix(cursor: nat, replies: seq<PollReply>, broker: (nat, nat) -> bool, m: nat)
    requires m <= |replies|
    ensures Cursors(cursor, replies[..m], broker) == Cursors(cursor, replies, broker)[..m + 1]
    decreases |replies|
  {
    if m < |replies| {
      var n := |replies| - 1;
      assert replies[..n][..m] == replies[..m];
      CursorsPrefix(cursor, replies[..n], broker, m);
    } else {
      assert replies[..m] == replies;
    }
  }

  /** Across any series of poll cycles the cursor never decreases, provided
      each reply's ids ascend from the offset it answered. */
  lemma CursorsNonDecreasing(cursor: nat, replies: seq<PollReply>, broker: (nat, nat) -> bool)
    requires HonestReplies(cursor, replies, broker)
    ensures var cs := Cursors(cursor, replies, broker);
      forall i, j | 0 <= i <= j < |cs| :: cs[i] <= cs[j]
  {
    var cs := Cursors(cursor, replies, broker);
    forall k | 0 <= k < |replies|
      ensures cs[k] <= cs[k + 1]
    {
      CursorsStep(cursor, replies, broker, k);
    }
    forall i, j | 0 <= i <= j < |cs|
      ensures cs[i] <= cs[j]
    {
      SortedChain(cs, i, j);
    }
  }

  /** One poll of an honest series never moves the cursor backwards. */
  lemma CursorsStep(cursor: nat, replies: seq<PollReply>, broker: (nat, nat) -> bool, k: nat)
    requires HonestReplies(cursor, replies, broker)
    requires k < |replies|
    ensures Cursors(cursor, replies, broker)[k] <= Cursors(cursor, replies, broker)[k + 1]
  {
    var cs := Cursors(cursor, replies, broker);
    CursorsPrefix(cursor, replies, broker, k + 1);
    assert replies[..k + 1][..k] == replies[..k];
    CursorsPrefix(cursor, replies, broker, k);
    var reply := replies[k];
    var b := (i: nat) => broker(k, i);
    assert cs[k + 1] == Cycle(cs[k], reply, b).cursor;
    if reply.Json? && reply.result.Some? {
      var us := reply.result.value;
      CursorNeverDecreases(cs[k], [], us, b);
      assert us[..0] == [] && us[..|us|] == us;
    }
  }

  /** From process start the first poll asks for offset 1, and under an
      honest platform every later poll asks for an offset at least as large
      as every earlier one (and so never below 1). */
  lemma FreshStartPolls(token: string, timeout: nat, replies: seq<PollReply>, broker: (nat, nat) -> bool)
    requires timeout < 256
    requires HonestReplies(InitialCursor, replies, broker)
    ensures var cs := Cursors(InitialCursor, replies, broker);
      && PollRequestFor(token, cs[0], timeout).offset == 1
      && forall i, j | 0 <= i <= j < |replies| ::
           PollRequestFor(token, cs[i], timeout).offset <= PollRequestFor(token, cs[j], timeout).offset
  {
    CursorsNonDecreasing(InitialCursor, replies, broker);
  }

  lemma {:induction false} SortedChain(cs: seq<nat>, i: nat, j: nat)
    requires forall k | 0 <= k < |cs| - 1 :: cs[k] <= cs[k + 1]
    requires i <= j < |cs|
    ensures cs[i] <= cs[j]
    decreases j - i
  {
    if i < j {
      SortedChain(cs, i + 1, j);
    }
  }
}

# telegram-mqtt-bridge, modelled in Dafny

The bridge connects an MQTT broker to the Telegram Bot API. It runs two
loops.

The **inbound** loop reads messages from one MQTT topic. It drops a message
that is not valid UTF-8 or that holds no newline. Otherwise it splits the
message at its first newline into a Bot API method and a JSON body, and
POSTs the body to that method's URL.

The **outbound** loop long-polls `getUpdates` starting from a cursor
(`telegram_update_id`, initially 1). It walks the reply's `result` array in
order and skips every update without a u64 `update_id`. For each update that
has one, it publishes the update to another topic if the update serializes,
and it moves the cursor to `update_id + 1` whether or not the publish
happened or succeeded.

This project models the deterministic decision logic of both loops as pure
functions over immutable data:

- `wrappers.dfy`: the `Option` datatype.
- `telegram_api.dfy` (module `TelegramApi`): the fixed domain and the URL
  scheme `<domain>/bot<token>/<method>`, its inverse `MethodOf`, and the
  long-poll request body `{offset, timeout}`.
- `inbound.dfy` (module `Inbound`): `IndexOf` and `SplitOnce` model
  `splitn(2, "\n")`. `Parse` and `Join` model the envelope and its wire
  form. `Handle` turns one decoded packet into at most one POST, and
  `ForwardAll` does this for a stream of packets.
- `outbound.dfy` (module `Outbound`): `Step` handles one element of the
  `result` array. `Process` is the fold over the array and `Cycle` is one
  poll turn. `HandleReply` is the same walk written as a loop. `Cursors`
  follows the cursor across a series of polls. The reference definitions
  are `Payloads`, `LastId`, `CursorAfter`, `WithIds` and `AscendingFrom`.

An envelope is accepted on its part count alone. The code checks only
`parts.len() == 2` (src/main.rs:106). So `"\nX"`
(empty method) and `"m\n"` (empty body) are both forwarded, as
`EmptyMethodAccepted` and `EmptyBodyAccepted` prove.

The outcome of an MQTT publish is an oracle `broker`, indexed by the
element's position in the array (and by the poll's index in `Cursors`).
Serialization of an update is abstracted as `Update.text`, where `None`
means `serde_json::to_string` failed. An update's `update_id` is abstracted
as `Update.id`, the result of `as_u64()`.

## Model

| member | source | states |
|---|---|---|
| TelegramApi.MethodUrlRoundTrip | src/main.rs:113-116 | The POST URL is exactly `"https://api.telegram.org" + "/bot" + token + "/" + method`, and the method name can be read back from it |
| TelegramApi.MethodUrlInjective | src/main.rs:113-116 | Under one token, two methods share a URL if and only if they are the same method |
| TelegramApi.MethodOf | src/main.rs:113-116 | The method name is recovered from a URL exactly when the URL starts with the token's `<domain>/bot<token>/` prefix |
| TelegramApi.PollRequestFor | src/main.rs:163-171 | The long-poll goes to the URL of method `getUpdates` and sends the current cursor as `offset` and the configured `u8` timeout |
| Inbound.IndexOf | src/main.rs:105 | Finds the first newline: none exactly when the text holds none, otherwise a newline position with no newline before it |
| Inbound.SplitOnce | src/main.rs:105 | `splitn(2, "\n")` yields two parts exactly when the text holds a newline. Otherwise it yields the text itself. The first part holds no newline, and part + "\n" + part rebuilds the text |
| Inbound.Parse | src/main.rs:105-108 | A message is accepted if and only if it holds a newline. The accepted method has no newline, and method + "\n" + body equals the message |
| Inbound.ParseJoin | src/main.rs:105-108 | Round trip: an envelope whose method holds no newline is parsed back from `"<method>\n<body>"`, even when the body holds newlines |
| Inbound.EmptyMethodAccepted | src/main.rs:106 | A message starting with the newline (empty method) is still accepted |
| Inbound.EmptyBodyAccepted | src/main.rs:106 | A message ending at its first newline (empty body) is still accepted |
| Inbound.NoNewlineRejected | src/main.rs:135-137 | A message with no newline, including the empty one, is not parsed and causes no POST |
| Inbound.Handle | src/main.rs:103-137 | A packet causes a POST if and only if it decoded as UTF-8 and holds a newline. The POST goes to the URL of the text before the first newline, carries the text after it as body, and has JSON content type |
| Inbound.HandleWellFormed | src/main.rs:105-118 | Every well-formed `"<m>\n<body>"` gives exactly one POST to the URL of `m` with payload `body` |
| Inbound.SendMessageExample | src/main.rs:105-118 | `"sendMessage\n{...}"` is POSTed to the `sendMessage` URL with the JSON body unchanged |
| Inbound.ForwardAllAppend | src/main.rs:90-145 | Messages are handled in isolation: the POSTs for a concatenated stream are the POSTs for each part, in order |
| Inbound.ForwardAllCount | src/main.rs:103-140 | A stream yields exactly as many POSTs as it has packets that decode and contain a newline |
| Inbound.UndecodableThenWellFormed | src/main.rs:103-142 | A packet that is not UTF-8 is dropped, and the well-formed message after it is still forwarded |
| Outbound.LastId | src/main.rs:181-216 | Reference: the id of the last element carrying one. It is none exactly when no element has an id |
| Outbound.ProcessPublishes | src/main.rs:181-215 | The published payloads are exactly the serializable elements with a u64 `update_id`, in array order |
| Outbound.ProcessCursor | src/main.rs:180-216 | After the array, the cursor is one past the last element's `update_id`, or unchanged if no element has one |
| Outbound.BrokerIrrelevant | src/main.rs:186-211 | The cursor and the published payloads do not depend on whether the publishes succeed |
| Outbound.IdlessElementsInvisible | src/main.rs:184-216 | Removing the elements without a u64 `update_id` changes neither the cursor nor the publishes |
| Outbound.CycleEffect | src/main.rs:175-235 | A failed send, an unreadable body, non-JSON, or a missing or non-array `result` publishes nothing and keeps the cursor. A `result` array gives the cursor and payloads above |
| Outbound.HandleReply | src/main.rs:176-220 | The loop over `result` computes the same cursor and publishes as the fold and as the reference definitions |
| Outbound.CursorNeverDecreases | src/main.rs:181-211 | If ids ascend strictly and are at or above the cursor, the cursor never decreases within the array and ends past every id seen |
| Outbound.CursorCanDecrease | src/main.rs:211 | The cursor is overwritten, not max-ed: ids below the cursor, or descending ids, move it backwards |
| Outbound.TwoUpdatesExample | src/main.rs:180-211 | From cursor 5, updates 5 and 6 are both published in order and leave the cursor at 7, whatever the publish outcomes |
| Outbound.EmptyResultExample | src/main.rs:180-181 | An empty `result` array publishes nothing and keeps the cursor |
| Outbound.Cursors | src/main.rs:159-171 | The first poll of a series is sent with the starting cursor, and each poll yields one more cursor |
| Outbound.FreshStartPolls | src/main.rs:159-171 | From process start the first poll sends offset 1, and with an honest platform every later poll sends an offset at least as large as every earlier one |
| Outbound.CursorsNonDecreasing | src/main.rs:159-236 | Across any series of polls, the cursor never decreases, provided each reply's ids ascend from the offset it answered |

## Left out

- Configuration from the environment and its `exit(1)` paths
  (src/main.rs:39-65): these only read and parse variables. The token and
  the poll timeout are parameters.
- MQTT client setup, subscribe, the event loop and its retry
  (src/main.rs:73-97, 147-149): these are network I/O. A publish is an
  appended `Publish` record, and its outcome is the `broker` oracle.
- HTTP sends and `response.text()` (src/main.rs:112-120, 163-176): these
  are network I/O. Their outcomes are the `PollReply` cases, and an inbound
  POST is the `Request` value it would send.
- TelegramApi.MethodUrlInjective: a URL is modelled as the string that
  `format!` builds (src/main.rs:113-116). It is not the URL the HTTP client
  parses from that string, which strips tabs and line breaks, resolves `..`
  segments and percent-encodes. So two distinct method strings can still
  reach the same endpoint.
- JSON parsing and serialization: an update is abstracted to its
  `as_u64()` id and its serialization result.
- UTF-8 decoding (src/main.rs:103): the input is already-decoded text, or
  `None` when decoding failed.
- Logging, `tokio::spawn`, `Arc` sharing, and the infinite loops: these are
  concurrency and side effects. `ForwardAll` and `Cursors` model finite
  prefixes of the two loops.
- Outbound.Step: the cursor is a `nat`, so `update_id + 1` at `u64::MAX`
  (src/main.rs:211) is not modelled. That addition panics in a debug build
  and wraps to 0 in a release build.
- Outbound.Cursors: its own contract states only the shape of the trace.
  `CursorsNonDecreasing` states what the trace promises.
- Inbound.ForwardAll: its own contract gives only a length bound.
  `ForwardAllAppend` and `ForwardAllCount` state its behaviour.

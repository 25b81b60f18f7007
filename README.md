# ZeroMQ-to-WebSocket bridge, modelled in Dafny

The bridge in `main.py` receives text messages from a ZeroMQ request/reply
socket. For each message it raises a global counter, answers the producer with
`Messages received: <count>`, and pushes `Messages received: <message>,
sequence: <count>` to every connected WebSocket listener. A listener whose
delivery fails is removed from the registry. A listener's handler adds its
socket to the registry on connection and removes it when the handler exits.

The model keeps the same two pieces of state as the source. They are the
fields of one class, `Bridge.Bridge<L>`: `count` (the global `count`) and
`listeners` (the set `app.state.websockets`). A listener handle is any value
of type `L`. Whether a delivery succeeds is not I/O. It is an outcome function
`ok: L -> bool`, passed to each fan-out round.

- `Format.dfy` (module `Format`): Python's `str()` on a non-negative integer,
  the acknowledgement text and the push text, with parsers. The round-trip
  lemmas show that each text carries its number, or its message and number,
  without ambiguity.
- `Bridge.dfy` (module `Bridge`): the class and its operations. One broker
  turn (`HandleMessage`), one fan-out round (`NotifyClients`, a loop over a
  copy of the registry that removes failures from the registry in place),
  connect, remove, disconnect, and the count query. The broker loop over a
  finite list of messages is `Run`; `Serve` runs it from process start. A
  fan-out round is specified by the recursive predicate `IsRound`. It is
  proved equivalent to an explicit reading (`AttemptsEachOnce`): every
  snapshot member is attempted exactly once, with the same text, and failures
  do not stop the other attempts.
- `Scenarios.dfy` (module `Scenarios`): concrete runs, proved from the
  operations' contracts alone. One listener receiving `ping`; two listeners
  and two messages; an evicted listener; no listener; cleanup after an
  eviction.

Each operation is one atomic step. So the copy that `notify_clients` takes is
equal to the registry when the round starts. The model proves that the round's
`remove` call (main.py:85) always finds its element. `Remove` requires the
handle to be present, and `NotifyClients` calls it for every failed member.
The cleanup in the handler's `finally` block (main.py:122) also uses `remove`.
`Disconnect` models it with the same requirement. After an eviction that
requirement is false, as shown under "## Findings".

Cleanup that runs on every exit path of a handler has to tolerate a handle
that fan-out has already evicted, so it should discard the handle rather than
`remove` it. The code uses `set.remove`, which raises `KeyError` for an absent
element. The model follows the code, and `Discard` is the tolerant version.

## Model

| member | source | states |
|---|---|---|
| `Format.Decimal` | main.py:66 | the rendering of a count is a non-empty string of digits with no leading zero, and starts with `0` only for 0 |
| `Format.ValueOfDecimal` | main.py:66 | the rendered count denotes the count |
| `Format.DecimalOfValue` | main.py:66 | every canonical decimal numeral is the rendering of its value, so the rendering is exactly Python's `str` form |
| `Format.DecimalInjective` | main.py:66 | distinct counts render differently |
| `Format.ReplyCodec` | main.py:66 | `ReplyText(n)`, the model of the text sent at main.py:66, is `"Messages received: " + str(n)`, and a text parses as the acknowledgement of `n` if and only if it is `ReplyText(n)` |
| `Format.NotificationRoundTrip` | main.py:79-81 | the push text for `(message, n)` parses back to `(message, n)`, even when the message itself contains `, sequence: ` |
| `Format.NotificationParsesOnlyPushes` | main.py:79-81 | only the push text for `(message, n)` parses to `(message, n)` |
| `Format.NotificationCodec` | main.py:79-81 | `NotificationText(message, n)`, the model of the text pushed at main.py:79-81, is `"Messages received: " + message + ", sequence: " + str(n)`, and a text parses to `(message, n)` if and only if it is `NotificationText(message, n)` |
| `Format.NotificationInjective` | main.py:79-81 | two pushes with equal texts have the same message and the same sequence number |
| `Bridge.RoundAttemptsEachOnce` | main.py:76-83 | a fan-out round over a snapshot pushes the same text to every snapshot member exactly once, marks each attempt delivered exactly when its outcome is success, and attempts no one else |
| `Bridge.AttemptsEachOnceIsRound` | main.py:76-83 | conversely, any log with those properties is a fan-out round in the order the log gives |
| `Bridge.SurvivorsExactly` | main.py:77-85 | after successive rounds a listener is still registered if and only if it was registered and none of its deliveries failed, so an evicted listener never returns while no one connects between rounds |
| `Bridge.TurnsAreNumbered` | main.py:57-68 | the acknowledgement of every turn, including a turn that pushes nothing, parses as that turn's sequence number, so consecutive turns are acknowledged with consecutive numbers; every push of a turn parses as that turn's message with that turn's number |
| `Bridge.Bridge.constructor` | main.py:14-26 | at start the count is 0 and the registry is empty |
| `Bridge.Bridge.GetCount` | main.py:101-103 | the query returns the current count and changes nothing |
| `Bridge.Bridge.Connect` | main.py:113 | the registry gains the handle (adding one already present changes nothing), and the count is unchanged |
| `Bridge.Bridge.Remove` | main.py:85 | `set.remove`: requires the handle to be registered, then removes exactly that handle |
| `Bridge.Bridge.Disconnect` | main.py:120-122 | handler cleanup as written: requires the handle to still be registered, then removes exactly it |
| `Bridge.Bridge.Discard` | main.py:120-122 | corrected cleanup: the handle is absent afterwards whether or not fan-out evicted it first, and nothing else changes |
| `Bridge.Bridge.NotifyClients` | main.py:71-85 | one round over the registry at entry: each member is attempted exactly once with `"Messages received: " + message + ", sequence: " + str(n)`; afterwards the registry is the old registry minus exactly the members whose delivery failed; every `remove` call finds its element; the count is unchanged |
| `Bridge.Bridge.HandleMessage` | main.py:57-68 | the count rises by exactly 1; the first output is the acknowledgement of the new count, before any push; then a round pushes the message with that same count; failures are evicted |
| `Bridge.Bridge.Run` | main.py:57-68 | over `N` messages the count rises by `N`; turn `k` acknowledges and pushes `old(count) + k + 1` to the listeners that survived the earlier rounds; the final registry is the survivors of all rounds |
| `Bridge.Serve` | main.py:57-68 | from process start, `N` messages leave the count at `N`; the acknowledgements carry `1..N` in order; each round reaches exactly the listeners that survived the earlier rounds |
| `Scenarios.Ping` | main.py:57-85 | with one listener, `ping` is acknowledged with `Messages received: 1` and the listener receives `Messages received: ping, sequence: 1` |
| `Scenarios.TwoListeners` | main.py:57-85 | two listeners both receive `a` with sequence 1, then `b` with sequence 2 |
| `Scenarios.EvictedListener` | main.py:77-85 | a listener whose delivery failed is evicted; the next message is still acknowledged, with 2, and pushes nothing |
| `Scenarios.NoListeners` | main.py:57-68 | with no listener the producer is still acknowledged with the incremented count, and nothing is pushed |
| `Scenarios.CleanupAfterEvictionAsWritten` | main.py:120-122 | after fan-out evicts a listener, the requirement of the cleanup `remove` is false |
| `Scenarios.CleanupAfterEviction` | main.py:120-122 | with the corrected cleanup, an evicted listener's cleanup succeeds and leaves the other listener registered; repeating it changes nothing |

## Findings

| source | as written | input that shows it | evidently intended | confidence | as-written member | corrected member |
|---|---|---|---|---|---|---|
| main.py:122 | the handler's `finally` calls `app.state.websockets.remove(websocket)`. This raises `KeyError` when `notify_clients` has already removed that socket after a failed send (main.py:85) | listener 7 connects; the first broker message's delivery to 7 fails, so 7 is evicted; then 7's handler exits | cleanup on every exit path tolerates a handle that fan-out already evicted, discarding it rather than calling `remove` | not executed; medium | `Scenarios.CleanupAfterEvictionAsWritten` | `Bridge.Bridge.Discard` |

## Left out

- ZeroMQ context, socket creation, `bind`, `recv_string` and `send_string` (main.py:53-59, main.py:66): library I/O. A message is an input parameter. The acknowledgement and the pushes are returned as `Output` values.
- FastAPI application, routing decorators, `read_root` and the `lifespan` task start and cancellation (main.py:19-43, main.py:88-93): framework wiring. The registry's initialisation at main.py:26 is the constructor.
- `asyncio.Lock`, the `asyncio.sleep` keep-alive loop and task interleavings (main.py:16, main.py:115-117): concurrency. Each operation is one atomic step. As a result, the copy taken by `notify_clients` always equals the registry at the start of the round. The model therefore does not show a listener removed by its handler after the copy was taken; in the source, that case would make main.py:85 raise if the delivery to it then fails.
- `print` logging and the exception types: replaced by the boolean delivery outcome and by the `Disconnect` operation.
- WebSocket-Client.py and zmq-sender.py: demo clients with network I/O only.
- Delivery outcomes depend on the listener and the round, not on the text sent.
- Set iteration order: `NotifyClients` picks the next member arbitrarily. Its contract therefore holds for every order Python might use, and no order is chosen.
- `Serve` connects its initial listeners before the first message. Connections interleaved with messages are reachable through the class's methods, but `Serve` does not generate them.
- Connection identity: the source registers a new WebSocket object per connection (main.py:113), so an evicted handle never comes back. `Connect` accepts any handle, including one evicted earlier; the "never returns" reading of `SurvivorsExactly` holds for `Run` and `Serve`, which connect no one between rounds.
- The counter is an unbounded `nat`, as Python's `int` is; there is no wrap-around to model.

# Macropad event polling, in Dafny

This project models the event logic of the macropad firmware: the `Pad`
object, which on every poll compares a fresh reading of the rotary
encoder's position and of its push switch (as the debouncer reports it)
against a cached snapshot, drains at most one pending key press or release from the key
scanner's queue, and reports what changed as an ordered list of events.

- `events.dfy` (module `Events`): the three event kinds `EncoderEvent`,
  `EncoderButtonEvent` and `KeyEvent` (pad.py:10-16) as one datatype, the
  key transitions the scanner queues, and views of an event list by kind.
- `poll.dfy` (module `Polling`): one poll as the function `Poll` on the
  cache value `PadState`, repeated polling (`Run`, what `event_stream`
  does over any finite number of polls), and the lemmas stating what a
  poll and a sequence of polls report.
- `pad.dfy` (module `PadObject`): the `Pad` class with its two cache fields
  `lastEncoderPosition` and `lastEncoderSwitch`, updated in place by
  `CheckEvents`, and the key queue `KeyQueue` it pops from. `CheckEvents`
  is proved to do exactly what `Poll` says. `Session` is a client that
  replays a short scenario through the class contracts.

The encoder position and the value of the `encoder_switch` property (the
debouncer's `pressed`) are hardware reads in the firmware; here they are
parameters of the constructor and of `CheckEvents`. The key queue belongs
to the key scanner library; the model keeps it as a separate object whose `Get` removes the oldest transition or
returns `None`, matching the `if key_event:` test at pad.py:86.

Two behaviours of the code are modelled as written:

- The position cache is overwritten before the rotation event is built,
  and the event carries the value read before the overwrite
  (pad.py:76-79).
- `check_events` never writes `_last_encoder_switch` (pad.py:81-83).
  Every poll compares the value `encoder_switch` returns against the value
  it returned at construction, so whenever that value stays different from
  the construction-time one, a button event is reported on every poll
  (`HeldButtonRepeats`, `RepeatPoll`, and the last steps of `Session`).
  This is a fact about the value `encoder_switch` returns (the debouncer's
  `pressed`, pad.py:59); whether that value is the switch level or a
  one-poll edge is library behaviour not shown in these files. One might
  expect the switch cache to be updated after each reported change, so
  that a second unchanged poll reports nothing; the code never writes it,
  and the model follows the code: a second poll with the same readings and
  an empty key queue reports nothing only when the switch value is back at
  its construction-time state (`RepeatPoll`).

## Model

| member | source | states |
|---|---|---|
| `Polling.Poll` | pad.py:75-87 | One poll reports at most three events, leaves the position cache equal to the position just read, never changes the switch cache, and shortens a non-empty key queue by exactly one |
| `Polling.PollRotation` | pad.py:75-79 | The poll reports a rotation event exactly when the fresh position differs from the cached one, carrying the fresh position and the old cached one as previous position; an unmoved encoder leaves the cache unchanged |
| `Polling.PollButton` | pad.py:81-83 | The poll reports a button event exactly when the fresh switch state differs from the switch cache, carrying the fresh state |
| `Polling.PollKey` | pad.py:85-87 | The poll reports the front of the key queue unchanged (number and pressed) and removes exactly that one; an empty queue stays empty and yields no key event |
| `Polling.PollInOrder` | pad.py:75-87 | Within one poll the events come in the fixed order rotation, button, key |
| `Polling.RepeatPoll` | pad.py:75-87 | Repeating a poll with the same readings and an empty queue reports no rotation and no key, keeps the cache, and repeats the button event exactly when the switch differs from its construction-time value |
| `Polling.Run` | pad.py:61-63 | After any number of polls the switch cache still holds its construction-time value and the position cache holds the last position read |
| `Polling.RunKeysFifo` | pad.py:61-87 | Over any number of polls, the reported key transitions followed by those still queued are exactly the initial queue followed by everything the scanner queued: nothing dropped, reordered or duplicated; at most |rs| key events over |rs| polls, and exactly |rs| when the queue starts with at least |rs| transitions, so each poll takes one from a non-empty queue (per poll see `PollKey`) |
| `Polling.RunRotationChain` | pad.py:61-79 | Over any number of polls, the rotation events form an unbroken chain from the starting cached position to the final one: each event's previous position is the position the one before it reported, and no event reports a position equal to its previous one |
| `Polling.RunButtons` | pad.py:61-83 | Over any number of polls, one button event is reported for each reading whose switch differs from the construction-time value, in order, carrying that reading's state |
| `Polling.HeldButtonRepeats` | pad.py:81-83 | A switch value that stays away from its construction-time value is reported once on every poll |
| `Polling.RestingButtonSilent` | pad.py:81-83 | A switch value that stays at its construction-time value is never reported |
| `PadObject.Pad.constructor` | pad.py:21-26 | Construction caches the first position and switch readings and reports no events |
| `PadObject.Pad.CheckEvents` | pad.py:65-87 | The method's events, new cache and remaining key queue are those of `Poll` on the old cache and queue; the position field ends equal to the position read and the switch field is untouched |
| `PadObject.KeyQueue.Get` | pad.py:85 | Taking from the key queue removes and returns its oldest transition, or returns nothing and leaves an empty queue empty |

## Left out

- `execute_ready_timers` (pad.py:89): `Pad` (pad.py:18) has no base class
  and defines no such method, so as written this call raises
  `AttributeError` once the poll's own events have been yielded, and
  `event_stream` (pad.py:61-63) passes that error on during the first
  poll. The model assumes instead that the call returns normally and adds
  no events: `Poll`, `CheckEvents`, `Run` and the lemmas about them
  describe a `Pad` on which that call succeeds.
- `check_events` is a lazy generator: its reads, the position cache write
  (pad.py:78) and the key queue pop (pad.py:85) happen only as far as the
  consumer iterates, interleaved with the consumer's handling of earlier
  events, so a partly consumed poll can leave the position cache updated
  and the key still queued. `Poll` and `CheckEvents` perform the whole
  poll at once and return a list; this matches the only caller, the
  `yield from` in `event_stream` driven by code.py:9, which consumes each
  poll fully. Partial consumption is not modelled.
- The hardware behind the reads: `_init_macropad` (pad.py:29-46), the
  `encoder_position` and `encoder_switch` properties (pad.py:48-59) and the
  debouncer's `update()`/`pressed`. They are library calls; their results
  are parameters here, so debouncing itself is not modelled.
- `pixels` and display settings (pad.py:22-23, 43-44): device setup with no
  bearing on events.
- `event_stream` (pad.py:61-63) is an endless generator; `Run` covers every
  finite number of polls, and no method loops forever.
- `KeyQueue.Record` stands for the key scanner filling the queue; the
  scanner itself, and any bound on the queue's length or on key numbers
  (twelve keys on the device), are not modelled.
- host_comm.py (serial channel pass-through), boot.py (boot-time USB mode
  selection) and code.py (the top-level `while True` driver loop): I/O
  plumbing outside the event logic.

/** One poll of the Pad (`check_events`) as a function on the Pad's cache,
    the repetition of polls that `event_stream` performs, and what both
    guarantee about the events they report. */
module Polling {
  import opened Events

  /** The Pad's cache: `_last_encoder_position` and `_last_encoder_switch`. */
  datatype PadState = PadState(lastEncoderPosition: int, lastEncoderSwitch: bool)

  /** What one poll reads from the hardware: the encoder position, the
      value the `encoder_switch` property returns, and the key transitions
      the scanner queued since the previous poll. */
  datatype Reading = Reading(position: int, switch: bool, scanned: seq<KeyTransition>)

  /** The outcome of one or more polls: the events in the order they are
      reported, the new cache, and the key transitions still queued. */
  datatype Step = Step(events: seq<Event>, state: PadState, pending: seq<KeyTransition>)

  /** One poll with encoder position `position`, switch state `switch` and
      key queue `pending`. The position cache is overwritten when the
      position moved; the switch cache is never written. */
  function Poll(s: PadState, position: int, switch: bool, pending: seq<KeyTransition>): (r: Step)
    ensures |r.events| <= 3
    ensures r.state.lastEncoderPosition == position
    ensures r.state.lastEncoderSwitch == s.lastEncoderSwitch
    ensures |r.pending| == if pending == [] then 0 else |pending| - 1
  {
    var moved := position != s.lastEncoderPosition;
    var rotation := if moved then [EncoderEvent(position, s.lastEncoderPosition)] else [];
    var state := if moved then s.(lastEncoderPosition := position) else s;
    var button := if switch != s.lastEncoderSwitch then [EncoderButtonEvent(switch)] else [];
    var key := if pending != [] then [KeyEvent(pending[0].keyNumber, pending[0].pressed)] else [];
    Step(rotation + button + key, state, if pending != [] then pending[1..] else pending)
  }

  /** A rotation event is reported exactly when the position moved; it
      carries the fresh position and the cached one. An unmoved encoder
      leaves the cache as it was. */
  lemma PollRotation(s: PadState, position: int, switch: bool, pending: seq<KeyTransition>)
    ensures var r := Poll(s, position, switch, pending);
      Rotations(r.events)
        == (if position != s.lastEncoderPosition
            then [EncoderEvent(position, s.lastEncoderPosition)] else [])
    ensures position == s.lastEncoderPosition ==> Poll(s, position, switch, pending).state == s
  {
    var r := Poll(s, position, switch, pending);
    var rotation := if position != s.lastEncoderPosition then [EncoderEvent(position, s.lastEncoderPosition)] else [];
    var button := if switch != s.lastEncoderSwitch then [EncoderButtonEvent(switch)] else [];
    var key := if pending != [] then [KeyEvent(pending[0].keyNumber, pending[0].pressed)] else [];
    assert r.events == rotation + (button + key);
    RotationsAppend(rotation, button + key);
    RotationsAppend(button, key);
  }

  /** A button event is reported exactly when the switch differs from the
      switch cache, and it carries the fresh switch state. */
  lemma PollButton(s: PadState, position: int, switch: bool, pending: seq<KeyTransition>)
    ensures var r := Poll(s, position, switch, pending);
      Buttons(r.events)
        == (if switch != s.lastEncoderSwitch then [EncoderButtonEvent(switch)] else [])
  {
    var r := Poll(s, position, switch, pending);
    var rotation := if position != s.lastEncoderPosition then [EncoderEvent(position, s.lastEncoderPosition)] else [];
    var button := if switch != s.lastEncoderSwitch then [EncoderButtonEvent(switch)] else [];
    var key := if pending != [] then [KeyEvent(pending[0].keyNumber, pending[0].pressed)] else [];
    assert r.events == rotation + (button + key);
    ButtonsAppend(rotation, button + key);
    ButtonsAppend(button, key);
  }

  /** A poll takes at most one transition off the front of the key queue
      and reports it unchanged: nothing is lost, reordered or duplicated,
      and an empty queue yields no key event. */
  lemma PollKey(s: PadState, position: int, switch: bool, pending: seq<KeyTransition>)
    ensures var r := Poll(s, position, switch, pending);
      && pending == KeysReported(r.events) + r.pending
      && |KeysReported(r.events)| == (if pending == [] then 0 else 1)
  {
    var r := Poll(s, position, switch, pending);
    var rotation := if position != s.lastEncoderPosition then [EncoderEvent(position, s.lastEncoderPosition)] else [];
    var button := if switch != s.lastEncoderSwitch then [EncoderButtonEvent(switch)] else [];
    var key := if pending != [] then [KeyEvent(pending[0].keyNumber, pending[0].pressed)] else [];
    assert r.events == rotation + (button + key);
    KeysReportedAppend(rotation, button + key);
    KeysReportedAppend(button, key);
    if pending != [] {
      assert KeysReported(key) == [pending[0]];
      assert pending == [pending[0]] + pending[1..];
    }
  }

  /** Within one poll, a rotation event comes before a button event, which
      comes before a key event. */
  lemma PollInOrder(s: PadState, position: int, switch: bool, pending: seq<KeyTransition>)
    ensures InPollOrder(Poll(s, position, switch, pending).events)
  {
  }

  /** Polling twice with the same readings and nothing queued the second
      time: the second poll reports no rotation and no key, but repeats the
      button event whenever the switch differs from the construction-time
      value, because the switch cache is never updated. */
  lemma RepeatPoll(s: PadState, position: int, switch: bool, pending: seq<KeyTransition>)
    ensures var first := Poll(s, position, switch, pending);
      var second := Poll(first.state, position, switch, []);
      && second.events == (if switch != s.lastEncoderSwitch then [EncoderButtonEvent(switch)] else [])
      && second.state == first.state
      && second.pending == []
  {
  }

  /** All key transitions the scanner queued over `rs`, oldest first. */
  function Scanned(rs: seq<Reading>): seq<KeyTransition>
  {
    if rs == [] then [] else rs[0].scanned + Scanned(rs[1..])
  }

  /** The polls `event_stream` performs for the readings `rs`, starting from
      cache `s` and key queue `pending`; before each poll the scanner
      appends that reading's transitions to the queue. */
  function Run(s: PadState, rs: seq<Reading>, pending: seq<KeyTransition>): (r: Step)
    ensures r.state.lastEncoderSwitch == s.lastEncoderSwitch
    ensures rs == [] ==> r.state == s
    ensures rs != [] ==> r.state.lastEncoderPosition == rs[|rs| - 1].position
    decreases |rs|
  {
    if rs == [] then Step([], s, pending)
    else
      var first := Poll(s, rs[0].position, rs[0].switch, pending + rs[0].scanned);
      var rest := Run(first.state, rs[1..], first.pending);
      Step(first.events + rest.events, rest.state, rest.pending)
  }

  /** Over any number of polls, the key events report exactly the queued
      transitions in the order they were queued, and what is not yet
      reported is still queued: no transition is dropped, reordered or
      reported twice, at most |rs| are reported over |rs| polls, and while
      the queue holds a transition at every poll each poll reports one. */
  lemma {:induction false} RunKeysFifo(s: PadState, rs: seq<Reading>, pending: seq<KeyTransition>)
    ensures var r := Run(s, rs, pending);
      && pending + Scanned(rs) == KeysReported(r.events) + r.pending
      && |KeysReported(r.events)| <= |rs|
    ensures |pending| >= |rs| ==> |KeysReported(Run(s, rs, pending).events)| == |rs|
    decreases |rs|
  {
    if rs != [] {
      var queue := pending + rs[0].scanned;
      var first := Poll(s, rs[0].position, rs[0].switch, queue);
      var rest := Run(first.state, rs[1..], first.pending);
      PollKey(s, rs[0].position, rs[0].switch, queue);
      RunKeysFifo(first.state, rs[1..], first.pending);
      KeysReportedAppend(first.events, rest.events);
      assert Scanned(rs) == rs[0].scanned + Scanned(rs[1..]);
      QueueSplit(pending, rs[0].scanned, Scanned(rs[1..]), KeysReported(first.events), first.pending,
                 KeysReported(rest.events), rest.pending);
    }
  }

  /** Taking `k1` and then `k2` off the front of a queue that grows by `a`
      and then by `b` takes `k1 + k2` off the front of `q + (a + b)`. */
  lemma QueueSplit<T>(q: seq<T>, a: seq<T>, b: seq<T>, k1: seq<T>, q1: seq<T>, k2: seq<T>, q2: seq<T>)
    requires q + a == k1 + q1 && q1 + b == k2 + q2
    ensures q + (a + b) == (k1 + k2) + q2
  {
    calc {
      q + (a + b);
      (q + a) + b;
      (k1 + q1) + b;
      k1 + (q1 + b);
      k1 + (k2 + q2);
      (k1 + k2) + q2;
    }
  }

  /** `evs` are rotation events that lead the encoder from position `from`
      to position `to`, each starting where the previous one ended and each
      a real move. */
  predicate RotationChain(from: int, to: int, evs: seq<Event>)
    decreases |evs|
  {
    if evs == [] then from == to
    else
      && evs[0].EncoderEvent?
      && evs[0].previousPosition == from
      && evs[0].position != from
      && RotationChain(evs[0].position, to, evs[1..])
  }

  lemma {:induction false} RotationChainAppend(a: int, b: int, c: int, x: seq<Event>, y: seq<Event>)
    requires RotationChain(a, b, x) && RotationChain(b, c, y)
    ensures RotationChain(a, c, x + y)
    decreases |x|
  {
    if x == [] {
      assert x + y == y;
    } else {
      assert (x + y)[1..] == x[1..] + y;
      RotationChainAppend(x[0].position, b, c, x[1..], y);
    }
  }

  /** Over any number of polls, the rotation events form an unbroken chain
      from the position cached at the start to the position cached at the
      end: each event's previous position is the position reported by the
      one before it (or the starting cache), and no event repeats the
      position it starts from. */
  lemma {:induction false} RunRotationChain(s: PadState, rs: seq<Reading>, pending: seq<KeyTransition>)
    ensures var r := Run(s, rs, pending);
      RotationChain(s.lastEncoderPosition, r.state.lastEncoderPosition, Rotations(r.events))
    decreases |rs|
  {
    if rs != [] {
      var queue := pending + rs[0].scanned;
      var first := Poll(s, rs[0].position, rs[0].switch, queue);
      var rest := Run(first.state, rs[1..], first.pending);
      PollRotation(s, rs[0].position, rs[0].switch, queue);
      assert RotationChain(s.lastEncoderPosition, first.state.lastEncoderPosition, Rotations(first.events));
      RunRotationChain(first.state, rs[1..], first.pending);
      RotationChainAppend(s.lastEncoderPosition, first.state.lastEncoderPosition, rest.state.lastEncoderPosition,
                          Rotations(first.events), Rotations(rest.events));
      RotationsAppend(first.events, rest.events);
    }
  }

  /** Reference for the button events of a run: one event per reading
      whose switch state differs from `initial`, carrying that state. */
  function ButtonEventsAgainst(initial: bool, rs: seq<Reading>): (r: seq<Event>)
    ensures |r| <= |rs|
  {
    if rs == [] then []
    else (if rs[0].switch != initial then [EncoderButtonEvent(rs[0].switch)] else [])
         + ButtonEventsAgainst(initial, rs[1..])
  }

  /** Over any number of polls, every switch reading is compared against
      the value cached at construction, never against the previous poll. */
  lemma {:induction false} RunButtons(s: PadState, rs: seq<Reading>, pending: seq<KeyTransition>)
    ensures Buttons(Run(s, rs, pending).events) == ButtonEventsAgainst(s.lastEncoderSwitch, rs)
    decreases |rs|
  {
    if rs != [] {
      var queue := pending + rs[0].scanned;
      var first := Poll(s, rs[0].position, rs[0].switch, queue);
      var rest := Run(first.state, rs[1..], first.pending);
      PollButton(s, rs[0].position, rs[0].switch, queue);
      RunButtons(first.state, rs[1..], first.pending);
      ButtonsAppend(first.events, rest.events);
    }
  }

  /** A switch value that stays away from its construction-time value is
      reported on every poll, once per poll. */
  lemma {:induction false} HeldButtonRepeats(s: PadState, rs: seq<Reading>, pending: seq<KeyTransition>)
    requires forall i :: 0 <= i < |rs| ==> rs[i].switch != s.lastEncoderSwitch
    ensures Buttons(Run(s, rs, pending).events)
         == seq(|rs|, i => EncoderButtonEvent(!s.lastEncoderSwitch))
    decreases |rs|
  {
    RunButtons(s, rs, pending);
    HeldAgainst(s.lastEncoderSwitch, rs);
  }

  lemma {:induction false} HeldAgainst(initial: bool, rs: seq<Reading>)
    requires forall i :: 0 <= i < |rs| ==> rs[i].switch != initial
    ensures ButtonEventsAgainst(initial, rs) == seq(|rs|, i => EncoderButtonEvent(!initial))
    decreases |rs|
  {
    if rs != [] {
      assert rs[0].switch == !initial;
      assert forall i :: 0 <= i < |rs[1..]| ==> rs[1..][i].switch == rs[i + 1].switch;
      HeldAgainst(initial, rs[1..]);
    }
  }

  /** A switch value that stays at its construction-time value is never
      reported. */
  lemma {:induction false} RestingButtonSilent(s: PadState, rs: seq<Reading>, pending: seq<KeyTransition>)
    requires forall i :: 0 <= i < |rs| ==> rs[i].switch == s.lastEncoderSwitch
    ensures Buttons(Run(s, rs, pending).events) == []
    decreases |rs|
  {
    RunButtons(s, rs, pending);
    RestingAgainst(s.lastEncoderSwitch, rs);
  }

  lemma {:induction false} RestingAgainst(initial: bool, rs: seq<Reading>)
    requires forall i :: 0 <= i < |rs| ==> rs[i].switch == initial
    ensures ButtonEventsAgainst(initial, rs) == []
    decreases |rs|
  {
    if rs != [] {
      assert forall i :: 0 <= i < |rs[1..]| ==> rs[1..][i].switch == rs[i + 1].switch;
      RestingAgainst(initial, rs[1..]);
    }
  }
}

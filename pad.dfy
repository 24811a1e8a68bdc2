/** The Pad object: its two cache fields, which `check_events` updates in
    place, and the key event queue it drains one transition per poll. */
module PadObject {
  import opened Events
  import opened Polling

  /** The key scanner's event queue (`macropad.keys.events`): transitions
      oldest first. */
  class KeyQueue {
    var pending: seq<KeyTransition>

    constructor (initial: seq<KeyTransition>)
      ensures pending == initial
    {
      pending := initial;
    }

    /** The scanner side: a newly detected transition joins the back. */
    method Record(t: KeyTransition)
      modifies this
      ensures pending == old(pending) + [t]
    {
      pending := pending + [t];
    }

    /** Removes and returns the oldest transition, or None when the queue
        is empty. */
    method Get() returns (e: Option<KeyTransition>)
      modifies this
      ensures old(pending) == [] ==> e == None && pending == []
      ensures old(pending) != [] ==> e == Some(old(pending)[0]) && pending == old(pending)[1..]
    {
      if pending == [] {
        e := None;
      } else {
        e := Some(pending[0]);
        pending := pending[1..];
      }
    }
  }

  class Pad {
    var lastEncoderPosition: int
    var lastEncoderSwitch: bool
    const keys: KeyQueue

    /** The cache as a value. */
    ghost function Cache(): PadState
      reads this
    {
      PadState(lastEncoderPosition, lastEncoderSwitch)
    }

    /** Construction reads the encoder position and the switch value
        once and caches both; it reports nothing and leaves the key queue
        alone. */
    constructor (position: int, switch: bool, keys: KeyQueue)
      ensures lastEncoderPosition == position && lastEncoderSwitch == switch
      ensures this.keys == keys
    {
      lastEncoderPosition := position;
      lastEncoderSwitch := switch;
      this.keys := keys;
    }

    /** One poll, given the fresh encoder position and the value the
        `encoder_switch` property returns: reports a rotation, then a
        button change, then at most one key transition, exactly as `Poll`
        describes. */
    method CheckEvents(position: int, switch: bool) returns (events: seq<Event>)
      modifies this, keys
      ensures var r := Poll(old(Cache()), position, switch, old(keys.pending));
        && events == r.events
        && Cache() == r.state
        && keys.pending == r.pending
      ensures lastEncoderPosition == position
      ensures lastEncoderSwitch == old(lastEncoderSwitch)
    {
      events := [];
      if position != lastEncoderPosition {
        var last := lastEncoderPosition;
        lastEncoderPosition := position;
        events := events + [EncoderEvent(position, last)];
      }
      if switch != lastEncoderSwitch {
        events := events + [EncoderButtonEvent(switch)];
      }
      var keyEvent := keys.Get();
      if keyEvent.Some? {
        events := events + [KeyEvent(keyEvent.value.keyNumber, keyEvent.value.pressed)];
      }
    }
  }

  /** A client: encoder at 0, switch released, nothing queued. */
  method Session() {
    var queue := new KeyQueue([]);
    var pad := new Pad(0, false, queue);

    var events := pad.CheckEvents(0, false);
    assert events == [];

    events := pad.CheckEvents(3, false);
    assert events == [EncoderEvent(3, 0)];

    queue.Record(KeyTransition(4, true));
    events := pad.CheckEvents(3, true);
    assert events == [EncoderButtonEvent(true), KeyEvent(4, true)];

    // The switch value is still true: the switch cache was never updated,
    // so the press is reported again.
    events := pad.CheckEvents(3, true);
    assert events == [EncoderButtonEvent(true)];

    events := pad.CheckEvents(3, false);
    assert events == [];
  }
}

/** The three event kinds a Pad reports, the key transitions it consumes,
    and views of an event list by kind. */
module Events {

  datatype Option<+T> = None | Some(value: T)

  /** A pending press or release of one key, as the key scanner queues it. */
  datatype KeyTransition = KeyTransition(keyNumber: nat, pressed: bool)

  /** EncoderEvent, EncoderButtonEvent and KeyEvent of the firmware. */
  datatype Event =
    | EncoderEvent(position: int, previousPosition: int)
    | EncoderButtonEvent(pressed: bool)
    | KeyEvent(number: nat, pressed: bool)

  /** Place of each kind in the fixed order of one poll. */
  function Rank(e: Event): nat
  {
    match e
    case EncoderEvent(_, _) => 0
    case EncoderButtonEvent(_) => 1
    case KeyEvent(_, _) => 2
  }

  /** Events of one poll come in strictly increasing rank. */
  predicate InPollOrder(evs: seq<Event>)
  {
    forall i, j :: 0 <= i < j < |evs| ==> Rank(evs[i]) < Rank(evs[j])
  }

  /** The encoder-rotation events of `evs`, in order. */
  function Rotations(evs: seq<Event>): (r: seq<Event>)
    ensures |r| <= |evs|
    ensures forall i :: 0 <= i < |r| ==> r[i].EncoderEvent?
  {
    if evs == [] then []
    else (if evs[0].EncoderEvent? then [evs[0]] else []) + Rotations(evs[1..])
  }

  /** The encoder-button events of `evs`, in order. */
  function Buttons(evs: seq<Event>): (r: seq<Event>)
    ensures |r| <= |evs|
    ensures forall i :: 0 <= i < |r| ==> r[i].EncoderButtonEvent?
  {
    if evs == [] then []
    else (if evs[0].EncoderButtonEvent? then [evs[0]] else []) + Buttons(evs[1..])
  }

  /** The key transitions that the key events of `evs` report, in order. */
  function KeysReported(evs: seq<Event>): (r: seq<KeyTransition>)
    ensures |r| <= |evs|
  {
    if evs == [] then []
    else (match evs[0]
          case KeyEvent(n, p) => [KeyTransition(n, p)]
          case _ => []) + KeysReported(evs[1..])
  }

  lemma {:induction false} RotationsAppend(a: seq<Event>, b: seq<Event>)
    ensures Rotations(a + b) == Rotations(a) + Rotations(b)
  {
    if a != [] {
      assert (a + b)[1..] == a[1..] + b;
      RotationsAppend(a[1..], b);
    } else {
      assert a + b == b;
    }
  }

  lemma {:induction false} ButtonsAppend(a: seq<Event>, b: seq<Event>)
    ensures Buttons(a + b) == Buttons(a) + Buttons(b)
  {
    if a != [] {
      assert (a + b)[1..] == a[1..] + b;
      ButtonsAppend(a[1..], b);
    } else {
      assert a + b == b;
    }
  }

  lemma {:induction false} KeysReportedAppend(a: seq<Event>, b: seq<Event>)
    ensures KeysReported(a + b) == KeysReported(a) + KeysReported(b)
  {
    if a != [] {
      assert (a + b)[1..] == a[1..] + b;
      KeysReportedAppend(a[1..], b);
    } else {
      assert a + b == b;
    }
  }
}

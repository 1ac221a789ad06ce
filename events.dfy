/**
 * movement_event_type_t and movement_event_t: the kinds of event Movement
 * delivers to a watch face, and the two-byte record that carries one.
 *
 * The enumeration gives EVENT_NONE the value 0 and every later enumerator the
 * value of the one before it plus one, so a kind's code is its declaration
 * index. The record stores the code in an unsigned byte.
 */
module MovementEvents {

  datatype Option<T> = None | Some(value: T)

  type UInt8 = x: nat | x < 0x100

  /** The fifteen event kinds, in declaration order. */
  datatype EventType =
    | NoEvent              // EVENT_NONE: nothing to report
    | Activate             // the face is entering the foreground
    | Tick                 // the periodic tick
    | LowEnergyUpdate      // once-a-minute update in low energy mode
    | BackgroundTask       // the face is run for a background task
    | Timeout              // the face has been inactive for a while
    | LightButtonDown
    | LightButtonUp
    | LightLongPress
    | ModeButtonDown
    | ModeButtonUp
    | ModeLongPress
    | AlarmButtonDown
    | AlarmButtonUp
    | AlarmLongPress

  /** The enumerators as the header lists them. */
  const Declared: seq<EventType> :=
    [NoEvent, Activate, Tick, LowEnergyUpdate, BackgroundTask, Timeout,
     LightButtonDown, LightButtonUp, LightLongPress,
     ModeButtonDown, ModeButtonUp, ModeLongPress,
     AlarmButtonDown, AlarmButtonUp, AlarmLongPress]

  /** Number of event kinds. */
  const KindCount: nat := 15

  /** The value of a kind's enumerator. */
  function ToCode(k: EventType): (c: UInt8)
    ensures c < KindCount && Declared[c] == k
  {
    match k
    case NoEvent => 0
    case Activate => 1
    case Tick => 2
    case LowEnergyUpdate => 3
    case BackgroundTask => 4
    case Timeout => 5
    case LightButtonDown => 6
    case LightButtonUp => 7
    case LightLongPress => 8
    case ModeButtonDown => 9
    case ModeButtonUp => 10
    case ModeLongPress => 11
    case AlarmButtonDown => 12
    case AlarmButtonUp => 13
    case AlarmLongPress => 14
  }

  /** The kind a stored byte names; bytes 15..255 name none. */
  function FromCode(c: UInt8): (r: Option<EventType>)
    ensures r.Some? <==> c < KindCount
    ensures forall k :: r == Some(k) <==> ToCode(k) == c
  {
    if c < |Declared| then CodesFollowDeclaration(c); Some(Declared[c]) else None
  }

  /** Codes follow the declaration order: the i-th enumerator has value i. */
  lemma {:induction false} CodesFollowDeclaration(i: nat)
    requires i < |Declared|
    ensures ToCode(Declared[i]) == i
  {
    var k := Declared[i];
    assert Declared[ToCode(k)] == k;
    if ToCode(k) != i {
      DeclaredDistinct(i, ToCode(k));
      assert false;
    }
  }

  /** No enumerator is listed twice. */
  lemma DeclaredDistinct(i: nat, j: nat)
    requires i < |Declared| && j < |Declared| && i != j
    ensures Declared[i] != Declared[j]
  {
  }

  /** Kind to byte to kind is the identity. */
  lemma KindRoundTrip(k: EventType)
    ensures FromCode(ToCode(k)) == Some(k)
  {
  }

  /** Byte to kind to byte is the identity on the bytes that name a kind. */
  lemma CodeRoundTrip(c: UInt8)
    requires FromCode(c).Some?
    ensures ToCode(FromCode(c).value) == c
  {
    CodesFollowDeclaration(c);
  }

  // ----- button events -----

  datatype Button = Light | Mode | Alarm
  datatype Transition = Down | Up | LongPress

  function ButtonIndex(b: Button): nat
  {
    match b
    case Light => 0
    case Mode => 1
    case Alarm => 2
  }

  function TransitionIndex(t: Transition): nat
  {
    match t
    case Down => 0
    case Up => 1
    case LongPress => 2
  }

  /** The event kind of a transition of a button. */
  function ButtonEvent(b: Button, t: Transition): (k: EventType)
    ensures ToCode(k) == 6 + 3 * ButtonIndex(b) + TransitionIndex(t)
  {
    match (b, t)
    case (Light, Down) => LightButtonDown
    case (Light, Up) => LightButtonUp
    case (Light, LongPress) => LightLongPress
    case (Mode, Down) => ModeButtonDown
    case (Mode, Up) => ModeButtonUp
    case (Mode, LongPress) => ModeLongPress
    case (Alarm, Down) => AlarmButtonDown
    case (Alarm, Up) => AlarmButtonUp
    case (Alarm, LongPress) => AlarmLongPress
  }

  /** The button and transition of a button event; the first six kinds are not button events. */
  function ButtonOf(k: EventType): (r: Option<(Button, Transition)>)
    ensures r.None? <==> ToCode(k) < 6
    ensures r.Some? ==> ButtonEvent(r.value.0, r.value.1) == k
  {
    match k
    case LightButtonDown => Some((Light, Down))
    case LightButtonUp => Some((Light, Up))
    case LightLongPress => Some((Light, LongPress))
    case ModeButtonDown => Some((Mode, Down))
    case ModeButtonUp => Some((Mode, Up))
    case ModeLongPress => Some((Mode, LongPress))
    case AlarmButtonDown => Some((Alarm, Down))
    case AlarmButtonUp => Some((Alarm, Up))
    case AlarmLongPress => Some((Alarm, LongPress))
    case _ => None
  }

  /** Building a button event and taking it apart gives back the button and the transition. */
  lemma ButtonRoundTrip(b: Button, t: Transition)
    ensures ButtonOf(ButtonEvent(b, t)) == Some((b, t))
  {
  }

  /**
   * Decoding the code 6 + 3b + t recovers exactly button b and transition t:
   * the code determines the pair.
   */
  lemma {:induction false} ButtonCodeDecodes(b: Button, t: Transition, c: UInt8)
    requires c == 6 + 3 * ButtonIndex(b) + TransitionIndex(t)
    ensures FromCode(c) == Some(ButtonEvent(b, t))
    ensures (c - 6) / 3 == ButtonIndex(b) && (c - 6) % 3 == TransitionIndex(t)
  {
    CodeRoundTrip(ToCode(ButtonEvent(b, t)));
    KindRoundTrip(ButtonEvent(b, t));
  }

  // ----- the event record -----

  /** movement_event_t: the event kind's code and the subsecond counter, one byte each. */
  datatype Event = Event(eventType: UInt8, subsecond: UInt8)

  /** The record that reports kind k at subsecond s. */
  function MakeEvent(k: EventType, subsecond: UInt8): (e: Event)
    ensures KindOf(e) == Some(k) && e.subsecond == subsecond
  {
    Event(ToCode(k), subsecond)
  }

  /** The kind a record reports, if its byte names one. */
  function KindOf(e: Event): Option<EventType>
  {
    FromCode(e.eventType)
  }
}

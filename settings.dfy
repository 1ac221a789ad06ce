/**
 * movement_settings_t: the user preferences Movement keeps in a backup
 * register, a union of one 32-bit word and nine unsigned bit-fields.
 *
 * Layout (declaration order, least-significant bit first):
 *   bits  0-13  reserved
 *   bit     14  button_should_sound
 *   bits 15-16  to_interval
 *   bits 17-19  le_interval
 *   bits 20-21  led_duration
 *   bits 22-25  led_red_color
 *   bits 26-29  led_green_color
 *   bit     30  clock_mode_24h
 *   bit     31  use_imperial_units
 */
module MovementSettings {
  import opened BitField

  /** The `value` member of the union: an unsigned 32-bit word. */
  type Word32 = v: nat | v < 0x1_0000_0000

  type UInt14 = x: nat | x < 0x4000
  type UInt2 = x: nat | x < 4
  type UInt3 = x: nat | x < 8
  type UInt4 = x: nat | x < 16

  /** The `bit` member of the union: one bounded value per bit-field. */
  datatype Settings = Settings(
    reserved: UInt14,
    buttonShouldSound: bool,  // pressing a button emits a sound
    toInterval: UInt2,        // selector of the inactivity interval after which the face is asked to resign
    leInterval: UInt3,        // 0: low energy mode disabled, else selector of its inactivity interval
    ledDuration: UInt2,       // LED on-time in units of two seconds, 0: LED disabled
    ledRedColor: UInt4,       // red LED intensity
    ledGreenColor: UInt4,     // green LED intensity
    clockMode24h: bool,       // 24-hour rather than 12-hour clock
    useImperialUnits: bool)   // imperial rather than metric units

  /** The nine bit-fields, named after their members. */
  datatype Field =
    | Reserved | ButtonShouldSound | ToInterval | LeInterval | LedDuration
    | LedRedColor | LedGreenColor | ClockMode24h | UseImperialUnits

  /** The bit-fields in declaration order. */
  const Order: seq<Field> :=
    [Reserved, ButtonShouldSound, ToInterval, LeInterval, LedDuration,
     LedRedColor, LedGreenColor, ClockMode24h, UseImperialUnits]

  /** Their declared widths, in the same order. */
  const Widths: seq<nat> := [14, 1, 2, 3, 2, 4, 4, 1, 1]

  /** Declaration index of a field. */
  function Index(f: Field): (i: nat)
    ensures i < |Order| && Order[i] == f
  {
    match f
    case Reserved => 0
    case ButtonShouldSound => 1
    case ToInterval => 2
    case LeInterval => 3
    case LedDuration => 4
    case LedRedColor => 5
    case LedGreenColor => 6
    case ClockMode24h => 7
    case UseImperialUnits => 8
  }

  function Width(f: Field): nat
  {
    Widths[Index(f)]
  }

  /** Bit position of a field's least-significant bit. */
  function Position(f: Field): nat
  {
    Offset(Widths, Index(f))
  }

  /** The widths cover the 32-bit word exactly. */
  lemma WidthsCoverWord()
    ensures |Widths| == |Order| && Sum(Widths) == 32 && Pow2(Sum(Widths)) == 0x1_0000_0000
  {
    WordCapacity();
    assert Sum(Widths) == 32;
  }

  /** A 32-bit word holds 2^32 values. */
  lemma WordCapacity()
    ensures Pow2(32) == 0x1_0000_0000
  {
    assert Pow2(8) == 256;
    assert Pow2(16) == 0x1_0000 by { Pow2Add(8, 8); }
    Pow2Add(16, 16);
  }

  /** The number of values each field can hold, 2^width. */
  lemma FieldCapacities()
    ensures Pow2(Widths[0]) == 0x4000 && Pow2(Widths[1]) == 2 && Pow2(Widths[2]) == 4
    ensures Pow2(Widths[3]) == 8 && Pow2(Widths[4]) == 4 && Pow2(Widths[5]) == 16
    ensures Pow2(Widths[6]) == 16 && Pow2(Widths[7]) == 2 && Pow2(Widths[8]) == 2
  {
  }

  /** The positions the allocation rule gives each field. */
  lemma Layout()
    ensures Position(Reserved) == 0 && Width(Reserved) == 14
    ensures Position(ButtonShouldSound) == 14 && Width(ButtonShouldSound) == 1
    ensures Position(ToInterval) == 15 && Width(ToInterval) == 2
    ensures Position(LeInterval) == 17 && Width(LeInterval) == 3
    ensures Position(LedDuration) == 20 && Width(LedDuration) == 2
    ensures Position(LedRedColor) == 22 && Width(LedRedColor) == 4
    ensures Position(LedGreenColor) == 26 && Width(LedGreenColor) == 4
    ensures Position(ClockMode24h) == 30 && Width(ClockMode24h) == 1
    ensures Position(UseImperialUnits) == 31 && Width(UseImperialUnits) == 1
  {
    assert Widths[..0] == [];
    assert Widths[..1] == [14];
    assert Widths[..2] == [14, 1];
    assert Widths[..3] == [14, 1, 2];
    assert Widths[..4] == [14, 1, 2, 3];
    assert Widths[..5] == [14, 1, 2, 3, 2];
    assert Widths[..6] == [14, 1, 2, 3, 2, 4];
    assert Widths[..7] == [14, 1, 2, 3, 2, 4, 4];
    assert Widths[..8] == [14, 1, 2, 3, 2, 4, 4, 1];
  }

  /** The numeric value a one-bit flag holds. */
  function Bit(b: bool): nat
  {
    if b then 1 else 0
  }

  /** The field values of s in declaration order. */
  function Fields(s: Settings): (vals: seq<nat>)
    ensures Fits(vals, Widths)
  {
    FieldCapacities();
    [s.reserved, Bit(s.buttonShouldSound), s.toInterval, s.leInterval, s.ledDuration,
     s.ledRedColor, s.ledGreenColor, Bit(s.clockMode24h), Bit(s.useImperialUnits)]
  }

  /** The settings whose field values are vals; a one-bit flag is true when its bit is set. */
  function FromFields(vals: seq<nat>): (s: Settings)
    requires Fits(vals, Widths)
    ensures Fields(s) == vals
  {
    FieldCapacities();
    Settings(vals[0], vals[1] != 0, vals[2], vals[3], vals[4], vals[5], vals[6], vals[7] != 0, vals[8] != 0)
  }

  /** The numeric value of one field, as reading `settings.bit.<field>` gives it. */
  function Get(s: Settings, f: Field): (x: nat)
    ensures x < Pow2(Width(f))
  {
    Fields(s)[Index(f)]
  }

  /** Settings are equal when every field is. */
  lemma FieldsDetermine(s: Settings, t: Settings)
    requires forall f :: Get(s, f) == Get(t, f)
    ensures s == t
  {
    assert Get(s, Reserved) == Get(t, Reserved);
    assert Get(s, ButtonShouldSound) == Get(t, ButtonShouldSound);
    assert Get(s, ToInterval) == Get(t, ToInterval);
    assert Get(s, LeInterval) == Get(t, LeInterval);
    assert Get(s, LedDuration) == Get(t, LedDuration);
    assert Get(s, LedRedColor) == Get(t, LedRedColor);
    assert Get(s, LedGreenColor) == Get(t, LedGreenColor);
    assert Get(s, ClockMode24h) == Get(t, ClockMode24h);
    assert Get(s, UseImperialUnits) == Get(t, UseImperialUnits);
  }

  /**
   * The bit-field view of a word: every field holds the bits at its position,
   * `(value >> position) & (2^width - 1)`.
   */
  function Decode(v: Word32): (s: Settings)
    ensures forall f :: Get(s, f) == Extract(v, Position(f), Width(f))
  {
    var vals := Unpack(v, Widths);
    forall f ensures vals[Index(f)] == Extract(v, Position(f), Width(f)) {
      UnpackAt(v, Widths, Index(f));
    }
    FromFields(vals)
  }

  /** The word whose bit-field view is s. */
  function Encode(s: Settings): (v: Word32)
    ensures Decode(v) == s
  {
    var vals := Fields(s);
    PackBound(vals, Widths);
    WidthsCoverWord();
    UnpackPack(vals, Widths);
    Pack(vals, Widths)
  }

  /** Every 32-bit word is a valid settings value, and reading then writing it back loses nothing. */
  lemma {:induction false} EncodeDecode(v: Word32)
    ensures Encode(Decode(v)) == v
  {
    WidthsCoverWord();
    PackUnpack(v, Widths);
  }

  /** Encode and Decode are inverse bijections between words and settings. */
  lemma EncodeInjective(s: Settings, t: Settings)
    requires Encode(s) == Encode(t)
    ensures s == t
  {
  }

  /**
   * Assignment `settings.bit.<f> = x` of any integer x: an unsigned bit-field
   * keeps x modulo 2^width (negative x included, as C's conversion to an
   * unsigned type does), so a one-bit flag becomes true exactly when x is odd;
   * no other field changes.
   */
  function Set(s: Settings, f: Field, x: int): (t: Settings)
    ensures Get(t, f) == x % Pow2(Width(f))
    ensures forall g :: g != f ==> Get(t, g) == Get(s, g)
  {
    FromFields(Fields(s)[Index(f) := x % Pow2(Width(f))])
  }

  /** Assigning -1 to the three-bit le_interval stores 7, its largest value. */
  lemma SetNegative(s: Settings)
    ensures Set(s, LeInterval, -1).leInterval == 7
  {
  }

  /**
   * The word after assigning x to field f of the union: field f reads back
   * x modulo 2^width, every other field reads back unchanged, and the word is
   * the one C's read-modify-write on the field's bits produces.
   */
  function WriteField(v: Word32, f: Field, x: int): (w: Word32)
    ensures Get(Decode(w), f) == x % Pow2(Width(f))
    ensures forall g :: g != f ==> Get(Decode(w), g) == Get(Decode(v), g)
    ensures w == Insert(v, Position(f), Width(f), x % Pow2(Width(f)))
  {
    var r: nat := x % Pow2(Width(f));
    var s := Decode(v);
    var t := Set(s, f, r);
    WidthsCoverWord();
    InsertIsRepack(v, Widths, Index(f), r);
    ShiftIsDivMod(r, Width(f));
    DivModUnique(r, Pow2(Width(f)), 0, r);
    assert Get(t, f) == r;
    assert Fields(s) == Unpack(v, Widths);
    Encode(t)
  }

  /** Writing the red LED intensity leaves every other setting as it was. */
  lemma WriteRedKeepsOthers(v: Word32, x: int)
    ensures var s, t := Decode(v), Decode(WriteField(v, LedRedColor, x));
      && t.ledRedColor == x % 16
      && t == s.(ledRedColor := t.ledRedColor)
  {
    var s, t := Decode(v), Decode(WriteField(v, LedRedColor, x));
    FieldCapacities();
    FieldsDetermine(t, s.(ledRedColor := t.ledRedColor));
  }

  // ----- meanings the field comments give -----

  /** Low energy mode is switched off by a zero le_interval. */
  predicate LowEnergyEnabled(s: Settings)
  {
    s.leInterval != 0
  }

  /** The LED is switched off by a zero led_duration. */
  predicate LedEnabled(s: Settings)
  {
    s.ledDuration != 0
  }

  /** How long the LED shines, in seconds: led_duration counts units of two seconds. */
  function LedOnSeconds(s: Settings): (secs: nat)
    ensures secs in {0, 2, 4, 6}
    ensures secs == 0 <==> !LedEnabled(s)
    ensures secs / 2 == s.ledDuration
  {
    s.ledDuration * 2
  }

  /** The all-zero word: buttons silent, low energy mode and the LED disabled, 12-hour clock, metric units. */
  lemma DecodeZero()
    ensures var s := Decode(0);
      && s == Settings(0, false, 0, 0, 0, 0, 0, false, false)
      && !LowEnergyEnabled(s) && !LedEnabled(s) && LedOnSeconds(s) == 0
      && !s.clockMode24h && !s.useImperialUnits && !s.buttonShouldSound
  {
    var zero := Settings(0, false, 0, 0, 0, 0, 0, false, false);
    PackZeros(Fields(zero), Widths);
    assert Encode(zero) == 0;
  }

  /** What the bits of any stored word mean. */
  lemma WordMeanings(v: Word32)
    ensures LowEnergyEnabled(Decode(v)) <==> Extract(v, 17, 3) != 0
    ensures LedEnabled(Decode(v)) <==> Extract(v, 20, 2) != 0
    ensures LedOnSeconds(Decode(v)) == 2 * Extract(v, 20, 2)
    ensures Decode(v).ledRedColor == Extract(v, 22, 4) && Decode(v).ledGreenColor == Extract(v, 26, 4)
    ensures Decode(v).useImperialUnits <==> Extract(v, 31, 1) == 1
  {
    var s := Decode(v);
    Layout();
    assert Get(s, LeInterval) == s.leInterval;
    assert Get(s, LedDuration) == s.ledDuration;
    assert Get(s, LedRedColor) == s.ledRedColor && Get(s, LedGreenColor) == s.ledGreenColor;
    assert Get(s, UseImperialUnits) == Bit(s.useImperialUnits);
  }
}

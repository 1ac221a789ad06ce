# Movement settings word and event codes, in Dafny

Movement is the watch-face framework of the Sensor Watch firmware. Its header
`movement/movement.h` fixes two data encodings that every watch face relies on:

- `movement_settings_t`, the user preferences kept in a backup register: a union
  of one 32-bit word and nine unsigned bit-fields (reserved, button sound,
  timeout interval, low energy interval, LED duration, red and green LED
  intensity, 12/24-hour clock, metric/imperial units);
- `movement_event_type_t` and `movement_event_t`, the fifteen kinds of event a
  face receives, stored as a byte code beside a subsecond byte.

This project models both as pure functions and proves their round trips, the
independence of the bit-fields, the ranges the comments give, and the layout of
the button events.

Files:

- `bitfield.dfy`, module `BitField`: packing of unsigned bit-fields into one
  word for any list of widths, and the general lemmas (round trips both ways,
  the word bound, "field i is the bits at its offset", a store changes only its
  own bits).
- `settings.dfy`, module `MovementSettings`: the settings record, `Decode` and
  `Encode` between it and the 32-bit word, field assignment with C truncation,
  and the meanings the comments give (LED seconds, "0 disables").
- `events.dfy`, module `MovementEvents`: the event kinds, their byte codes, the
  button × transition structure and the event record.

Modelling decisions:

- Words are natural numbers below 2^32. The shift and mask operators that
  read and write a bit-field (`v >> n`, `x << n`, `x & (2^n - 1)`) are defined
  bit by bit and proved equal to division and remainder by 2^n
  (`BitField.ShiftIsDivMod`) and to multiplication by 2^n
  (`BitField.ShlIsMul`).
- C leaves the order of bit-fields in a word to the compiler. The model assumes
  the GCC/ARM little-endian rule: fields are allocated from the least
  significant bit upwards, in declaration order, with no padding. So `reserved`
  is bits 0-13, `button_should_sound` bit 14, `to_interval` bits 15-16,
  `le_interval` bits 17-19, `led_duration` bits 20-21, `led_red_color` bits
  22-25, `led_green_color` bits 26-29, `clock_mode_24h` bit 30 and
  `use_imperial_units` bit 31 (lemma `MovementSettings.Layout`).
- The record's fields have bounded types (`UInt4` for a colour, `bool` for a
  one-bit flag), so a record cannot hold a value its bit-field could not. An
  assignment of an out-of-range integer, negative ones included, is where C
  truncates; `Set` and `WriteField` take any integer and keep it modulo
  2^width (Dafny's `%` is Euclidean, so -1 becomes 2^width - 1, as in C), and a
  flag becomes true exactly when the number is odd.
- The enumeration's codes are its declaration indices (EVENT_NONE is 0 and each
  later enumerator is one more). The record keeps the code in an unsigned byte;
  bytes 15 to 255 name no kind, and `FromCode` returns `None` for them.
- A long press is a button held for more than two seconds; only the event
  codes are modelled, so the duration threshold does not enter the model.
- The header gives `to_interval` no "disabled" value (only `le_interval` and
  `led_duration` have one); the model follows the header.

## Model

| member | source | states |
|---|---|---|
| BitField.Unpack | movement/movement.h:7-25 | the fields read from any word each fit the width their bit-field declares |
| BitField.Low | movement/movement.h:8-22 | masking a number to its n low bits, as a read of an n-bit field does, gives a value below 2^n |
| BitField.ShiftIsDivMod | movement/movement.h:8-22 | shifting right by n is division by 2^n and masking n bits is the remainder by 2^n |
| BitField.ShlIsMul | movement/movement.h:8-22 | shifting left by n is multiplication by 2^n |
| BitField.SplitAt | movement/movement.h:8-22 | every number is its n low bits plus the rest shifted back into place |
| BitField.LowShl | movement/movement.h:8-22 | an n-bit value with another value shifted in above it can be taken apart again into the two |
| BitField.PackBound | movement/movement.h:7-25 | a word built from fields that fit their widths is below 2 to the total width |
| BitField.UnpackPack | movement/movement.h:7-25 | reading back the fields of a word built from fitting fields gives every field unchanged |
| BitField.PackUnpack | movement/movement.h:7-25 | rebuilding a word from its fields gives the word back, for every word within the total width |
| BitField.UnpackAt | movement/movement.h:8-23 | the i-th field of a word is the bits starting at the sum of the widths declared before it |
| BitField.PackUpdate | movement/movement.h:8-23 | replacing one field value changes the word only by that field's contribution at its offset |
| BitField.PackZeros | movement/movement.h:7-25 | a word whose fields are all zero is the zero word |
| BitField.InsertIsRepack | movement/movement.h:8-23 | C's store into a bit-field (clear the field's bits, set the new value reduced to the width) equals unpacking, replacing the field and packing |
| MovementSettings.WidthsCoverWord | movement/movement.h:9-22 | the nine widths add up to exactly 32 bits |
| MovementSettings.FieldCapacities | movement/movement.h:9-22 | each field holds 2^width values: 16384, 2, 4, 8, 4, 16, 16, 2, 2 |
| MovementSettings.Layout | movement/movement.h:8-23 | the bit position and width of each of the nine fields under the low-bit-first allocation |
| MovementSettings.Index | movement/movement.h:9-22 | each field has a declaration index whose entry in the declaration order is that field |
| MovementSettings.Fields | movement/movement.h:9-22 | the field values of any settings record fit their declared widths |
| MovementSettings.FromFields | movement/movement.h:9-22 | a record built from fitting field values gives those values back |
| MovementSettings.Get | movement/movement.h:9-22 | every field reads as a number below 2^width, so le_interval is 0..7, to_interval and led_duration 0..3, and the LED colours 0..15 |
| MovementSettings.FieldsDetermine | movement/movement.h:8-23 | two records whose nine fields agree are equal |
| MovementSettings.Decode | movement/movement.h:7-25 | viewing any 32-bit word through the bit-field member gives each field as the bits at its position, shifted down and masked |
| MovementSettings.Encode | movement/movement.h:7-25 | the word built from a record decodes back to exactly that record |
| MovementSettings.EncodeDecode | movement/movement.h:7-25 | decoding any 32-bit word and re-encoding it gives the identical word: every word is a valid settings value |
| MovementSettings.EncodeInjective | movement/movement.h:7-25 | distinct records never share a word |
| MovementSettings.Set | movement/movement.h:9-22 | assigning any integer, negative ones included, to one field stores it modulo 2^width and leaves every other field unchanged |
| MovementSettings.SetNegative | movement/movement.h:12 | assigning -1 to the three-bit le_interval stores 7 |
| MovementSettings.WriteField | movement/movement.h:7-25 | writing any integer to one field of a stored word: that field reads back the value modulo 2^width, every other field reads back unchanged, and the word is C's read-modify-write of the reduced value on the field's bits |
| MovementSettings.WriteRedKeepsOthers | movement/movement.h:14 | writing any integer to led_red_color reads back the value modulo 16 and leaves the other eight settings as they were |
| MovementSettings.LedOnSeconds | movement/movement.h:13 | the LED shines for 0, 2, 4 or 6 seconds, twice led_duration, and for 0 exactly when the LED is disabled |
| MovementSettings.DecodeZero | movement/movement.h:10-22 | the all-zero word means buttons silent, low energy mode and LED disabled, 12-hour clock, metric units |
| MovementSettings.WordMeanings | movement/movement.h:12-22 | for any word, low energy mode is on exactly when bits 17-19 are not all zero, the LED is on exactly when bits 20-21 are not, it shines for twice those bits in seconds, the colours are bits 22-25 and 26-29, and imperial units is bit 31 |
| MovementEvents.ToCode | movement/movement.h:27-43 | every kind's code is below 15, fits the byte it is stored in, and is the kind's declaration index |
| MovementEvents.FromCode | movement/movement.h:27-46 | a byte names a kind exactly when it is below 15, and it names kind k exactly when k's enumerator value is that byte: FromCode is the inverse of ToCode |
| MovementEvents.CodesFollowDeclaration | movement/movement.h:27-43 | the i-th enumerator has code i, so EVENT_NONE is 0 and the codes run 0..14 in declaration order |
| MovementEvents.DeclaredDistinct | movement/movement.h:27-43 | no enumerator is listed twice |
| MovementEvents.KindRoundTrip | movement/movement.h:27-46 | kind to code to kind is the identity |
| MovementEvents.CodeRoundTrip | movement/movement.h:27-46 | code to kind to code is the identity on the codes that name a kind |
| MovementEvents.ButtonEvent | movement/movement.h:34-42 | the event for button b (light, mode, alarm) and transition t (down, up, long press) has code 6 + 3b + t |
| MovementEvents.ButtonOf | movement/movement.h:28-42 | a kind is a button event exactly when its code is 6 or more, and then its button and transition rebuild it |
| MovementEvents.ButtonRoundTrip | movement/movement.h:34-42 | a button event taken apart gives back its button and transition |
| MovementEvents.ButtonCodeDecodes | movement/movement.h:34-42 | the code 6 + 3b + t decodes to the event of button b and transition t, and (code - 6) / 3 and (code - 6) % 3 recover b and t |
| MovementEvents.MakeEvent | movement/movement.h:45-48 | an event record built from a kind and a subsecond reports that kind and that subsecond |

## Left out

- `movement_move_to_face`, `movement_move_to_next_face`, `movement_illuminate_led` and `movement_request_tick_frequency` (movement/movement.h:185-188): the header only declares them, and its first comment says none of it is implemented, so there is no behaviour to model.
- The watch-face callbacks `setup`, `activate`, `loop`, `resign` and `wants_background_task` (movement/movement.h:50-150): they are function-pointer types implemented by each face; their duties (reset the tick frequency in resign, do not wake peripherals on a low energy tick, move on after a mode long press) bind face authors and have no code here.
- The transient fields of `movement_state_t` (movement/movement.h:156-182): no operation in the header updates them.
- Persisting the settings in the backup register, sleep modes, the RTC, the LED pins and other peripherals: hardware input and output outside the header.
- What the `to_interval` and `le_interval` selectors mean in seconds: the header does not give the durations, so only the selector values and "0 disables low energy mode" are modelled.
- The subsecond byte of an event is carried as any byte; its relation to the tick frequency is not stated in the header.
- Which defaults the firmware writes at first boot: not in the header; `DecodeZero` only says what the all-zero word means.

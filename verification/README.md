# racedata packet decoding and race-boundary detection, in Dafny

This project models two parts of `racedata`, a Python library that reads the
UDP telemetry broadcast of Project CARS.

- **Packet decoding.** Three fixed binary layouts are decoded from byte
  buffers:
  - the 1367-byte telemetry packet;
  - the 1347-byte participant info strings packet;
  - the 1028-byte additional participant info strings packet.

  The model covers the 3-byte header shared by all three, and the header's
  type/count byte. It covers every bit-field property of the telemetry
  packet, and the 56 nine-value `ParticipantInfo` blocks with their bit
  fields and quarter-unit position refinement. It covers the 64-byte string
  fields, which are decoded as strict UTF-8 and cut at the first NUL. It
  also covers the hash-based `==`/`!=` of packets.
- **Race-boundary detection.** `RaceData._build_descriptor` is modelled as
  three passes over a captured packet stream:
  - a forward pass finds `race_end`;
  - a reverse pass anchored on that hash finds `race_finish`, the green flag
    and a first `race_start`;
  - a forward population pass moves `race_start` to the first packet whose
    participants all report a position and a sector.

  `RaceData._to_hash` then positions the stream at a hash.

Modules:

| module | file | models |
|---|---|---|
| `Results` | results.dfy | `Option`, and `Result` with the Python exceptions the core raises |
| `Bytes` | bytes.dfy | bytes as `nat < 256`; masks and shifts as `(x / 2^lo) % 2^w`; little-endian integers |
| `StructFormat` | struct_format.dfy | `struct.unpack`/`struct.pack` for the format characters used (`B b H h f 64s`, little-endian) |
| `Text` | text.dfy | `str(field, 'utf-8', 'strict').split('\x00', 1)[0]` |
| `Packet` | packet.dfy | `Packet`: header, `packet_type`, `count`, `__eq__`/`__ne__`/`__hash__` |
| `TelemetryLayout`, `Telemetry` | telemetry_layout.dfy, telemetry.dfy | the `TelemetryDataPacket` format string and its `__init__` |
| `TelemetryFields`, `ParticipantInfoFields` | telemetry_fields.dfy, participant_info.dfy | the bit-field properties of `TelemetryDataPacket` and `ParticipantInfo` |
| `Participant` | participant.dfy | `ParticipantPacket` |
| `AdditionalParticipant` | additional_participant.dfy | `AdditionalParticipantPacket` |
| `RaceStream` | race_stream.dfy | the packet stream as the scans see it; `_to_hash` |
| `RaceEnd` | race_end.dfy | the forward pass (`race_end`) |
| `RaceStart` | race_start.dfy | the reverse pass (`race_finish`, green flag, first `race_start`) |
| `RaceDescriptor` | race_descriptor.dfy | the population pass, the whole descriptor, and the `_to_hash` of `__init__` |
| `TelemetryOffsets` | telemetry_offsets.dfy | the byte offsets of the telemetry fields the scans read |

Modelling choices:

- **Hashes.** Python's `hash(packet_data)` is an opaque parameter
  `hasher: seq<byte> -> int`.
- **Floats.** Every `f` field is kept as its four bytes (`F32`). The one
  float comparison the core makes, `last_sector_time == -123`, is a
  comparison with the single bit pattern of -123.0.
- **Positions.** World positions are exact integers in quarter units.
- **Errors.** Errors are values:
  - `StructError` when a buffer has the wrong length;
  - `UnicodeDecodeError` when a string field is not strict UTF-8;
  - `StopIteration` when a scan runs off the stream;
  - `AttributeError` when the population pass reads `participant_info` from
    a packet that has none.
- **Behaviour of the code.** Some of what the code does is easy to miss:
  - The forward pass never looks for a racing or race-session packet. It
    keeps the **last** run of finished packets, and ends a run only at a
    telemetry packet that is not finished.
  - When the stream holds no finished packet, `race_end` is `hash(None)`.
    The reverse pass then fails with `StopIteration`. It does not fall back
    to the last racing packet.
  - The reverse pass remembers the latest **telemetry** packet, whatever its
    race state. It stops at the first telemetry packet whose session is not
    a race or whose game is not playing.
  - The reverse pass and the population pass fail with `StopIteration` when
    the stream runs out. Only the walk back from the green flag catches
    `StopIteration`.
  - When `_build_descriptor` raises, `descriptor` is still `None`. The
    `finally` clause of `__init__` then subscripts it and raises
    `TypeError`, which replaces the first exception.
  - Each layout's decoder is its own function: there is no length dispatch.
    In the code, each subclass's `__new__` raises `NotImplementedError`, and
    `Packet.__init__` takes whatever format string the class declares.
  - The docstring at racedata/RaceData.py:24 gives 1048 bytes for the
    additional participant packet. The format string `=HBB` + `64s` * 16
    gives 1028, which is what the model uses.

## Model

| member | source | states |
|---|---|---|
| Packet.PacketType | racedata/Packet.py:37-39 | `packet_type` is the type byte mod 4, its low two bits, so it is below 4 |
| Packet.Count | racedata/Packet.py:41-43 | `count` is the type byte divided by 4, its high six bits, so it is below 64 |
| Packet.TypeAndCountRebuildByte | racedata/Packet.py:37-43 | `count * 4 + packet_type` is the raw type byte: the two properties split it without loss |
| Packet.Decode | racedata/Packet.py:17-35 | the base layout `HB` fails with `struct.error` exactly when the buffer is not 3 bytes; otherwise `_hash` is the buffer's hash, `build_version_number` is the little-endian u16 of bytes 0-1, and the type byte is byte 2 |
| Packet.HeaderOfBytes | racedata/Packet.py:31-35 | the first two values unpacked from 3 header bytes are the u16 of bytes 0-1 and byte 2 |
| Packet.FieldsOfTypeByte | racedata/Packet.py:37-43 | a type byte built as `count * 4 + packet_type` reads both back through the two properties |
| Packet.DecodeEncodeHeader | racedata/Packet.py:17-43 | a header packed from a version, a type and a count, as the tests pack one, decodes to the same version, type and count |
| Packet.EncodeDecodeHeader | racedata/Packet.py:17-43 | any 3 bytes are the packing of the version, type and count they decode to |
| Packet.NeMethod | racedata/Packet.py:60-68 | `__ne__` answers exactly when `__eq__` answers, and then with the opposite truth value |
| Packet.EqMethodSymmetric | racedata/Packet.py:60-63 | when both operands' `__eq__` answer, they give the same answer |
| Packet.Equals | racedata/Packet.py:60-68 | `==` with Python's reflected-operand rule: two packets one of whose classes is the other's compare hashes; packets of unrelated layouts are never equal; a pair with a non-packet object is equal only when it is one object |
| Packet.NotEquals | racedata/Packet.py:60-68 | `!=`, computed through `__ne__`, is always the negation of `==` |
| Packet.EqualsIffSameHash | racedata/Packet.py:60-68 | two packets of one class, or a base packet and any packet, are `==` exactly when their hashes are equal |
| Packet.DifferentLayoutsNeverEqual | racedata/Packet.py:60-68 | packets of two different layouts are never `==` and always `!=`, whatever their hashes |
| Packet.PacketNeverEqualsOther | racedata/Packet.py:60-68 | a packet is never `==` to a non-packet object, in either operand order |
| Packet.NotEqualsIsNegation | racedata/Packet.py:60-68 | `a != b` is always `not (a == b)` |
| Packet.EqualsSymmetric | racedata/Packet.py:60-68 | `a == b` and `b == a` agree |
| Packet.EqualPacketsHashAlike | racedata/Packet.py:60-71 | packets that are `==` have the same `__hash__` |
| Packet.DecodedPacketsEqual | racedata/Packet.py:19-71 | two decoded base packets are `==` exactly when their buffers hash alike; packets of identical bytes are `==` |
| StructFormat.Unpack | racedata/Packet.py:45-52 | `unpack` fails with `struct.error` exactly when the buffer's length is not the format's size; otherwise it yields one value per format character |
| StructFormat.UnpackAllConforms | racedata/Packet.py:45-52 | each unpacked value has the kind and the range of its format character |
| StructFormat.UnpackPack | racedata/Packet.py:45-52 | unpacking packed values gives the values back |
| StructFormat.PackUnpack | racedata/Packet.py:45-52 | packing unpacked values gives the buffer back |
| Text.BeforeNul | racedata/ParticipantPacket.py:31-34 | `split('\x00', 1)[0]` is a prefix with no NUL, followed in the text by a NUL or by nothing |
| Text.DecodeField | racedata/ParticipantPacket.py:31-34 | a field fails with `UnicodeDecodeError` exactly when the whole 64-byte field is not strict UTF-8; otherwise the result is a NUL-free prefix of the decoded text that stops at its first NUL |
| Text.DecodeEncode | racedata/ParticipantPacket.py:31-34 | strict UTF-8 decoding inverts UTF-8 encoding of any text |
| Text.FieldAroundNulDecodes | racedata/ParticipantPacket.py:31-34 | a field with a NUL after NUL-free bytes decodes exactly when the bytes on both sides of that NUL are strict UTF-8, so a bad byte after the NUL is still an error |
| Text.GarbageAfterNulIgnored | racedata/ParticipantPacket.py:31-34 | when such a field decodes, its text is the decoding of the bytes before the NUL, whatever follows |
| Text.ZeroFieldIsEmpty | racedata/ParticipantPacket.py:31-34 | an all-zero field decodes to the empty string |
| Text.FieldWithoutNulIsWhole | racedata/ParticipantPacket.py:31-34 | a valid field with no zero byte decodes to all of its text |
| Text.NameRoundTrip | racedata/ParticipantPacket.py:48-51 | a NUL-free name of at most 64 UTF-8 bytes, NUL-padded to 64 bytes, decodes back to itself |
| Text.DecodeFields | racedata/ParticipantPacket.py:48-51 | a list of fields decodes exactly when every field does, to one string per field in order; otherwise `UnicodeDecodeError` |
| Text.DecodeEncodeFields | racedata/ParticipantPacket.py:48-51 | a list of fitting names, padded into fields, decodes back to the list |
| Participant.ParticipantFormatSize | racedata/ParticipantPacket.py:18-20 | the layout is 1347 bytes and 38 values |
| Participant.FieldAt | racedata/ParticipantPacket.py:31-51 | string value `i` is the 64 bytes at offset 3 + 64i |
| Participant.LapTimeAt | racedata/ParticipantPacket.py:53-54 | `fastest_lap_time[j]` is the 4 bytes at offset 1283 + 4j |
| Participant.Decode | racedata/ParticipantPacket.py:22-54 | `struct.error` unless 1347 bytes; success exactly when all 20 string fields decode, else `UnicodeDecodeError`; the header from bytes 0-2, `car_name`, `car_class_name`, `track_location`, `track_variation` and the 16 names each the decoding of its own field, and the 16 lap times the 16 words after the strings |
| Participant.DecodeEncode | racedata/ParticipantPacket.py:22-54 | a packet whose 20 strings fit their fields decodes back from its packing, with the packing's hash |
| AdditionalParticipant.AdditionalFormatSize | racedata/AdditionalParticipantPacket.py:19-20 | the layout is 1028 bytes and 19 values |
| AdditionalParticipant.OffsetAt | racedata/AdditionalParticipantPacket.py:31 | `offset` is byte 3, the byte after the type byte |
| AdditionalParticipant.NameAt | racedata/AdditionalParticipantPacket.py:33-36 | name value `i` is the 64 bytes at offset 4 + 64i |
| AdditionalParticipant.Decode | racedata/AdditionalParticipantPacket.py:22-36 | `struct.error` unless 1028 bytes; success exactly when all 16 name fields decode, else `UnicodeDecodeError`; the header from bytes 0-2, `offset` byte 3, and exactly 16 names, each its own field's decoding, so empty slots stay in place |
| AdditionalParticipant.DecodeEncode | racedata/AdditionalParticipantPacket.py:22-36 | a packet whose names fit their fields decodes back from its packing |
| AdditionalParticipant.EncodedTypeAndCount | racedata/AdditionalParticipantPacket.py:15-19 | a packet packed with `(count << 2) + 2` in the type byte decodes to `packet_type == 2` and the same count |
| TelemetryLayout.TelemetrySize | racedata/TelemetryDataPacket.py:16-34 | the telemetry format string is 1367 bytes |
| TelemetryLayout.TelemetryValueCount | racedata/TelemetryDataPacket.py:16-34 | it unpacks to 686 values, 178 of them before the participant blocks |
| Telemetry.InfoOf | racedata/TelemetryDataPacket.py:512-522 | a participant block reads nine values, with three position words, and packs back to them |
| Telemetry.ParticipantsOf | racedata/TelemetryDataPacket.py:285-288 | the participant loop reads `n` blocks, each with a three-entry position |
| Telemetry.ParticipantsRoundTrip | racedata/TelemetryDataPacket.py:285-288 | the blocks read pack back to the values they were read from, block after block |
| Telemetry.MotionOf | racedata/TelemetryDataPacket.py:110-144 | the odometer and seven three-entry vectors read back the 22 words they came from |
| Telemetry.WheelsOf | racedata/TelemetryDataPacket.py:214-270 | the 23 four-tyre loops give lists of four that pack back to the values read |
| Telemetry.BuildValues | racedata/TelemetryDataPacket.py:36-294 | the record `__init__` fills in, popping values in order, packs back to the unpacked values |
| Telemetry.Decode | racedata/TelemetryDataPacket.py:36-294 | `struct.error` exactly when the buffer is not 1367 bytes; otherwise a well-formed record with the buffer's hash |
| Telemetry.EncodeDecode | racedata/TelemetryDataPacket.py:36-294 | the record decoded from a 1367-byte buffer packs back to that buffer, so decoding loses no byte |
| TelemetryFields.GameState | racedata/TelemetryDataPacket.py:296-304 | `game_state` is the game/session byte mod 16, its low nibble |
| TelemetryFields.SessionState | racedata/TelemetryDataPacket.py:306-317 | `session_state` is the game/session byte divided by 16, its high nibble |
| TelemetryFields.GameSessionStateRebuild | racedata/TelemetryDataPacket.py:296-317 | `(session_state << 4) + game_state` is the raw byte |
| TelemetryFields.RaceState | racedata/TelemetryDataPacket.py:319-330 | `race_state` is the flags byte mod 8, bits 0-2 |
| TelemetryFields.LapInvalidated | racedata/TelemetryDataPacket.py:332-334 | `lap_invalidated` holds exactly when bit 3 of the flags byte is set, i.e. the byte mod 16 is at least 8 |
| TelemetryFields.AntiLockActive | racedata/TelemetryDataPacket.py:336-338 | `anti_lock_active` holds exactly when bit 4 is set: the byte mod 32 is at least 16 |
| TelemetryFields.BoostActive | racedata/TelemetryDataPacket.py:340-342 | `boost_active` holds exactly when bit 5 is set: the byte mod 64 is at least 32 |
| TelemetryFields.RaceStateFlagsOfPacked | racedata/TelemetryDataPacket.py:319-342 | a flags byte built from a race state and three flags, with anything in the two top bits, reads back each of the four, so setting one field never disturbs another |
| TelemetryFields.RaceStateFlagsRebuild | racedata/TelemetryDataPacket.py:319-342 | the four race-state properties and the two top bits give the raw byte |
| TelemetryFields.HighestFlagColor | racedata/TelemetryDataPacket.py:344-356 | `highest_flag_color` is the flag byte mod 16 |
| TelemetryFields.HighestFlagReason | racedata/TelemetryDataPacket.py:358-366 | `highest_flag_reason` is the flag byte divided by 16 |
| TelemetryFields.HighestFlagRebuild | racedata/TelemetryDataPacket.py:344-366 | the two flag properties give the raw byte |
| TelemetryFields.PitMode | racedata/TelemetryDataPacket.py:368-377 | `pit_mode` is the pit byte mod 16 |
| TelemetryFields.PitSchedule | racedata/TelemetryDataPacket.py:379-387 | `pit_schedule` is the pit byte divided by 16 |
| TelemetryFields.PitModeScheduleRebuild | racedata/TelemetryDataPacket.py:368-387 | the two pit properties give the raw byte |
| TelemetryFields.CarHeadlight | racedata/TelemetryDataPacket.py:389-391 | `car_headlight` holds exactly when bit 0 of the car flags byte is set: the byte mod 2 is 1 |
| TelemetryFields.CarEngineActive | racedata/TelemetryDataPacket.py:393-395 | `car_engine_active` holds exactly when bit 1 of the car flags byte is set: the byte mod 4 is at least 2 |
| TelemetryFields.CarEngineWarning | racedata/TelemetryDataPacket.py:397-399 | `car_engine_warning` holds exactly when bit 2 of the car flags byte is set: the byte mod 8 is at least 4 |
| TelemetryFields.CarSpeedLimiter | racedata/TelemetryDataPacket.py:401-403 | `car_speed_limiter` holds exactly when bit 3 of the car flags byte is set: the byte mod 16 is at least 8 |
| TelemetryFields.CarAbs | racedata/TelemetryDataPacket.py:405-407 | `car_abs` holds exactly when bit 4 of the car flags byte is set: the byte mod 32 is at least 16 |
| TelemetryFields.CarHandbrake | racedata/TelemetryDataPacket.py:409-411 | `car_handbrake` holds exactly when bit 5 of the car flags byte is set: the byte mod 64 is at least 32 |
| TelemetryFields.CarStability | racedata/TelemetryDataPacket.py:413-415 | `car_stability` holds exactly when bit 6 of the car flags byte is set: the byte mod 128 is at least 64 |
| TelemetryFields.CarTractionControl | racedata/TelemetryDataPacket.py:417-419 | `car_traction_control` holds exactly when bit 7 of the car flags byte is set: the byte is at least 128 |
| TelemetryFields.CarFlags | racedata/TelemetryDataPacket.py:389-419 | the eight car flags, from headlight to traction control |
| TelemetryFields.CarFlagsOfPacked | racedata/TelemetryDataPacket.py:389-419 | car flag `i` reads back bit `i` of a flags byte built from eight flags |
| TelemetryFields.CarFlagsRebuild | racedata/TelemetryDataPacket.py:389-419 | the eight car flags give the raw byte |
| TelemetryFields.Gear | racedata/TelemetryDataPacket.py:421-423 | `gear` is the gear byte mod 16 |
| TelemetryFields.NumGears | racedata/TelemetryDataPacket.py:425-427 | `num_gears` is the gear byte divided by 16 |
| TelemetryFields.GearNumGearsRebuild | racedata/TelemetryDataPacket.py:421-427 | `gear` and `num_gears` give the raw byte |
| TelemetryFields.TyreAttached | racedata/TelemetryDataPacket.py:429-431 | one `tyre_attached` flag per tyre |
| TelemetryFields.TyreInflated | racedata/TelemetryDataPacket.py:433-436 | one `tyre_inflated` flag per tyre |
| TelemetryFields.TyreIsOnGround | racedata/TelemetryDataPacket.py:438-441 | one `tyre_is_on_ground` flag per tyre |
| TelemetryFields.TyreFlagsOfPacked | racedata/TelemetryDataPacket.py:429-441 | tyre flag bytes built from three flags, with anything above them, read back all three lists |
| TelemetryFields.TyreFlagsRebuild | racedata/TelemetryDataPacket.py:429-441 | each tyre's byte is its three flags plus the bits above them |
| TelemetryFields.JoypadButtons | racedata/TelemetryDataPacket.py:443-487 | `joypad_buttons` always has 24 entries |
| TelemetryFields.JoypadButtonsAreBits | racedata/TelemetryDataPacket.py:443-487 | entries 0-15 are bits 0-15 of the joypad word, 16-19 are bits 4-7 of the d-pad byte, and 20-23 are bits 4-7 of the crash byte |
| TelemetryFields.JoypadButtonsOfPacked | racedata/TelemetryDataPacket.py:443-498 | bytes built from 24 buttons, as the tests build them, read back the buttons, and the crash state beside them |
| TelemetryFields.CrashState | racedata/TelemetryDataPacket.py:489-498 | `crash_state` is the crash byte mod 16 |
| ParticipantInfoFields.RacePosition | racedata/TelemetryDataPacket.py:535-538 | `race_position` is the position byte mod 128, its low seven bits |
| ParticipantInfoFields.IsActive | racedata/TelemetryDataPacket.py:540-543 | `is_active` holds exactly when the position byte is at least 128, its top bit set |
| ParticipantInfoFields.RacePositionOfPacked | racedata/TelemetryDataPacket.py:535-543 | a byte built from a position and an active flag reads both back |
| ParticipantInfoFields.RacePositionRebuild | racedata/TelemetryDataPacket.py:535-543 | `race_position` and `is_active` give the raw byte |
| ParticipantInfoFields.LapsCompleted | racedata/TelemetryDataPacket.py:545-548 | `laps_completed` is the laps byte mod 128 |
| ParticipantInfoFields.LapInvalidated | racedata/TelemetryDataPacket.py:550-570 | `lap_invalidated` holds exactly when the laps byte's top bit is set and the participant is not at the race start, which is sector byte mod 8 equal to 3 with a previous sector time of exactly -123.0 |
| ParticipantInfoFields.LapsOfPacked | racedata/TelemetryDataPacket.py:545-570 | a laps byte built from a count and an invalid flag reads the count back, and the flag except at the race start (sector 3, previous sector time -123), where it reads false |
| ParticipantInfoFields.RaceStartLapNotInvalidated | racedata/TelemetryDataPacket.py:550-570 | at the race start `lap_invalidated` is false whatever the laps byte holds |
| ParticipantInfoFields.LapsRebuild | racedata/TelemetryDataPacket.py:545-570 | the laps byte is `laps_completed` under the raw flag, and away from the race start the flag is `lap_invalidated` |
| ParticipantInfoFields.Sector | racedata/TelemetryDataPacket.py:572-582 | `sector` is the sector byte mod 8 |
| ParticipantInfoFields.SameClass | racedata/TelemetryDataPacket.py:584-586 | `same_class` holds exactly when the sector byte is at least 128 |
| ParticipantInfoFields.SectorOfPacked | racedata/TelemetryDataPacket.py:572-586 | a sector byte built from a sector, the two quarter counts and the class flag reads all four back |
| ParticipantInfoFields.SectorRebuild | racedata/TelemetryDataPacket.py:572-586 | the sector, the quarter counts and `same_class` give the raw byte |
| ParticipantInfoFields.WorldPosition | racedata/TelemetryDataPacket.py:524-533 | `world_position` in quarter units: each coordinate's whole part is the stored integer, and y gets no fraction |
| ParticipantInfoFields.WorldPositionRoundTrip | racedata/TelemetryDataPacket.py:524-533 | a position in quarter units, stored as whole parts rounded down plus quarter counts in the sector byte, reads back exactly, along with the sector and class flag stored beside the quarters |
| RaceStream.TelemetryView | racedata/RaceData.py:72-171 | the telemetry packet as the scans read it keeps the hash; its `packet_type`, `race_state`, `game_state` and `session_state` are the raw type, flags and game/session bytes mod 4, mod 8, mod 16 and divided by 16; `num_participants` as decoded; and one slot per participant, with the position byte mod 128 and the sector byte mod 8 |
| RaceStream.FindFrom | racedata/RaceData.py:101-124 | a "skip until" loop: the first packet from a start index that meets the condition; `StopIteration` exactly when none does |
| RaceStream.ToHash | racedata/RaceData.py:180-192 | `_to_hash` returns the first packet with the target hash; `StopIteration` exactly when no packet has it |
| RaceStream.ToHashFinds | racedata/RaceData.py:180-192 | `_to_hash` finds every hash that occurs, no later than where it occurs |
| RaceEnd.LastFinished | racedata/RaceData.py:72-89 | the last finished telemetry packet before an index; none exactly when there is no finished packet there |
| RaceEnd.Before | racedata/RaceData.py:71-76 | the loop that skips to a finished packet computes `RaceEndSpec`, from any point outside a run where the remembered packet is the last finished one so far |
| RaceEnd.Through | racedata/RaceData.py:78-89 | the loop inside a run computes `RaceEndSpec`, from any packet of a run where the remembered packet is the last finished one before it |
| RaceEnd.RunTelemetryFinished | racedata/RaceData.py:79-86 | inside a run every telemetry packet is finished, because any other telemetry packet ends the run |
| RaceEnd.RunHasFinished | racedata/RaceData.py:72-86 | every packet of a run comes at or after a finished packet |
| RaceEnd.ForwardScan | racedata/RaceData.py:68-93 | the forward pass returns `RaceEndSpec`: the last packet when the stream ends inside a run, else the last finished packet, else nothing |
| RaceEnd.ForwardScanFinds | racedata/RaceData.py:68-93 | nothing is found exactly when no telemetry packet is finished; the last packet, of any layout, when the stream ends inside a run; otherwise a finished packet with no finished packet after it |
| RaceEnd.RaceEndHash | racedata/RaceData.py:68-93 | `race_end` is `hash(None)` exactly when no packet is finished; otherwise it is the hash of the packet the pass found |
| RaceEnd.RepeatedFinishedKeepsLast | racedata/RaceData.py:68-93 | racing, then `n` finished packets, then a packet that is no longer finished: `race_end` is the last of the `n`, whatever `n` is |
| RaceStart.StopAfter | racedata/RaceData.py:129-137 | the first packet after an index that is telemetry with `session_state != 5` or `game_state != 2`, or the end of the stream |
| RaceStart.WalkFrom | racedata/RaceData.py:126-143 | the walk from the green flag ends on the last telemetry packet before that stop, at or after the green flag; the green flag itself is never tested as a stop |
| RaceStart.ReversePass | racedata/RaceData.py:95-143 | in the reversed stream: the first packet with the `race_end` hash, then the first racing packet after it, then the first grid packet (`race_state` 0 or 1) after that, then the walk's packet; its only failure is `StopIteration` |
| RaceStart.ReversePassFails | racedata/RaceData.py:95-124 | the pass raises `StopIteration` exactly when no grid packet follows a racing packet that follows a packet with the `race_end` hash |
| RaceStart.WitnessFound | racedata/RaceData.py:95-124 | a packet with the `race_end` hash, a later racing packet and a grid packet after that are enough for the pass to succeed |
| RaceDescriptor.SliceTo | racedata/RaceData.py:161-166 | `[:num_participants]` with Python's slice rules, negative counts included |
| RaceDescriptor.PopulatedFrom | racedata/RaceData.py:158-171 | the first populated packet from an index; `AttributeError` if a packet without `participant_info` comes first; `StopIteration` exactly when every packet from there is unpopulated telemetry |
| RaceDescriptor.ReverseGap | racedata/RaceData.py:95-143 | a stretch of the reversed stream without a packet of some kind is a stretch of the stream without one |
| RaceDescriptor.ReverseMarksForward | racedata/RaceData.py:95-143 | in capture order: first `race_start` ≤ green flag < `race_finish` < the `race_end` packet the reverse pass matched; that packet is the last with its hash and lies at or after the forward pass's packet; `race_finish` is the last racing packet before it, and the green flag the last grid packet before `race_finish`; and the walk stopped as `WalkForward` states |
| RaceDescriptor.WalkForward | racedata/RaceData.py:126-143 | in capture order, the walk back from the green flag stopped at the last packet before the green flag that is telemetry outside a playing race session, or ran off the start of the stream; the first `race_start` is a telemetry packet after that stop, with no telemetry packet between the two |
| RaceDescriptor.StartLandmarks | racedata/RaceData.py:150-171 | rewinding to the first packet with the first `race_start`'s hash lands at or before it, and the population pass from there finds a populated packet after every unpopulated one it skips |
| RaceDescriptor.LandmarksHold | racedata/RaceData.py:58-171 | the marks the three passes stop at satisfy the order, the first/last properties and the walk's stopping point that `Scan` promises |
| RaceDescriptor.Scan | racedata/RaceData.py:58-171 | the three passes: their landmarks are in that order, each is the first or last packet of its kind as the passes define, the walk's stop is the last packet before the green flag that leaves the race and the first `race_start` the first telemetry packet after it, the population pass starts at the first packet with the first `race_start`'s hash, and the only failures are `StopIteration` and `AttributeError` |
| RaceDescriptor.ScanComplete | racedata/RaceData.py:58-171 | the converse of `Scan`'s contract: landmarks that keep every property `Scan` promises are exactly what the passes return, so the passes succeed on every stream that has such landmarks |
| RaceDescriptor.ScanSucceeds | racedata/RaceData.py:58-171 | the passes succeed if and only if the stream has landmarks with those properties; on any other stream they raise |
| RaceDescriptor.ScanMarksUnique | racedata/RaceData.py:58-171 | at most one set of landmarks has those properties, so the stream alone fixes where every pass stops |
| RaceDescriptor.ReverseMarksOf | racedata/RaceData.py:95-143 | on a stream with such landmarks, the reverse pass stops at the reversed positions of the matched `race_end` packet, `race_finish`, the green flag and the first `race_start`, and the walk back from the green flag stops at the reversed `walkStop` |
| RaceDescriptor.PopulatedAt | racedata/RaceData.py:158-171 | the population pass from an index stops at the first populated packet when every packet before it is unpopulated telemetry |
| RaceDescriptor.FirstWithHash | racedata/RaceData.py:180-192 | `_to_hash` with a packet's hash returns that packet when no earlier packet has the same hash |
| RaceDescriptor.BuildDescriptor | racedata/RaceData.py:58-178 | the descriptor is the forward pass's `race_end` hash and the hashes of the `race_finish` and populated packets; it fails exactly when a pass fails, which by `ScanSucceeds` is exactly when no landmarks with `Scan`'s properties exist |
| RaceDescriptor.DescriptorComplete | racedata/RaceData.py:58-178 | for landmarks with `Scan`'s properties, the build succeeds and the descriptor is the hashes of their `race_end`, `race_finish` and populated packets |
| RaceDescriptor.StartPacket | racedata/RaceData.py:42-55 | the `finally` clause of `__init__`: after a descriptor is built, `_to_hash` on its `race_start` always succeeds, on the first packet with that hash, which is no later than the populated one; when the build raised, subscripting the `None` descriptor raises `TypeError` |
| RaceDescriptor.NoFinishNoDescriptor | racedata/RaceData.py:42-106 | a stream with no finished packet has no descriptor: `_build_descriptor` raises `StopIteration`, and `__init__` then `TypeError` |
| TelemetryOffsets.TelemetryByteCodes | racedata/TelemetryDataPacket.py:16-34 | in the telemetry format, values 1, 2 and 9 are `B` codes at byte offsets 2, 3 and 10, value 4 is a `b` code at offset 5, and in participant block `i` values 4 and 7 are `B` codes at offsets 472 + 16i and 475 + 16i |
| TelemetryOffsets.FrontBytes | racedata/TelemetryDataPacket.py:16-30 | the 178 codes before the participant blocks take 464 bytes |
| TelemetryOffsets.BlockCodesIn | racedata/TelemetryDataPacket.py:32 | after a front of 178 codes and 464 bytes, block `i` of a run of nine-code, 16-byte blocks has its codes 4 and 7 as `B` at byte offsets 464 + 16i + 8 and 464 + 16i + 11 |
| TelemetryOffsets.UnpackedBytes | racedata/Packet.py:45-52 | unpacking with such a format reads each of those values from its one byte, the `b` value as a signed byte |
| TelemetryOffsets.InfoFieldsAt | racedata/TelemetryDataPacket.py:512-522 | block `i`'s `_race_position` and `_sector` are values 9i + 4 and 9i + 7 of the blocks' values |
| TelemetryOffsets.BuildFields | racedata/TelemetryDataPacket.py:36-288 | popping values in order puts value 1 in the type byte, 2 in the game/session byte, 4 in `num_participants`, 9 in the race-state flags, and values 178 + 9i + 4 and 178 + 9i + 7 in block `i`'s position and sector bytes |
| TelemetryOffsets.DecodedFields | racedata/TelemetryDataPacket.py:16-288 | a 1367-byte buffer decodes; the type byte is byte 2, the game/session byte byte 3, `num_participants` the signed byte 5, the race-state flags byte 10, and participant `i`'s position and sector bytes are bytes 472 + 16i and 475 + 16i |
| TelemetryOffsets.ViewOfFields | racedata/RaceData.py:72-171 | a record with those byte facts is seen by the scans with `packet_type` byte 2 mod 4, `game_state` and `session_state` byte 3 mod 16 and divided by 16, `race_state` byte 10 mod 8, and slot `i` as byte 472 + 16i mod 128 and byte 475 + 16i mod 8 |
| TelemetryOffsets.ViewOfBytes | racedata/RaceData.py:72-171 | what the scans see of any decoded 1367-byte buffer, byte by byte as above, with the buffer's hash |
| RaceDescriptor.UnpopulatedStartMovesOn | test/test_RaceData.py:299-385 | the "start packet without driver population" stream: the walk reaches the unpopulated packet and the population pass moves `race_start` to the next packet |

## Left out

- Directory and stream I/O are not modelled: `TelemetryData`, file reads,
  the descriptor JSON file, and the `tqdm` progress bars. The stream is a
  given sequence, and reading it with `reverse=True` is sequence reversal.
- Which layout a captured file decodes to is decided by `TelemetryData`,
  which is not part of this model. The stream therefore tags a packet as
  telemetry or as a participant layout. A participant packet whose header
  type is 0 would make the scans read `race_state` from a packet without
  one. It is not modelled, because a participant packet keeps no header
  type in the stream model.
- `hash(None)` is modelled as a value that no packet hash equals. In
  CPython it is an ordinary integer that a packet hash could in principle
  equal.
- Python's `hash` of a byte string is an opaque parameter. The truncated-md5
  hashing and the length dispatch in `Packet(bytes)`, which the tests
  expect, are not in the code and are not modelled.
- IEEE-754 decoding of the `f` fields is left out: they stay 4-byte words.
- `struct`'s `=` byte order is taken as little-endian, the native order on
  the hosts the library targets. The base class's `HB` (native size and
  alignment) is laid out like `=HB`, since a byte after a u16 needs no
  padding.
- ParticipantInfoFields.LapInvalidated: the source returns the integer `0`
  at the race start, and the model returns `false`. The two are equal and
  equally falsy in Python.
- ParticipantInfoFields.WorldPositionRoundTrip: the whole parts are stored
  rounded down. The tests' builder truncates with `int()`, which would give
  a negative quarter count for a negative coordinate. That builder is not
  modelled.
- Telemetry.Decode: its contract gives the length test, the hash and the
  record's shape. That re-packing gives the buffer back is stated by
  Telemetry.EncodeDecode. Decoding a packed record is not stated
  separately.
- Participant.Encode, AdditionalParticipant.Encode and Telemetry.Encode
  model `struct.pack` as the tests use it, to build buffers. The library
  itself never packs.
- `__repr__` and `__str__` are left out, as is the `RaceData` driver and lap
  logic: `get_data`, `Driver`, `classification` and the starting grid.
  Those classes are not part of this model.

# DFPlayer Mini command channel, in Dafny

This project models the command channel of the DF_player driver for the
DFPlayer Mini MP3 module (mbed, STM32F303K8). The driver keeps one global
10-byte frame buffer, `packet_out`. `sendCmd` rewrites that buffer in place:
the command goes in slot 3, the two parameters in slots 5 and 6, and the
negated 16-bit sum of slots 1..6 goes big-endian in slots 7 and 8. It then
writes the ten bytes to the serial link in index order. The control wrappers
(`play`, `set_volume`, `play_track`, ...) either clamp their argument or drop
it when it is out of range, and then call `sendCmd`. The queries send a
command with zero parameters, read a 10-byte reply and return byte 6 or the
big-endian word in bytes 5..6.

Files:

- `packet.dfy` (module `Packet`) holds the frame layout and the command codes
  of `DF_player.h`.
  - `Patch` is what `sendCmd` leaves in any 10-byte buffer.
  - `FrameOf` is the frame the datasheet describes for a command.
  - `Parse` is a reference test for "a frame this driver can build": the
    header bytes of `packet_out` (slots 0, 1, 2 and 9, and a zero feedback
    flag in slot 4) and a zero 16-bit sum. It is the inverse that `FrameOf`
    is proved against. It is a reference definition, not code of the driver,
    and it makes no claim about what the module itself accepts: a frame
    with the feedback flag set is valid on the wire but is not one this
    driver builds, so `Parse` rejects it.
- `commands.dfy` (module `Commands`) gives each control wrapper as data.
  - `Request` gives the `(code, par1, par2)` a wrapper hands to `sendCmd`, or
    `None` when its range check returns early.
  - `Emission` gives the bytes the wrapper therefore puts on the line.
  - Lemmas state the clamp and the guards.
- `player.dfy` (module `Player`) is the imperative driver.
  - `Serial` stands for the `RawSerial` link: a sequence of sent bytes and a
    sequence of bytes still to be read.
  - `DFPlayer` holds the buffer as an `array<uint8>` and the link.
  - `SendCmd` has the checksum loop and the transmit loop, and `GetFeedback`
    has the read loop. Each is proved against the functions above.
  - Every wrapper and decoder is a method whose contract is given by
    `Request`/`Emission` or by the reply bytes it consumes.

Where the comments and the code disagree, the model follows the code:

- `play_track` drops only tracks above 3000. The comments at
  DF_player.cpp:150 and :156 say 2999.
- `play_folder_and_track` sends folder 100. The comments at DF_player.cpp:413
  and :422 say the folder must be below 100.
- The `track > 255` test of `play_folder_and_track` is on a `uint8_t`, so it
  never fires (`Commands.FolderAndTrackGuard`).

## Model

| member | source | states |
|---|---|---|
| `Packet.Negate16` | DF_player.cpp:70-71 | the negated checksum stored in a `uint16_t` is a 16-bit value that cancels the sum modulo 2^16 |
| `Packet.Negate16Unique` | DF_player.cpp:70-71 | that 16-bit value is the only one that cancels the sum, so slots 7..8 are determined by slots 1..6 |
| `Packet.HighByte` | DF_player.cpp:72 | `>> 8` on a `uint16_t` gives the byte whose multiple of 0x100 is the largest one not above the value |
| `Packet.LowByte` | DF_player.cpp:73 | `& 0xFF` on a `uint16_t` gives the byte that differs from the value by a multiple of 0x100 |
| `Packet.Word` | DF_player.cpp:374 | `hi` is the high byte of the word `hi << 8` joined with a low byte: the word lies in the block of 0x100 values that `hi` selects |
| `Packet.WordOfBytes` | DF_player.cpp:72-73 | splitting a `uint16_t` with `>> 8` and `& 0xFF` and joining the bytes again gives the value back |
| `Packet.BytesOfWord` | DF_player.cpp:374 | joining two bytes as the high and low byte of a word and splitting the word gives both bytes back |
| `Packet.SumStep` | DF_player.cpp:66-69 | one pass of the checksum loop: adding byte i to the 16-bit running sum of bytes 1..i-1 gives the 16-bit sum of bytes 1..i, so the wrapping `uint16_t` accumulator tracks the true sum modulo 2^16 |
| `Packet.SumOfSix` | DF_player.cpp:66-69 | the checksum loop's running sum over slots 1..6 is the sum of those six bytes |
| `Packet.ChecksumOkIff` | DF_player.cpp:66-73 | a frame passes the checksum test exactly when slots 7..8 hold, big-endian, the 16-bit negation of the sum of slots 1..6 |
| `Packet.Patch` | DF_player.cpp:58-73 | after `sendCmd` the buffer holds the command in slot 3 and the parameters in slots 5 and 6, slots 0, 1, 2, 4 and 9 are untouched, and the frame passes the 16-bit checksum test |
| `Packet.PatchIsFrame` | DF_player.cpp:58-73 | on a buffer with the fixed header bytes, `sendCmd` leaves exactly the datasheet frame for its arguments, whatever slots 3 and 5..8 held |
| `Packet.PatchIgnoresOverwritten` | DF_player.cpp:58-73 | two buffers that agree on slots 0, 1, 2, 4 and 9 give the same frame for the same arguments, so repeated calls emit identical frames |
| `Packet.FrameIsValid` | DF_player.cpp:46-50 | every datasheet frame has the fixed header, carries the command and parameters in slots 3, 5 and 6, and passes the checksum test |
| `Packet.ChecksumNeverWraps` | DF_player.cpp:66-71 | the sum of slots 1..6 is at most 0x105 + 3 * 0xFF, so the checksum is 0x10000 minus the sum and its high byte is at least 0xFB |
| `Packet.InitialPacketIsPlayFrame` | DF_player.cpp:23 | the initial buffer is exactly the valid frame of PLAY with zero parameters |
| `Packet.ParseFrame` | DF_player.cpp:46-50 | round trip: the reference test for a buildable frame accepts every frame `sendCmd` builds and reads back the same command and parameters |
| `Packet.AcceptedIsFrame` | DF_player.cpp:46-50 | a ten-byte buffer with the fixed header bytes and a valid checksum is exactly the frame built for the command and parameters in its bytes 3, 5 and 6 |
| `Packet.Parse` | DF_player.cpp:46-50 | every frame the reference test accepts (the `packet_out` header and a valid checksum) is the frame built for the command it carries |
| `Commands.Request` | DF_player.cpp:154-429 | only `play_track`, `set_eq`, `set_playback_mode`, `set_device` and `play_folder_and_track` can return before sending; every argument a wrapper passes to `sendCmd` lies in the range its guard admits (track at most 3000 and spelt big-endian, volume at most 30, EQ at most 5, mode at most 3, device at most 4, folder at most 100) |
| `Commands.Emission` | DF_player.cpp:93-429 | each control wrapper sends either nothing, when its range check rejects the argument, or exactly one well-formed frame that reads back as its request |
| `Commands.UnguardedAlwaysSend` | DF_player.cpp:93-305 | `play`, `next_song`, `volume_down`, `volume_up` and `pause` always send exactly the frame of PLAY_COMMAND, NEXT_SONG, VOLUME_DOWN, VOLUME_UP and PAUSE respectively, with both parameters zero |
| `Commands.SetVolumeClamps` | DF_player.cpp:206-215 | `set_volume` always sends VOLUME_SELECT with a level of at most 30, and sends levels up to 30 unchanged |
| `Commands.SetVolumeSaturates` | DF_player.cpp:206-215 | every level from 30 to 255 produces the same bytes as level 30 |
| `Commands.PlayTrackEncodes` | DF_player.cpp:154-166 | `play_track` sends nothing exactly when the track is above 3000; otherwise it sends one TRACK_SELECT frame whose parameters, read big-endian, are the track |
| `Commands.OptionWrappersGuard` | DF_player.cpp:230-289 | `set_eq`, `set_playback_mode` and `set_device` send nothing exactly when the option exceeds 5, 3 or 4; otherwise each sends its code with parameters (0, option) |
| `Commands.FolderAndTrackGuard` | DF_player.cpp:420-429 | `play_folder_and_track` sends nothing exactly when the folder exceeds 100 (the track test never fires); otherwise it sends FOLDER_SELECT with (folder, track) |
| `Commands.ReplyWord` | DF_player.cpp:374 | the 16-bit reply field has reply byte 5 as its high byte and reply byte 6 as its low byte |
| `Commands.ReplyWordExamples` | DF_player.cpp:392-403 | reply bytes 0x00, 0x0A decode to 10, and bytes 0x01, 0x2C decode to 300 |
| `Player.Serial.Putc` | DF_player.cpp:79 | writing a byte appends it to the sent bytes and leaves the incoming bytes alone |
| `Player.Serial.Getc` | DF_player.cpp:189 | reading takes the next incoming byte and leaves the sent bytes alone |
| `Player.NewPacketOut` | DF_player.cpp:23 | the global buffer starts as the ten initial bytes, which have the frame header and a valid checksum |
| `Player.DFPlayer.constructor` | DF_player.cpp:37-41 | the player keeps the link it is given and works on the shared buffer |
| `Player.DFPlayer.SendCmd` | DF_player.cpp:58-81 | the buffer becomes `Patch` of its old contents, the link receives exactly the ten buffer bytes in index order, and with the header intact the bytes are the datasheet frame |
| `Player.DFPlayer.Play` | DF_player.cpp:93-96 | sends the PLAY frame and leaves it in the buffer |
| `Player.DFPlayer.NextSong` | DF_player.cpp:108-111 | sends the NEXT_SONG frame and leaves it in the buffer |
| `Player.DFPlayer.VolumeDown` | DF_player.cpp:123-126 | sends the VOLUME_DOWN frame and leaves it in the buffer |
| `Player.DFPlayer.VolumeUp` | DF_player.cpp:138-141 | sends the VOLUME_UP frame and leaves it in the buffer |
| `Player.DFPlayer.PlayTrack` | DF_player.cpp:154-166 | above track 3000 neither the buffer nor the link changes; otherwise it sends the TRACK_SELECT frame of the track's high and low bytes |
| `Player.DFPlayer.GetFeedback` | DF_player.cpp:180-193 | sends the query frame with zero parameters, then consumes exactly ten incoming bytes and returns them in a new buffer |
| `Player.DFPlayer.SetVolume` | DF_player.cpp:206-215 | sends the VOLUME_SELECT frame with the level clamped to 30 |
| `Player.DFPlayer.SetEq` | DF_player.cpp:230-240 | above option 5 nothing changes; otherwise it sends SET_EQ with (0, option) |
| `Player.DFPlayer.SetPlaybackMode` | DF_player.cpp:257-266 | above option 3 nothing changes; otherwise it sends PLAYBACK_MODE with (0, option) |
| `Player.DFPlayer.SetDevice` | DF_player.cpp:280-289 | above device 4 nothing changes; otherwise it sends DEVICE_SELECT with (0, device) |
| `Player.DFPlayer.Pause` | DF_player.cpp:302-305 | sends the PAUSE frame and leaves it in the buffer |
| `Player.DFPlayer.GetVolume` | DF_player.cpp:319-329 | sends the GET_VOLUME query, consumes ten reply bytes and returns reply byte 6 |
| `Player.DFPlayer.GetEq` | DF_player.cpp:343-353 | sends the GET_EQ query, consumes ten reply bytes and returns reply byte 6 |
| `Player.DFPlayer.GetNumFiles` | DF_player.cpp:367-378 | sends the GET_TRACKS query, consumes ten reply bytes and returns the big-endian word of reply bytes 5..6 |
| `Player.DFPlayer.GetCurrentTrack` | DF_player.cpp:392-403 | sends the GET_CURRENT_SONG query, consumes ten reply bytes and returns the big-endian word of reply bytes 5..6 |
| `Player.DFPlayer.PlayFolderAndTrack` | DF_player.cpp:420-429 | above folder 100 nothing changes; otherwise it sends FOLDER_SELECT with (folder, track) |

## Left out

- The `RawSerial` link (`putc`, `getc`) is a foreign mbed object. `Serial` stands in for it with a sequence of sent bytes and a sequence of bytes still to be read. Baud rate and pin setup are not modelled.
- `getc` blocks until a byte arrives and has no timeout. This cannot be expressed, so `Getc` requires a byte to be waiting and the queries require at least ten. A module that never replies is therefore not modelled.
- `get_feedback` allocates its reply with `new` and the decoders release it with `delete []`. The model returns a fresh array and leaves reclamation to the garbage collector.
- `packet_out` is a process-wide global, and Dafny has no mutable globals. The buffer is passed to the `DFPlayer` constructor instead, so several players can share it. `NewPacketOut` builds its initial value. `Valid()` is the invariant that slots 0, 1, 2, 4 and 9 hold the header. The initial bytes establish it, and no method of the driver writes those slots. `packet_out` is declared `extern` in `DF_player.h`, so client code could overwrite those slots; every wrapper's `requires Valid()` assumes it does not. `SendCmd` itself is specified for any ten-byte buffer through `Patch`.
- `Player.DFPlayer.SendCmd` requires the buffer to be ten bytes long. In C++ that follows from the declared size of `packet_out`.
- The C++ integer promotions in `sendCmd` are written out explicitly. The running sum and the negation are taken modulo 0x10000, and the byte split is `/ 0x100` and `% 0x100`. The `|` of two non-overlapping bytes is written as an addition.
- `previous_song` is declared in `DF_player.h` but has no definition, so there is nothing to model.
- `main.cpp` is a hardware demo: pin setup, a busy-pin poll, `wait()` delays and an endless loop. It is not modelled.
- The advice to wait 100 ms between commands and the note that playback-mode selection misbehaves on the device describe hardware behaviour. They are not modelled.
- The other command codes of `DF_player.h` (sleep, reset, stop and so on) are declared as constants. No driver method sends them, so nothing more is modelled for them.

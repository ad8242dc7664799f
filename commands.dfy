/** The control wrappers of the DFPlayer Mini driver as data: which command
    each wrapper hands to `sendCmd`, which arguments make it return without
    sending anything, and how the query replies are decoded. */
module Commands {
  import opened Packet

  /** One value per control wrapper of the driver, carrying its argument. */
  datatype Control =
    | Play
    | NextSong
    | VolumeDown
    | VolumeUp
    | PlayTrack(track: uint16)
    | SetVolume(level: uint8)
    | SetEq(option: uint8)
    | SetPlaybackMode(option: uint8)
    | SetDevice(device: uint8)
    | Pause
    | PlayFolderAndTrack(folder: uint8, folderTrack: uint8)

  /** The largest volume level `set_volume` passes on. */
  const MAX_VOLUME: uint8 := 30

  /** The largest track number `play_track` passes on (the guard is
      `track > 3000`, so 3000 itself is sent). */
  const MAX_TRACK: uint16 := 3000

  /** The largest option each guarded wrapper passes on. */
  const MAX_EQ: uint8 := 5
  const MAX_PLAYBACK_MODE: uint8 := 3
  const MAX_DEVICE: uint8 := 4
  const MAX_FOLDER: uint8 := 100

  /** The arguments the wrapper passes to `sendCmd`, or `None` when its range
      check makes it return before sending anything. Only the guarded
      wrappers can return early, and every argument they pass on lies in
      the range its guard admits. */
  function Request(c: Control): (r: Option<Command>)
    ensures r.None? ==> c.PlayTrack? || c.SetEq? || c.SetPlaybackMode? || c.SetDevice? || c.PlayFolderAndTrack?
    ensures r.Some? && c.PlayTrack? ==> Word(r.value.par1, r.value.par2) == c.track <= MAX_TRACK
    ensures r.Some? && c.SetVolume? ==> r.value.par1 == 0 && r.value.par2 <= MAX_VOLUME
    ensures r.Some? && c.SetEq? ==> r.value.par1 == 0 && r.value.par2 == c.option <= MAX_EQ
    ensures r.Some? && c.SetPlaybackMode? ==> r.value.par1 == 0 && r.value.par2 == c.option <= MAX_PLAYBACK_MODE
    ensures r.Some? && c.SetDevice? ==> r.value.par1 == 0 && r.value.par2 == c.device <= MAX_DEVICE
    ensures r.Some? && c.PlayFolderAndTrack? ==>
      r.value.par1 == c.folder <= MAX_FOLDER && r.value.par2 == c.folderTrack
  {
    match c
    case Play => Some(Command(PLAY_COMMAND, 0, 0))
    case NextSong => Some(Command(NEXT_SONG, 0, 0))
    case VolumeDown => Some(Command(VOLUME_DOWN, 0, 0))
    case VolumeUp => Some(Command(VOLUME_UP, 0, 0))
    case PlayTrack(track) =>
      if track > MAX_TRACK then None
      else Some(Command(TRACK_SELECT, HighByte(track), LowByte(track)))
    case SetVolume(level) =>
      Some(Command(VOLUME_SELECT, 0, if level > MAX_VOLUME then MAX_VOLUME else level))
    case SetEq(option) =>
      if option > MAX_EQ then None else Some(Command(SET_EQ, 0, option))
    case SetPlaybackMode(option) =>
      if option > MAX_PLAYBACK_MODE then None else Some(Command(PLAYBACK_MODE, 0, option))
    case SetDevice(device) =>
      if device > MAX_DEVICE then None else Some(Command(DEVICE_SELECT, 0, device))
    case Pause => Some(Command(PAUSE, 0, 0))
    case PlayFolderAndTrack(folder, track) =>
      // `track > 255` is tested on a `uint8_t` and never holds
      if folder > MAX_FOLDER || track > 0xFF then None
      else Some(Command(FOLDER_SELECT, folder, track))
  }

  /** The bytes a wrapper writes to the serial link: nothing when its range
      check rejects the argument, and otherwise exactly one well-formed frame
      that reads back as the wrapper's request. */
  function Emission(c: Control): (bytes: seq<uint8>)
    ensures bytes == [] <==> Request(c).None?
    ensures Request(c).Some? ==> |bytes| == SIZE && Parse(bytes) == Request(c)
  {
    match Request(c)
    case None => []
    case Some(cmd) =>
      ParseFrame(cmd);
      FrameOf(cmd)
  }

  /** The wrappers without arguments always send their fixed command with
      zero parameters. */
  lemma UnguardedAlwaysSend(c: Control)
    requires c.Play? || c.NextSong? || c.VolumeDown? || c.VolumeUp? || c.Pause?
    ensures Parse(Emission(c)).Some?
    ensures Parse(Emission(c)).value.par1 == 0 && Parse(Emission(c)).value.par2 == 0
    ensures c.Play? ==> Emission(c) == FrameOf(Command(PLAY_COMMAND, 0, 0))
    ensures c.NextSong? ==> Emission(c) == FrameOf(Command(NEXT_SONG, 0, 0))
    ensures c.VolumeDown? ==> Emission(c) == FrameOf(Command(VOLUME_DOWN, 0, 0))
    ensures c.VolumeUp? ==> Emission(c) == FrameOf(Command(VOLUME_UP, 0, 0))
    ensures c.Pause? ==> Emission(c) == FrameOf(Command(PAUSE, 0, 0))
  {
    ParseFrame(Request(c).value);
  }

  /** `set_volume` never sends a level above 30 and sends every level up to
      30 unchanged. */
  lemma SetVolumeClamps(level: uint8)
    ensures Parse(Emission(SetVolume(level))).Some?
    ensures Parse(Emission(SetVolume(level))).value.code == VOLUME_SELECT
    ensures Parse(Emission(SetVolume(level))).value.par2 <= MAX_VOLUME
    ensures level <= MAX_VOLUME ==> Parse(Emission(SetVolume(level))) == Some(Command(VOLUME_SELECT, 0, level))
  {
    ParseFrame(Request(SetVolume(level)).value);
  }

  /** Every level from 30 to 255 produces the same frame as level 30. */
  lemma SetVolumeSaturates(level: uint8)
    requires level >= MAX_VOLUME
    ensures Emission(SetVolume(level)) == Emission(SetVolume(MAX_VOLUME))
  {
  }

  /** `play_track` sends nothing above track 3000, and otherwise one frame
      whose two parameter bytes spell the track number big-endian. */
  lemma PlayTrackEncodes(track: uint16)
    ensures Emission(PlayTrack(track)) == [] <==> track > MAX_TRACK
    ensures track <= MAX_TRACK ==>
      var f := Emission(PlayTrack(track));
      Parse(f).Some? && f[3] == TRACK_SELECT && Word(f[5], f[6]) == track
  {
    if track <= MAX_TRACK {
      var cmd := Command(TRACK_SELECT, HighByte(track), LowByte(track));
      ParseFrame(cmd);
      FrameIsValid(cmd);
      WordOfBytes(track);
    }
  }

  /** `set_eq`, `set_playback_mode` and `set_device` send nothing for an
      out-of-range option and otherwise send the option as the low
      parameter byte with a zero high byte. */
  lemma OptionWrappersGuard(option: uint8)
    ensures Emission(SetEq(option)) == [] <==> option > MAX_EQ
    ensures Emission(SetPlaybackMode(option)) == [] <==> option > MAX_PLAYBACK_MODE
    ensures Emission(SetDevice(option)) == [] <==> option > MAX_DEVICE
    ensures option <= MAX_EQ ==> Parse(Emission(SetEq(option))) == Some(Command(SET_EQ, 0, option))
    ensures option <= MAX_PLAYBACK_MODE ==>
      Parse(Emission(SetPlaybackMode(option))) == Some(Command(PLAYBACK_MODE, 0, option))
    ensures option <= MAX_DEVICE ==>
      Parse(Emission(SetDevice(option))) == Some(Command(DEVICE_SELECT, 0, option))
  {
  }

  /** `play_folder_and_track` is decided by the folder alone: the track test
      never fires, and folder 100 is still sent. */
  lemma FolderAndTrackGuard(folder: uint8, track: uint8)
    ensures Emission(PlayFolderAndTrack(folder, track)) == [] <==> folder > MAX_FOLDER
    ensures folder <= MAX_FOLDER ==>
      Parse(Emission(PlayFolderAndTrack(folder, track))) == Some(Command(FOLDER_SELECT, folder, track))
  {
  }

  /** A 16-bit reply field: `message[5] << 8 | (0xFF & message[6])`. The
      module's reply carries it big-endian, so its bytes come back out. */
  function ReplyWord(message: seq<uint8>): (w: uint16)
    requires |message| == SIZE
    ensures HighByte(w) == message[5] && LowByte(w) == message[6]
  {
    BytesOfWord(message[5], message[6]);
    Word(message[5], message[6])
  }

  /** Reply bytes 0x00, 0x0A give 10 files; bytes 0x01, 0x2C give track 300. */
  lemma ReplyWordExamples(message: seq<uint8>)
    requires |message| == SIZE
    ensures message[5] == 0x00 && message[6] == 0x0A ==> ReplyWord(message) == 10
    ensures message[5] == 0x01 && message[6] == 0x2C ==> ReplyWord(message) == 300
  {
  }
}

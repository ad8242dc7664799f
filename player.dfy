/** The DF_player class: the shared outgoing buffer that `sendCmd` rewrites
    in place and streams out, the feedback read loop, and every control and
    query method written on top of them. */
module Player {
  import opened Packet
  import opened Commands

  /** The serial link (`RawSerial`): the bytes written so far and the bytes
      the module has sent that are still to be read. */
  class Serial {
    var tx: seq<uint8>
    var rx: seq<uint8>

    constructor (incoming: seq<uint8>)
      ensures tx == [] && rx == incoming
    {
      tx := [];
      rx := incoming;
    }

    /** `putc`: append one byte to the line. */
    method Putc(b: uint8)
      modifies this
      ensures tx == old(tx) + [b] && rx == old(rx)
    {
      tx := tx + [b];
    }

    /** `getc`: take the next incoming byte. The real call blocks until one
        arrives; here a byte must already be there. */
    method Getc() returns (b: uint8)
      requires rx != []
      modifies this
      ensures b == old(rx[0]) && rx == old(rx[1..]) && tx == old(tx)
    {
      b := rx[0];
      rx := rx[1..];
    }
  }

  /** The initializer of the global `packet_out`. */
  method NewPacketOut() returns (a: array<uint8>)
    ensures fresh(a) && a[..] == INITIAL_PACKET
    ensures HasHeader(a[..]) && ChecksumOk(a[..])
  {
    a := new uint8[SIZE];
    a[0], a[1], a[2], a[3], a[4] := 0x7E, 0xFF, 0x06, 0x0D, 0x00;
    a[5], a[6], a[7], a[8], a[9] := 0x00, 0x00, 0xFE, 0xEE, 0xEF;
    InitialPacketIsPlayFrame();
  }

  class DFPlayer {
    /** `serial_pointer` */
    const serial: Serial
    /** The global `packet_out`, shared by every player built over it. */
    const packet: array<uint8>

    /** The buffer is ten bytes long and its fixed bytes hold the frame
        header, as the global is initialised and as nothing ever writes them. */
    ghost predicate Valid()
      reads packet
    {
      packet.Length == SIZE && HasHeader(packet[..])
    }

    constructor (stream: Serial, packetOut: array<uint8>)
      requires packetOut.Length == SIZE && HasHeader(packetOut[..])
      ensures serial == stream && packet == packetOut && Valid()
    {
      serial := stream;
      packet := packetOut;
    }

    /** `sendCmd`: write the command and parameters into the buffer, sum
        bytes 1..6 into a 16-bit checksum, store its negation big-endian in
        bytes 7 and 8, and send all ten bytes in index order. */
    method SendCmd(command: uint8, par1: uint8, par2: uint8)
      requires packet.Length == SIZE
      modifies packet, serial
      ensures packet[..] == Patch(old(packet[..]), Command(command, par1, par2))
      ensures serial.tx == old(serial.tx) + packet[..] && serial.rx == old(serial.rx)
      ensures old(Valid()) ==> Valid() && packet[..] == FrameOf(Command(command, par1, par2))
    {
      ghost var before := packet[..];
      ghost var cmd := Command(command, par1, par2);
      var checksum: uint16 := 0;
      packet[3] := command;
      packet[5] := par1;
      packet[6] := par2;
      ghost var written := packet[..];
      assert written == before[3 := command][5 := par1][6 := par2];

      var i := 1;
      while i < 7
        invariant 1 <= i <= 7
        invariant packet[..] == written
        invariant checksum == Sum(written[1..i]) % 0x1_0000
        invariant serial.tx == old(serial.tx) && serial.rx == old(serial.rx)
      {
        SumStep(written, i);
        checksum := (checksum + packet[i]) % 0x1_0000;
        i := i + 1;
      }
      checksum := (0x1_0000 - checksum) % 0x1_0000;
      assert checksum == Negate16(FieldSum(written)) by {
        SumOfSix(written[1..7]);
      }
      packet[7] := HighByte(checksum);
      packet[8] := LowByte(checksum);
      ghost var frame := packet[..];
      assert frame == written[7 := HighByte(checksum)][8 := LowByte(checksum)];
      assert frame == Patch(before, cmd);

      var j := 0;
      while j < SIZE
        invariant 0 <= j <= SIZE
        invariant packet[..] == frame
        invariant serial.tx == old(serial.tx) + frame[..j] && serial.rx == old(serial.rx)
      {
        serial.Putc(packet[j]);
        j := j + 1;
      }
      assert frame[..SIZE] == frame;
      if old(Valid()) {
        PatchIsFrame(before, cmd);
      }
    }

    /** What a control wrapper does: send the frame of its request and leave
        it in the buffer, or, when its range check rejects the argument,
        touch neither the buffer nor the link. */
    twostate predicate Performed(c: Control)
      reads packet, serial
    {
      serial.rx == old(serial.rx)
      && serial.tx == old(serial.tx) + Emission(c)
      && packet[..] == (if Request(c).Some? then FrameOf(Request(c).value) else old(packet[..]))
    }

    /** `play` */
    method Play()
      requires Valid()
      modifies packet, serial
      ensures Valid() && Performed(Control.Play)
    {
      SendCmd(PLAY_COMMAND, 0, 0);
    }

    /** `next_song` */
    method NextSong()
      requires Valid()
      modifies packet, serial
      ensures Valid() && Performed(Control.NextSong)
    {
      SendCmd(NEXT_SONG, 0, 0);
    }

    /** `volume_down` */
    method VolumeDown()
      requires Valid()
      modifies packet, serial
      ensures Valid() && Performed(Control.VolumeDown)
    {
      SendCmd(VOLUME_DOWN, 0, 0);
    }

    /** `volume_up` */
    method VolumeUp()
      requires Valid()
      modifies packet, serial
      ensures Valid() && Performed(Control.VolumeUp)
    {
      SendCmd(VOLUME_UP, 0, 0);
    }

    /** `play_track`: a track above 3000 is dropped; otherwise the track
        number goes out as its high byte and its low byte. */
    method PlayTrack(track: uint16)
      requires Valid()
      modifies packet, serial
      ensures Valid() && Performed(Control.PlayTrack(track))
    {
      if track > MAX_TRACK {
        return;
      }
      var par1 := HighByte(track);
      var par2 := LowByte(track);
      assert Request(Control.PlayTrack(track)) == Some(Command(TRACK_SELECT, par1, par2));
      SendCmd(TRACK_SELECT, par1, par2);
    }

    /** `get_feedback`: send the query with zero parameters, then read the
        ten reply bytes into a new buffer. */
    method GetFeedback(option: uint8) returns (message: array<uint8>)
      requires Valid() && |serial.rx| >= SIZE
      modifies packet, serial
      ensures Valid() && packet[..] == FrameOf(Command(option, 0, 0))
      ensures fresh(message) && message[..] == old(serial.rx[..SIZE])
      ensures serial.tx == old(serial.tx) + FrameOf(Command(option, 0, 0))
      ensures serial.rx == old(serial.rx[SIZE..])
    {
      message := new uint8[SIZE];
      SendCmd(option, 0, 0);
      ghost var incoming := serial.rx;
      ghost var sent := serial.tx;
      ghost var frame := packet[..];

      var i := 0;
      while i < SIZE
        invariant 0 <= i <= SIZE
        invariant packet[..] == frame
        invariant serial.tx == sent
        invariant serial.rx == incoming[i..]
        invariant message[..i] == incoming[..i]
      {
        message[i] := serial.Getc();
        i := i + 1;
      }
    }

    /** `set_volume`: a level above 30 is sent as 30. */
    method SetVolume(level: uint8)
      requires Valid()
      modifies packet, serial
      ensures Valid() && Performed(Control.SetVolume(level))
    {
      var level := level;
      if level > MAX_VOLUME {
        level := MAX_VOLUME;
      }
      SendCmd(VOLUME_SELECT, 0, level);
    }

    /** `set_eq`: options above 5 are dropped. */
    method SetEq(option: uint8)
      requires Valid()
      modifies packet, serial
      ensures Valid() && Performed(Control.SetEq(option))
    {
      if option > MAX_EQ {
        return;
      }
      SendCmd(SET_EQ, 0, option);
    }

    /** `set_playback_mode`: options above 3 are dropped. */
    method SetPlaybackMode(option: uint8)
      requires Valid()
      modifies packet, serial
      ensures Valid() && Performed(Control.SetPlaybackMode(option))
    {
      if option > MAX_PLAYBACK_MODE {
        return;
      }
      SendCmd(PLAYBACK_MODE, 0, option);
    }

    /** `set_device`: devices above 4 are dropped. */
    method SetDevice(device: uint8)
      requires Valid()
      modifies packet, serial
      ensures Valid() && Performed(Control.SetDevice(device))
    {
      if device > MAX_DEVICE {
        return;
      }
      SendCmd(DEVICE_SELECT, 0, device);
    }

    /** `pause` */
    method Pause()
      requires Valid()
      modifies packet, serial
      ensures Valid() && Performed(Control.Pause)
    {
      SendCmd(PAUSE, 0, 0);
    }

    /** `get_volume`: byte 6 of the reply. */
    method GetVolume() returns (volume: uint8)
      requires Valid() && |serial.rx| >= SIZE
      modifies packet, serial
      ensures Valid() && packet[..] == FrameOf(Command(GET_VOLUME, 0, 0))
      ensures volume == old(serial.rx[6])
      ensures serial.tx == old(serial.tx) + FrameOf(Command(GET_VOLUME, 0, 0))
      ensures serial.rx == old(serial.rx[SIZE..])
    {
      var message := GetFeedback(GET_VOLUME);
      volume := message[6];
    }

    /** `get_EQ`: byte 6 of the reply. */
    method GetEq() returns (eq: uint8)
      requires Valid() && |serial.rx| >= SIZE
      modifies packet, serial
      ensures Valid() && packet[..] == FrameOf(Command(GET_EQ, 0, 0))
      ensures eq == old(serial.rx[6])
      ensures serial.tx == old(serial.tx) + FrameOf(Command(GET_EQ, 0, 0))
      ensures serial.rx == old(serial.rx[SIZE..])
    {
      var message := GetFeedback(GET_EQ);
      eq := message[6];
    }

    /** `get_num_files`: the big-endian word in bytes 5 and 6 of the reply. */
    method GetNumFiles() returns (files: uint16)
      requires Valid() && |serial.rx| >= SIZE
      modifies packet, serial
      ensures Valid() && packet[..] == FrameOf(Command(GET_TRACKS, 0, 0))
      ensures files == ReplyWord(old(serial.rx[..SIZE]))
      ensures serial.tx == old(serial.tx) + FrameOf(Command(GET_TRACKS, 0, 0))
      ensures serial.rx == old(serial.rx[SIZE..])
    {
      var message := GetFeedback(GET_TRACKS);
      files := Word(message[5], message[6]);
    }

    /** `get_current_track`: the big-endian word in bytes 5 and 6 of the reply. */
    method GetCurrentTrack() returns (track: uint16)
      requires Valid() && |serial.rx| >= SIZE
      modifies packet, serial
      ensures Valid() && packet[..] == FrameOf(Command(GET_CURRENT_SONG, 0, 0))
      ensures track == ReplyWord(old(serial.rx[..SIZE]))
      ensures serial.tx == old(serial.tx) + FrameOf(Command(GET_CURRENT_SONG, 0, 0))
      ensures serial.rx == old(serial.rx[SIZE..])
    {
      var message := GetFeedback(GET_CURRENT_SONG);
      track := Word(message[5], message[6]);
    }

    /** `play_folder_and_track`: a folder above 100 is dropped; the track
        test on a byte never rejects anything. */
    method PlayFolderAndTrack(folder: uint8, track: uint8)
      requires Valid()
      modifies packet, serial
      ensures Valid() && Performed(Control.PlayFolderAndTrack(folder, track))
    {
      if folder > MAX_FOLDER || track > 0xFF {
        return;
      }
      SendCmd(FOLDER_SELECT, folder, track);
    }
  }
}

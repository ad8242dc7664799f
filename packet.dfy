/** The DFPlayer Mini serial frame: byte layout, 16-bit checksum, the bytes
    `sendCmd` writes into the outgoing buffer, and a reference test for the
    frames this driver can build (the `packet_out` header plus a valid
    checksum). */
module Packet {

  /** C++ `uint8_t` and `uint16_t`. */
  type uint8 = x: int | 0 <= x < 0x100
  type uint16 = x: int | 0 <= x < 0x1_0000

  datatype Option<T> = None | Some(value: T)

  /** Length of every frame, outbound and inbound (`SIZE`). */
  const SIZE: nat := 10

  // Fixed bytes of a command frame
  const START_BYTE: uint8 := 0x7E
  const VERSION: uint8 := 0xFF
  const LENGTH: uint8 := 0x06
  const NO_FEEDBACK: uint8 := 0x00
  const END_BYTE: uint8 := 0xEF

  // Command codes
  const NEXT_SONG: uint8 := 0x01
  const PREVIOUS_SONG: uint8 := 0x02
  const TRACK_SELECT: uint8 := 0x03
  const VOLUME_UP: uint8 := 0x04
  const VOLUME_DOWN: uint8 := 0x05
  const VOLUME_SELECT: uint8 := 0x06
  const SET_EQ: uint8 := 0x07
  const PLAYBACK_MODE: uint8 := 0x08
  const DEVICE_SELECT: uint8 := 0x09
  const SLEEP_MODE: uint8 := 0x0A
  const NORMAL_MODE: uint8 := 0x0B
  const RESET_MODULE: uint8 := 0x0C
  const PLAY_COMMAND: uint8 := 0x0D
  const PAUSE: uint8 := 0x0E
  const FOLDER_SELECT: uint8 := 0x0F
  const VOLUME_ADJUST: uint8 := 0x10
  const REPEAT_PLAY: uint8 := 0x11
  const SELECT_TRACK: uint8 := 0x12
  const STOP_PLAYBACK: uint8 := 0x16
  const RETRANSMIT: uint8 := 0x40
  const REPLY: uint8 := 0x41
  const GET_FEEDBACK: uint8 := 0x42
  const GET_VOLUME: uint8 := 0x43
  const GET_EQ: uint8 := 0x44
  const GET_MODE: uint8 := 0x45
  const GET_VERSION: uint8 := 0x46
  const GET_TRACKS: uint8 := 0x48
  const GET_CURRENT_SONG: uint8 := 0x4C

  // Equalizer options
  const EQ_NORMAL: uint8 := 0x00
  const EQ_POP: uint8 := 0x01
  const EQ_ROCK: uint8 := 0x02
  const EQ_JAZZ: uint8 := 0x03
  const EQ_CLASSIC: uint8 := 0x04
  const EQ_BASS: uint8 := 0x05

  // Playback modes
  const REPEAT: uint8 := 0x00
  const FOLDER_REPEAT: uint8 := 0x01
  const SINGLE_REPEAT: uint8 := 0x02
  const RANDOM: uint8 := 0x03

  /** The three bytes a caller of `sendCmd` chooses: slot 3, slot 5, slot 6. */
  datatype Command = Command(code: uint8, par1: uint8, par2: uint8)

  /** The initial contents of the global `packet_out`. */
  const INITIAL_PACKET: seq<uint8> := [0x7E, 0xFF, 0x06, 0x0D, 0x00, 0x00, 0x00, 0xFE, 0xEE, 0xEF]

  /** `w >> 8` on a `uint16_t`: the byte whose multiple of 0x100 is the
      largest one not above `w`. */
  function HighByte(w: uint16): (r: uint8)
    ensures r as int * 0x100 <= w < r as int * 0x100 + 0x100
  {
    w / 0x100
  }

  /** `w & 0xFF` on a `uint16_t`: the byte that differs from `w` by a
      multiple of 0x100. */
  function LowByte(w: uint16): (r: uint8)
    ensures (w - r) % 0x100 == 0
  {
    w % 0x100
  }

  /** `((uint16_t)hi) << 8 | (0xFF & lo)`: the two bytes occupy disjoint bits,
      so the bitwise or is an addition, and `hi` is the high byte of the
      word. */
  function Word(hi: uint8, lo: uint8): (r: uint16)
    ensures hi as int * 0x100 <= r < hi as int * 0x100 + 0x100
  {
    hi as int * 0x100 + lo
  }

  /** Splitting a 16-bit value into its big-endian bytes loses nothing. */
  lemma WordOfBytes(w: uint16)
    ensures Word(HighByte(w), LowByte(w)) == w
  {
  }

  /** Joining two bytes and splitting them again gives the bytes back. */
  lemma BytesOfWord(hi: uint8, lo: uint8)
    ensures HighByte(Word(hi, lo)) == hi && LowByte(Word(hi, lo)) == lo
  {
    var w := hi as int * 0x100 + lo;
    assert w == Word(hi, lo);
    assert (w - lo) / 0x100 == hi;
  }

  /** The sum of a byte sequence, accumulated from the left as the
      checksum loop does it (the last byte is the last one added). */
  function Sum(s: seq<uint8>): nat
  {
    if s == [] then 0 else Sum(s[..|s| - 1]) + s[|s| - 1]
  }

  /** One step of the checksum loop: adding byte `i` to the running 16-bit
      sum of bytes 1..i-1 gives the 16-bit sum of bytes 1..i. */
  lemma SumStep(s: seq<uint8>, i: nat)
    requires 1 <= i < |s|
    ensures Sum(s[1..i + 1]) % 0x1_0000 == (Sum(s[1..i]) % 0x1_0000 + s[i]) % 0x1_0000
  {
    assert s[1..i + 1][..i - 1] == s[1..i];
    var a := Sum(s[1..i]);
    assert Sum(s[1..i + 1]) == a + s[i];
    var q := a / 0x1_0000;
    assert a + s[i] == q * 0x1_0000 + (a % 0x1_0000 + s[i]);
  }

  /** The checksum loop visits exactly six bytes. */
  lemma SumOfSix(s: seq<uint8>)
    requires |s| == 6
    ensures Sum(s) == s[0] as int + s[1] + s[2] + s[3] + s[4] + s[5]
  {
    assert s[..1][..0] == [];
    assert Sum(s[..1]) == s[0];
    assert s[..2][..1] == s[..1];
    assert Sum(s[..2]) == Sum(s[..1]) + s[1];
    assert s[..3][..2] == s[..2];
    assert Sum(s[..3]) == Sum(s[..2]) + s[2];
    assert s[..4][..3] == s[..3];
    assert Sum(s[..4]) == Sum(s[..3]) + s[3];
    assert s[..5][..4] == s[..4];
    assert Sum(s[..5]) == Sum(s[..4]) + s[4];
    assert s[..5] == s[..|s| - 1];
  }

  /** `-x` stored in a `uint16_t`: the 16-bit two's complement of `x`. */
  function Negate16(x: nat): (r: uint16)
    ensures (x + r) % 0x1_0000 == 0
  {
    (0x1_0000 - x % 0x1_0000) % 0x1_0000
  }

  /** The two's complement is the only 16-bit value that cancels `x`. */
  lemma Negate16Unique(x: nat, w: uint16)
    requires (x + w) % 0x1_0000 == 0
    ensures w == Negate16(x)
  {
    var q := x / 0x1_0000;
    var m := x % 0x1_0000;
    assert x == q * 0x1_0000 + m;
    assert (m + w) % 0x1_0000 == 0 by {
      assert x + w == q * 0x1_0000 + (m + w);
    }
    if m == 0 {
      assert w == 0;
    } else {
      assert m + w == 0x1_0000;
    }
  }

  /** Bytes 0, 1, 2, 4 and 9 of a command frame, which `sendCmd` never writes. */
  predicate HasHeader(f: seq<uint8>)
  {
    |f| == SIZE && f[0] == START_BYTE && f[1] == VERSION && f[2] == LENGTH
    && f[4] == NO_FEEDBACK && f[9] == END_BYTE
  }

  /** The sum of bytes 1..6 of a frame, the bytes the checksum covers. */
  function FieldSum(f: seq<uint8>): nat
    requires |f| == SIZE
  {
    f[1] as int + f[2] + f[3] + f[4] + f[5] + f[6]
  }

  /** The datasheet's integrity condition: bytes 1..6 plus the big-endian
      checksum in bytes 7..8 add up to zero modulo 2^16. */
  predicate ChecksumOk(f: seq<uint8>)
  {
    |f| == SIZE && (FieldSum(f) + Word(f[7], f[8])) % 0x1_0000 == 0
  }

  /** A frame passes the integrity check exactly when its bytes 7..8 hold
      the 16-bit two's complement of the sum of bytes 1..6. */
  lemma ChecksumOkIff(f: seq<uint8>)
    requires |f| == SIZE
    ensures ChecksumOk(f) <==> Word(f[7], f[8]) == Negate16(FieldSum(f))
  {
    if ChecksumOk(f) {
      Negate16Unique(FieldSum(f), Word(f[7], f[8]));
    }
  }

  /** What `sendCmd` leaves in a 10-byte buffer: the command in slot 3, the
      parameters in slots 5 and 6, and in slots 7 and 8 the big-endian two's
      complement of the sum of slots 1..6 as they are after that write. The
      other slots keep whatever the buffer held. */
  function Patch(buf: seq<uint8>, cmd: Command): (r: seq<uint8>)
    requires |buf| == SIZE
    ensures |r| == SIZE
    ensures r[3] == cmd.code && r[5] == cmd.par1 && r[6] == cmd.par2
    ensures r[0] == buf[0] && r[1] == buf[1] && r[2] == buf[2] && r[4] == buf[4] && r[9] == buf[9]
    ensures ChecksumOk(r)
  {
    var b: seq<uint8> := buf[3 := cmd.code][5 := cmd.par1][6 := cmd.par2];
    var checksum := Negate16(FieldSum(b));
    var r: seq<uint8> := b[7 := HighByte(checksum)][8 := LowByte(checksum)];
    assert FieldSum(r) == FieldSum(b);
    assert Word(r[7], r[8]) == checksum by { WordOfBytes(checksum); }
    ChecksumOkIff(r);
    r
  }

  /** The sum of bytes 1..6 of the frame for `cmd`. */
  function HeaderSum(cmd: Command): nat
  {
    VERSION as int + LENGTH + cmd.code + NO_FEEDBACK + cmd.par1 + cmd.par2
  }

  /** The command frame of the datasheet for one command. */
  function FrameOf(cmd: Command): seq<uint8>
  {
    var checksum := Negate16(HeaderSum(cmd));
    [START_BYTE, VERSION, LENGTH, cmd.code, NO_FEEDBACK, cmd.par1, cmd.par2,
     HighByte(checksum), LowByte(checksum), END_BYTE]
  }

  /** On a buffer whose fixed bytes are intact, `sendCmd` leaves exactly the
      datasheet frame, whatever slots 3 and 5..8 held before: two calls with
      the same arguments produce the same ten bytes. */
  lemma PatchIsFrame(buf: seq<uint8>, cmd: Command)
    requires HasHeader(buf)
    ensures Patch(buf, cmd) == FrameOf(cmd)
  {
    var b: seq<uint8> := buf[3 := cmd.code][5 := cmd.par1][6 := cmd.par2];
    assert FieldSum(b) == HeaderSum(cmd);
    var r: seq<uint8>, f: seq<uint8> := Patch(buf, cmd), FrameOf(cmd);
    assert r == b[7 := f[7]][8 := f[8]];
    assert forall i | 0 <= i < SIZE :: r[i] == f[i];
  }

  /** What `sendCmd` leaves depends on the arguments and on the bytes it
      never writes, not on what slots 3 and 5..8 held before. */
  lemma PatchIgnoresOverwritten(buf1: seq<uint8>, buf2: seq<uint8>, cmd: Command)
    requires |buf1| == SIZE && |buf2| == SIZE
    requires buf1[0] == buf2[0] && buf1[1] == buf2[1] && buf1[2] == buf2[2]
    requires buf1[4] == buf2[4] && buf1[9] == buf2[9]
    ensures Patch(buf1, cmd) == Patch(buf2, cmd)
  {
    var b1: seq<uint8> := buf1[3 := cmd.code][5 := cmd.par1][6 := cmd.par2];
    var b2: seq<uint8> := buf2[3 := cmd.code][5 := cmd.par1][6 := cmd.par2];
    assert FieldSum(b1) == FieldSum(b2);
    var r1, r2 := Patch(buf1, cmd), Patch(buf2, cmd);
    assert forall i | 0 <= i < SIZE :: r1[i] == r2[i];
  }

  /** Every frame `FrameOf` builds has the `packet_out` header and passes the
      checksum test. */
  lemma FrameIsValid(cmd: Command)
    ensures HasHeader(FrameOf(cmd)) && ChecksumOk(FrameOf(cmd))
    ensures FrameOf(cmd)[3] == cmd.code && FrameOf(cmd)[5] == cmd.par1 && FrameOf(cmd)[6] == cmd.par2
  {
    // the frame is what `sendCmd` leaves in the initial buffer
    PatchIsFrame(INITIAL_PACKET, cmd);
  }

  /** The checksum sum never wraps: with bytes 1, 2 and 4 fixed it is at
      most 0x105 + 3 * 0xFF, so the checksum is simply 0x10000 minus it and
      its high byte is always 0xFB or more. */
  lemma ChecksumNeverWraps(cmd: Command)
    ensures HeaderSum(cmd) <= 0x105 + 3 * 0xFF
    ensures Word(FrameOf(cmd)[7], FrameOf(cmd)[8])
         == 0x1_0000 - (HeaderSum(cmd))
    ensures FrameOf(cmd)[7] >= 0xFB
  {
    var s := HeaderSum(cmd);
    assert s % 0x1_0000 == s;
    var checksum := Negate16(s);
    assert checksum == 0x1_0000 - s;
    WordOfBytes(checksum);
  }

  /** The initial global buffer is already a valid frame: the PLAY frame. */
  lemma InitialPacketIsPlayFrame()
    ensures INITIAL_PACKET == FrameOf(Command(PLAY_COMMAND, 0, 0))
    ensures HasHeader(INITIAL_PACKET) && ChecksumOk(INITIAL_PACKET)
  {
    var play := Command(PLAY_COMMAND, 0, 0);
    assert HeaderSum(play) == 0x112;
    assert Negate16(0x112) == 0xFEEE;
    assert HighByte(0xFEEE) == 0xFE && LowByte(0xFEEE) == 0xEE;
    FrameIsValid(play);
  }

  /** The checksum bytes are determined by the others, so a buffer with the
      header and a valid checksum is the frame of the command it carries. */
  lemma AcceptedIsFrame(f: seq<uint8>)
    requires HasHeader(f) && ChecksumOk(f)
    ensures f == FrameOf(Command(f[3], f[5], f[6]))
  {
    var cmd := Command(f[3], f[5], f[6]);
    ChecksumOkIff(f);
    assert Word(f[7], f[8]) == Negate16(HeaderSum(cmd));
    BytesOfWord(f[7], f[8]);
    var g := FrameOf(cmd);
    assert forall i | 0 <= i < SIZE :: f[i] == g[i];
  }

  /** Reference test for a frame this driver can build: the header of
      `packet_out` (slots 0, 1, 2, 4 and 9) and a valid checksum. It gives the
      command the frame carries, and every frame it accepts is the frame
      built for that command. */
  function Parse(f: seq<uint8>): (r: Option<Command>)
    ensures r.Some? ==> f == FrameOf(r.value)
  {
    if HasHeader(f) && ChecksumOk(f) then
      AcceptedIsFrame(f);
      Some(Command(f[3], f[5], f[6]))
    else
      None
  }

  /** Round trip: reading a built frame back gives exactly the command that
      was framed. */
  lemma ParseFrame(cmd: Command)
    ensures Parse(FrameOf(cmd)) == Some(cmd)
  {
    FrameIsValid(cmd);
  }
}

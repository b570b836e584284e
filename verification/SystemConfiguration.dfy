/** system_configuration.c: the packed configuration record and its checksummed copy in a flash partition. */
module SystemConfiguration {
  import opened Crc16
  import opened Errors
  import opened Polynomials

  type Field = seq<byte>

  /** system_configuration_t without its checksum, as raw fields. */
  datatype Config = Config(hostname: Field, wifiMode: Field, ssid: Field, password: Field,
                           rs485Mode: Field, address: Field, baudrate: Field,
                           panelCount: Field, panelSize: Field)

  /** What the build configuration selects for RS485: only FLIPNET comes with an address and a baudrate. */
  datatype Rs485Default = Flipnet(mode: Field, address: Field, baudrate: Field) | Other(mode: Field)

  datatype Defaults = Defaults(hostname: Field, wifiMode: Field, ssid: Field, password: Field,
                               rs485: Rs485Default, panelCount: Field, panelSize: Field)

  const BODY := 147
  const SIZE := 149

  predicate Sized(c: Config) {
    && |c.hostname| == 32 && |c.wifiMode| == 4 && |c.ssid| == 32 && |c.password| == 64
    && |c.rs485Mode| == 4 && |c.address| == 1 && |c.baudrate| == 4
    && |c.panelCount| == 1 && |c.panelSize| == 5
  }

  predicate SizedDefaults(d: Defaults) {
    && |d.hostname| == 32 && |d.wifiMode| == 4 && |d.ssid| == 32 && |d.password| == 64
    && |d.rs485.mode| == 4 && (d.rs485.Flipnet? ==> |d.rs485.address| == 1 && |d.rs485.baudrate| == 4)
    && |d.panelCount| == 1 && |d.panelSize| == 5
  }

  /** The packed record up to the checksum. */
  function Body(c: Config): (bytes: seq<byte>)
    requires Sized(c)
    ensures |bytes| == BODY
  {
    c.hostname + c.wifiMode + c.ssid + c.password + c.rs485Mode + c.address + c.baudrate + c.panelCount + c.panelSize
  }

  function Parse(bytes: seq<byte>): (c: Config)
    requires |bytes| >= BODY
    ensures Sized(c)
  {
    Config(bytes[..32], bytes[32..36], bytes[36..68], bytes[68..132], bytes[132..136], bytes[136..137], bytes[137..141],
           bytes[141..142], bytes[142..147])
  }

  lemma ParseBody(c: Config, rest: seq<byte>)
    requires Sized(c)
    ensures Parse(Body(c) + rest) == c
  {
    var bytes := Body(c) + rest;
    assert bytes[..32] == c.hostname;
    assert bytes[32..36] == c.wifiMode;
    assert bytes[36..68] == c.ssid;
    assert bytes[68..132] == c.password;
    assert bytes[132..136] == c.rs485Mode;
    assert bytes[136..137] == c.address;
    assert bytes[137..141] == c.baudrate;
    assert bytes[141..142] == c.panelCount;
    assert bytes[142..147] == c.panelSize;
  }

  /** The packed layout: which bytes of the record are which field. */
  lemma RecordLayout(c: Config)
    requires Sized(c)
    ensures var bytes := Body(c);
            && bytes[..32] == c.hostname
            && bytes[32..36] == c.wifiMode && bytes[36..68] == c.ssid && bytes[68..132] == c.password
            && bytes[132..136] == c.rs485Mode && bytes[136..137] == c.address && bytes[137..141] == c.baudrate
            && bytes[141..142] == c.panelCount && bytes[142..] == c.panelSize
    ensures |Body(c)| == 147
  {
    assert Body(c) + [] == Body(c);
    ParseBody(c, []);
  }

  lemma BodyOfParse(bytes: seq<byte>)
    requires |bytes| >= BODY
    ensures Body(Parse(bytes)) == bytes[..BODY]
  {
    var c := Parse(bytes);
    assert c.hostname + c.wifiMode == bytes[..36];
    assert bytes[..36] + c.ssid == bytes[..68];
    assert bytes[..68] + c.password == bytes[..132];
    assert bytes[..132] + c.rs485Mode == bytes[..136];
    assert bytes[..136] + c.address == bytes[..137];
    assert bytes[..137] + c.baudrate == bytes[..141];
    assert bytes[..141] + c.panelCount == bytes[..142];
    assert bytes[..142] + c.panelSize == bytes[..147];
  }

  /** A uint16_t in memory: low byte first. */
  function Stored(w: word): (bytes: seq<byte>)
    ensures |bytes| == 2
  {
    [w[8..], w[..8]]
  }

  /** The number that bits stand for, the most significant first. */
  function Number(bits: seq<bool>): nat {
    if bits == [] then 0 else 2 * Number(bits[..|bits| - 1]) + if bits[|bits| - 1] then 1 else 0
  }

  /** `n << k` */
  function ShiftLeft(n: nat, k: nat): nat {
    if k == 0 then n else 2 * ShiftLeft(n, k - 1)
  }

  lemma NumberSnoc(bits: seq<bool>, bit: bool)
    ensures Number(bits + [bit]) == 2 * Number(bits) + if bit then 1 else 0
  {
    assert (bits + [bit])[..|bits|] == bits;
  }

  lemma NumberOfNothing()
    ensures Number([]) == 0
  {
  }

  lemma {:induction false} NumberThen(high: seq<bool>, low: seq<bool>)
    ensures Number(high + low) == ShiftLeft(Number(high), |low|) + Number(low)
    decreases |low|
  {
    hide Number;
    if low == [] {
      assert high + low == high;
      NumberOfNothing();
    } else {
      var n := |low| - 1;
      NumberThen(high, low[..n]);
      NumberSnoc(high + low[..n], low[n]);
      NumberSnoc(low[..n], low[n]);
      assert high + low == high + low[..n] + [low[n]] && low == low[..n] + [low[n]];
    }
  }

  lemma ShiftByTwo(n: nat, k: nat)
    ensures ShiftLeft(n, k + 2) == 4 * ShiftLeft(n, k)
  {
    assert ShiftLeft(n, k + 2) == 2 * ShiftLeft(n, k + 1);
  }

  lemma ShiftByByte(n: nat)
    ensures ShiftLeft(n, 8) == 256 * n
  {
    ShiftByTwo(n, 6);
    ShiftByTwo(n, 4);
    ShiftByTwo(n, 2);
    ShiftByTwo(n, 0);
  }

  /** The checksum is stored with its low byte first. */
  lemma StoredLittleEndian(w: word)
    ensures Number(w) == Number(Stored(w)[0]) + 256 * Number(Stored(w)[1])
  {
    hide Number, ShiftLeft;
    NumberThen(w[..8], w[8..]);
    assert w == w[..8] + w[8..];
    ShiftByByte(Number(w[..8]));
  }

  /** The uint16_t that two bytes in memory hold. */
  function Fetched(low: byte, high: byte): word {
    high + low
  }

  const NO_CHECKSUM: seq<byte> := [Zeros(8), Zeros(8)]

  lemma StoredZero()
    ensures Stored(Zeros(16)) == NO_CHECKSUM
  {
    assert Zeros(16)[8..] == Zeros(8) && Zeros(16)[..8] == Zeros(8);
  }

  /** The checksum is computed over the record with a zero checksum field. */
  function Checksum(body: seq<byte>): word {
    Crc(body + NO_CHECKSUM)
  }

  /** The bytes that save writes. */
  function Image(c: Config): (bytes: seq<byte>)
    requires Sized(c)
    ensures |bytes| == SIZE
  {
    Body(c) + Stored(Checksum(Body(c)))
  }

  /** load accepts these bytes. */
  predicate Accepts(bytes: seq<byte>)
    requires |bytes| >= SIZE
  {
    bytes[BODY..SIZE] == Stored(Checksum(bytes[..BODY]))
  }

  /**
    load accepts a partition exactly when the two bytes after the first 147, the low one first, are the checksum of
    those 147 bytes and two zero bytes.
   */
  lemma AcceptsExactlyWhen(bytes: seq<byte>)
    requires |bytes| >= 149
    ensures Accepts(bytes) <==>
              var crc := Crc(bytes[..147] + [Zeros(8), Zeros(8)]); bytes[147] == crc[8..] && bytes[148] == crc[..8]
  {
    assert bytes[147..149] == [bytes[147], bytes[148]];
  }

  /** system_configuration_load_defaults, on a record that may hold anything. */
  function WithDefaults(c: Config, d: Defaults): (c': Config)
    requires Sized(c) && SizedDefaults(d)
    ensures Sized(c')
  {
    var base := Config(d.hostname, d.wifiMode, d.ssid, d.password, d.rs485.mode, c.address, c.baudrate, d.panelCount, d.panelSize);
    if d.rs485.Flipnet? then base.(address := d.rs485.address, baudrate := d.rs485.baudrate) else base
  }

  const ERASED: byte := [true, true, true, true, true, true, true, true]

  /** A NOR flash partition: erasing sets all bits, programming can only clear them. */
  class Partition {
    var cells: seq<byte>
    var readable: bool    // whether the next read succeeds
    var erasable: bool    // whether the next erase succeeds; if not, nothing is erased
    var programmable: nat // how many bytes the next write programs before it fails

    constructor (cells: seq<byte>, readable: bool, erasable: bool, programmable: nat)
      ensures this.cells == cells && this.readable == readable && this.erasable == erasable && this.programmable == programmable
    {
      this.cells, this.readable, this.erasable, this.programmable := cells, readable, erasable, programmable;
    }

    static function Program(cell: byte, value: byte): byte {
      seq(8, i requires 0 <= i < 8 => cell[i] && value[i])
    }

    /** Cell `i` after the first `n` bytes of `data` were programmed. */
    static function Programmed(cells: seq<byte>, data: seq<byte>, n: nat, i: nat): byte
      requires i < |cells|
    {
      if i < |data| && i < n then Program(cells[i], data[i]) else cells[i]
    }

    static lemma ProgramErased(value: byte)
      ensures Program(ERASED, value) == value
    {
    }

    method Erase() returns (ok: bool)
      modifies `cells
      ensures ok == erasable && |cells| == old(|cells|)
      ensures cells == if ok then seq(old(|cells|), _ => ERASED) else old(cells)
    {
      if erasable {
        cells := seq(|cells|, _ => ERASED);
      }
      ok := erasable;
    }

    method Write(data: seq<byte>) returns (ok: bool)
      requires |data| <= |cells|
      modifies `cells
      ensures ok == (programmable >= |data|) && |cells| == old(|cells|)
      ensures forall i :: 0 <= i < |cells| ==>
                cells[i] == Programmed(old(cells), data, programmable, i)
    {
      ok := programmable >= |data|;
      var before, n := cells, programmable;
      cells := seq(|before|, i requires 0 <= i < |before| => Programmed(before, data, n, i));
    }
  }

  /** What is in the partition after a save that worked. */
  function Saved(size: nat, c: Config): (cells: seq<byte>)
    requires Sized(c) && size >= SIZE
    ensures |cells| == size
  {
    Image(c) + seq(size - SIZE, _ => ERASED)
  }

  /** What is in cell `i` after a save whose write stopped after `n` bytes. */
  function CellAfter(c: Config, n: nat, i: nat): byte
    requires Sized(c)
  {
    if i < SIZE && i < n then Image(c)[i] else ERASED
  }

  /** The configuration in memory and the partition after a load whose flash operations all worked. */
  function Loaded(cells: seq<byte>, d: Defaults): (r: (Config, seq<byte>))
    requires |cells| >= SIZE && SizedDefaults(d)
    ensures |r.1| == |cells| && Sized(r.0)
  {
    if Accepts(cells) then (Parse(cells), cells)
    else
      var repaired := WithDefaults(Parse(cells), d);
      (repaired, Saved(|cells|, repaired))
  }

  /** Comparing the stored number with the computed one is comparing the stored bytes. */
  lemma ChecksumComparison(bytes: seq<byte>, stored: word, crc: word)
    requires |bytes| >= SIZE && stored == Fetched(bytes[BODY], bytes[BODY + 1])
    requires crc == Crc(Body(Parse(bytes)) + Stored(Zeros(16)))
    ensures stored == crc <==> Accepts(bytes)
  {
    BodyOfParse(bytes);
    StoredZero();
    assert crc == Checksum(bytes[..BODY]);
    assert bytes[BODY..SIZE] == [bytes[BODY], bytes[BODY + 1]];
    assert stored == stored[..8] + stored[8..] && crc == crc[..8] + crc[8..];
    assert stored[..8] == bytes[BODY + 1] && stored[8..] == bytes[BODY];
  }

  class Configuration {
    var hostname: Field
    var wifiMode: Field
    var ssid: Field
    var password: Field
    var rs485Mode: Field
    var address: Field
    var baudrate: Field
    var panelCount: Field
    var panelSize: Field
    var checksum: word

    function Value(): Config
      reads this
    {
      Config(hostname, wifiMode, ssid, password, rs485Mode, address, baudrate, panelCount, panelSize)
    }

    ghost predicate Valid()
      reads this
    {
      Sized(Value())
    }

    constructor (c: Config)
      ensures Value() == c && checksum == Zeros(16)
    {
      hostname, wifiMode, ssid, password := c.hostname, c.wifiMode, c.ssid, c.password;
      rs485Mode, address, baudrate := c.rs485Mode, c.address, c.baudrate;
      panelCount, panelSize, checksum := c.panelCount, c.panelSize, Zeros(16);
    }

    /** The bytes of the whole record, checksum field included. */
    function Bytes(): seq<byte>
      requires Valid()
      reads this
    {
      Body(Value()) + Stored(checksum)
    }

    /** crc16 over the record. */
    method CrcOfRecord() returns (crc: word)
      requires Valid()
      ensures crc == Crc(Bytes())
    {
      var bytes := Bytes();
      var buf := new byte[|bytes|](i requires 0 <= i < |bytes| => bytes[i]);
      assert buf[..] == bytes;
      crc := Compute(buf);
    }

    method Save(partition: Partition?) returns (error: Error)
      requires Valid() && (partition != null ==> |partition.cells| >= SIZE)
      modifies `checksum
      modifies if partition != null then {partition} else {}
      ensures Value() == old(Value())
      ensures partition == null ==> error == NotFound && checksum == old(checksum)
      ensures partition != null ==>
        && |partition.cells| == old(|partition.cells|)
        && partition.readable == old(partition.readable) && partition.erasable == old(partition.erasable)
        && partition.programmable == old(partition.programmable)
        && error == (if partition.erasable && partition.programmable >= SIZE then Ok else Fail)
        && (error == Ok ==> partition.cells == Saved(old(|partition.cells|), Value()) && checksum == Zeros(16))
        && (!partition.erasable ==> partition.cells == old(partition.cells) && checksum == old(checksum))
        && (partition.erasable ==> checksum == Zeros(16) && forall i :: 0 <= i < |partition.cells| ==>
              partition.cells[i] == CellAfter(Value(), partition.programmable, i))
    {
      if partition == null {
        return NotFound;
      }
      var erased := partition.Erase();
      if !erased {
        return Fail;
      }
      checksum := Zeros(16);
      StoredZero();
      var crc := CrcOfRecord();
      checksum := crc;
      ghost var image := Image(Value());
      assert Bytes() == image;
      var written := partition.Write(Bytes());
      forall i | 0 <= i < |partition.cells|
        ensures partition.cells[i] == (if i < SIZE && i < partition.programmable then image[i] else ERASED)
      {
        if i < SIZE {
          Partition.ProgramErased(image[i]);
        }
      }
      if written {
        assert partition.cells == Saved(|partition.cells|, Value());
      }
      error := if written then Ok else Fail;
      checksum := Zeros(16);
    }

    method LoadDefaults(d: Defaults)
      requires Valid() && SizedDefaults(d)
      modifies this
      ensures Value() == WithDefaults(old(Value()), d) && checksum == old(checksum)
      ensures hostname == d.hostname && wifiMode == d.wifiMode && ssid == d.ssid && password == d.password
      ensures rs485Mode == d.rs485.mode && panelCount == d.panelCount && panelSize == d.panelSize
      ensures if d.rs485.Flipnet? then address == d.rs485.address && baudrate == d.rs485.baudrate
              else address == old(address) && baudrate == old(baudrate)
    {
      wifiMode, ssid, password := d.wifiMode, d.ssid, d.password;
      match d.rs485 {
        case Flipnet(mode, a, b) => rs485Mode, address, baudrate := mode, a, b;
        case Other(mode) => rs485Mode := mode;
      }
      panelCount, panelSize := d.panelCount, d.panelSize;
      hostname := d.hostname;
    }

    method FlashDefaults(partition: Partition, d: Defaults) returns (error: Error)
      requires Valid() && SizedDefaults(d) && |partition.cells| >= SIZE
      modifies this, partition
      ensures Value() == WithDefaults(old(Value()), d)
      ensures hostname == d.hostname && wifiMode == d.wifiMode && ssid == d.ssid && password == d.password
      ensures rs485Mode == d.rs485.mode && panelCount == d.panelCount && panelSize == d.panelSize
      ensures |partition.cells| == old(|partition.cells|)
      ensures error == if old(partition.erasable) && old(partition.programmable) >= SIZE then Ok else Fail
      ensures error == Ok ==> partition.cells == Saved(|partition.cells|, Value()) && checksum == Zeros(16)
    {
      LoadDefaults(d);
      error := Save(partition);
    }

    method Load(partition: Partition?, d: Defaults) returns (error: Error)
      requires SizedDefaults(d) && (partition != null ==> |partition.cells| >= SIZE)
      modifies this
      modifies if partition != null then {partition} else {}
      ensures partition == null ==> error == NotFound && unchanged(this)
      ensures partition != null && !old(partition.readable) ==> error == Fail && unchanged(this) && unchanged(partition)
      ensures partition != null && old(partition.readable) ==>
        var before := old(partition.cells);
        && Valid() && |partition.cells| == |before|
        && (Accepts(before) ==> error == Ok && unchanged(partition) && checksum == Zeros(16))
        && (!Accepts(before) ==>
              error == if old(partition.erasable) && old(partition.programmable) >= SIZE then Ok else Fail)
        && Value() == Loaded(before, d).0
        && (error == Ok ==> partition.cells == Loaded(before, d).1)
        && (!Accepts(before) ==>
              && hostname == d.hostname && wifiMode == d.wifiMode && ssid == d.ssid && password == d.password
              && rs485Mode == d.rs485.mode && panelCount == d.panelCount && panelSize == d.panelSize)
    {
      hide Parse, Checksum, Saved, WithDefaults, Body;
      if partition == null {
        return NotFound;
      }
      if !partition.readable {
        return Fail;
      }
      var bytes := partition.cells;
      var c := Parse(bytes);
      hostname, wifiMode, ssid, password := c.hostname, c.wifiMode, c.ssid, c.password;
      rs485Mode, address, baudrate := c.rs485Mode, c.address, c.baudrate;
      panelCount, panelSize := c.panelCount, c.panelSize;
      assert Value() == c;
      checksum := Fetched(bytes[BODY], bytes[BODY + 1]);
      var stored := checksum;
      checksum := Zeros(16);
      var crc := CrcOfRecord();
      ChecksumComparison(bytes, stored, crc);
      if stored != crc {
        error := FlashDefaults(partition, d);
        return;
      }
      error := Ok;
    }
  }
}

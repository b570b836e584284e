/** What the configuration store guarantees over saves, loads and damage in between. */
module ConfigurationStore {
  import opened Crc16
  import opened CrcTheory
  import opened Polynomials
  import opened SystemConfiguration

  /** What was saved is accepted and read back. */
  lemma LoadAfterSave(size: nat, c: Config, d: Defaults)
    requires Sized(c) && SizedDefaults(d) && size >= SIZE
    ensures Loaded(Saved(size, c), d) == (c, Saved(size, c))
  {
    var cells := Saved(size, c);
    var rest := Stored(Checksum(Body(c))) + seq(size - SIZE, _ => ERASED);
    assert cells == Body(c) + rest;
    ParseBody(c, rest);
    assert cells[..BODY] == Body(c);
    assert cells[BODY..SIZE] == Stored(Checksum(Body(c)));
  }

  lemma AcceptsSaved(size: nat, c: Config)
    requires Sized(c) && size >= SIZE
    ensures Accepts(Saved(size, c))
  {
    var cells := Saved(size, c);
    assert cells[..BODY] == Body(c);
    assert cells[BODY..SIZE] == Stored(Checksum(Body(c)));
  }

  /** After any successful load, the repairing one included, loading again changes nothing and yields the same record. */
  lemma LoadIsStable(cells: seq<byte>, d: Defaults)
    requires |cells| >= SIZE && SizedDefaults(d)
    ensures Accepts(Loaded(cells, d).1)
    ensures Loaded(Loaded(cells, d).1, d) == Loaded(cells, d)
  {
    if !Accepts(cells) {
      var repaired := WithDefaults(Parse(cells), d);
      LoadAfterSave(|cells|, repaired, d);
      AcceptsSaved(|cells|, repaired);
    }
  }

  /** Which bytes an accepted partition is read into. */
  lemma AcceptedFields(cells: seq<byte>, d: Defaults)
    requires |cells| >= 149 && Accepts(cells) && SizedDefaults(d)
    ensures var c := Loaded(cells, d).0;
            && c.hostname == cells[..32] && c.wifiMode == cells[32..36] && c.ssid == cells[36..68] && c.password == cells[68..132]
            && c.rs485Mode == cells[132..136] && c.address == cells[136..137] && c.baudrate == cells[137..141]
            && c.panelCount == cells[141..142] && c.panelSize == cells[142..147]
  {
    var c := Parse(cells);
    BodyOfParse(cells);
    RecordLayout(c);
    hide Body, Checksum;
    forall i, j | 0 <= i <= j <= 147
      ensures Body(c)[i..j] == cells[i..j]
    {
      assert cells[..BODY][i..j] == cells[i..j];
    }
  }

  /** Which default goes into which field of a partition that is rejected, and what is kept of it. */
  lemma RepairedFields(cells: seq<byte>, d: Defaults)
    requires |cells| >= 149 && !Accepts(cells) && SizedDefaults(d)
    ensures var c := Loaded(cells, d).0;
            && c.hostname == d.hostname && c.wifiMode == d.wifiMode && c.ssid == d.ssid && c.password == d.password
            && c.rs485Mode == d.rs485.mode && c.panelCount == d.panelCount && c.panelSize == d.panelSize
            && c.address == (if d.rs485.Flipnet? then d.rs485.address else cells[136..137])
            && c.baudrate == (if d.rs485.Flipnet? then d.rs485.baudrate else cells[137..141])
  {
  }

  // ----- Damage

  lemma BitsSnoc(a: seq<byte>, x: byte)
    ensures Bits(a + [x]) == Bits(a) + x
  {
    assert (a + [x])[..|a|] == a;
  }

  lemma BitsOfNothing()
    ensures Bits([]) == []
  {
  }

  lemma {:induction false} BitsThen(a: seq<byte>, b: seq<byte>)
    ensures Bits(a + b) == Bits(a) + Bits(b)
    decreases |b|
  {
    hide Bits;
    if b == [] {
      assert a + b == a;
      BitsOfNothing();
    } else {
      var init, x := b[..|b| - 1], b[|b| - 1];
      BitsThen(a, init);
      assert a + b == (a + init) + [x] && b == init + [x];
      BitsSnoc(a + init, x);
      BitsSnoc(init, x);
    }
  }

  lemma StoredInjective(a: word, b: word)
    ensures Stored(a) == Stored(b) ==> a == b
  {
    assert a == a[..8] + a[8..] && b == b[..8] + b[8..];
    assert Stored(a)[0] == a[8..] && Stored(a)[1] == a[..8] && Stored(b)[0] == b[8..] && Stored(b)[1] == b[..8];
  }

  /** The two partitions hold the same checksum field. */
  predicate SameChecksum(cells: seq<byte>, cells': seq<byte>)
    requires |cells| >= SIZE && |cells'| >= SIZE
  {
    cells[BODY..SIZE] == cells'[BODY..SIZE]
  }

  /** Damage that changes the checksum of the body is noticed. */
  lemma ChangedChecksumRejected(cells: seq<byte>, cells': seq<byte>)
    requires |cells| >= SIZE && |cells'| >= SIZE && Accepts(cells) && SameChecksum(cells, cells')
    requires Checksum(cells[..BODY]) != Checksum(cells'[..BODY])
    ensures !Accepts(cells')
  {
    StoredInjective(Checksum(cells[..BODY]), Checksum(cells'[..BODY]));
  }

  /** A body damaged within 16 consecutive bits is rejected, and the load puts the defaults in its place. */
  lemma BurstRepaired(cells: seq<byte>, cells': seq<byte>, start: nat, d: Defaults)
    requires |cells| >= SIZE && |cells'| >= SIZE && SizedDefaults(d) && Accepts(cells) && SameChecksum(cells, cells')
    requires Bits(cells[..BODY]) != Bits(cells'[..BODY])
    requires var a, b := Bits(cells[..BODY]), Bits(cells'[..BODY]);
             forall i :: 0 <= i < |a| && a[i] != b[i] ==> start <= i < start + 16
    ensures !Accepts(cells')
    ensures Loaded(cells', d) == (WithDefaults(Parse(cells'), d), Saved(|cells'|, WithDefaults(Parse(cells'), d)))
  {
    var a, b := cells[..BODY], cells'[..BODY];
    BitsThen(a, NO_CHECKSUM);
    BitsThen(b, NO_CHECKSUM);
    var i :| 0 <= i < |Bits(a)| && Bits(a)[i] != Bits(b)[i];
    assert Bits(a + NO_CHECKSUM)[i] != Bits(b + NO_CHECKSUM)[i];
    BurstDetected(a + NO_CHECKSUM, b + NO_CHECKSUM, start);
    ChangedChecksumRejected(cells, cells');
  }

  lemma ChecksumsDiffer(a: seq<byte>, b: seq<byte>)
    requires Crc(a + NO_CHECKSUM) != Crc(b + NO_CHECKSUM)
    ensures Checksum(a) != Checksum(b)
  {
  }

  /** A body with an odd number of wrong bits is rejected, and the load puts the defaults in its place. */
  lemma OddDamageRepaired(cells: seq<byte>, cells': seq<byte>, d: Defaults)
    requires |cells| >= SIZE && |cells'| >= SIZE && SizedDefaults(d) && Accepts(cells) && SameChecksum(cells, cells')
    requires var a, b := Bits(cells[..BODY]), Bits(cells'[..BODY]); |set i: nat | i < |a| && a[i] != b[i]| % 2 == 1
    ensures !Accepts(cells')
    ensures Loaded(cells', d) == (WithDefaults(Parse(cells'), d), Saved(|cells'|, WithDefaults(Parse(cells'), d)))
  {
    hide Bits, Checksum, WithDefaults, Saved, Parse;
    var a, b := cells[..BODY], cells'[..BODY];
    BitsThen(a, NO_CHECKSUM);
    BitsThen(b, NO_CHECKSUM);
    var zeros := Bits(NO_CHECKSUM);
    assert (set i: nat | i < |Bits(a)| && Bits(a)[i] != Bits(b)[i])
        == set i: nat | i < |Bits(a) + zeros| && (Bits(a) + zeros)[i] != (Bits(b) + zeros)[i];
    OddErrorsDetected(a + NO_CHECKSUM, b + NO_CHECKSUM);
    ChecksumsDiffer(a, b);
    ChangedChecksumRejected(cells, cells');
  }

  /** With an intact body any damage to the checksum field is noticed. */
  lemma DamagedChecksumRejected(cells: seq<byte>, cells': seq<byte>)
    requires |cells| >= SIZE && |cells'| >= SIZE && Accepts(cells)
    requires cells[..BODY] == cells'[..BODY] && !SameChecksum(cells, cells')
    ensures !Accepts(cells')
  {
  }

  // ----- What the repair leaves behind

  ghost predicate Rejected(cells: seq<byte>) {
    |cells| >= SIZE && !Accepts(cells)
  }

  /** What a repairing load returns does not depend on what was in the flash. */
  ghost predicate RepairForgets(d: Defaults)
    requires SizedDefaults(d)
  {
    forall cells: seq<byte>, cells': seq<byte> :: Rejected(cells) && Rejected(cells') ==> Loaded(cells, d).0 == Loaded(cells', d).0
  }

  /** Any record can be found in the flash under a checksum that is not its own. */
  lemma DamagedRecord(c: Config) returns (cells: seq<byte>)
    requires Sized(c)
    ensures Rejected(cells) && Parse(cells) == c
  {
    var wrong: seq<byte> := if Stored(Checksum(Body(c))) == NO_CHECKSUM then [ERASED, ERASED] else NO_CHECKSUM;
    cells := Body(c) + wrong;
    ParseBody(c, wrong);
    assert cells[..BODY] == Body(c) && cells[BODY..SIZE] == wrong;
    assert ERASED[0] != NO_CHECKSUM[0][0];
  }

  /**
    The defaults replace the whole damaged record exactly when the build selects FLIPNET for RS485; otherwise address
    and baudrate keep the bytes read from the damaged flash, and are saved again under a valid checksum.
   */
  lemma RepairForgetsExactlyWhenFlipnet(d: Defaults)
    requires SizedDefaults(d)
    ensures RepairForgets(d) <==> d.rs485.Flipnet?
  {
    if !d.rs485.Flipnet? {
      var c := WithDefaults(Parse(seq(BODY, _ => Zeros(8))), d);
      var a, b := c.(address := [Zeros(8)]), c.(address := [ERASED]);
      var cells := DamagedRecord(a);
      var cells' := DamagedRecord(b);
      assert [Zeros(8)][0][0] != [ERASED][0][0];
      assert Loaded(cells, d).0.address != Loaded(cells', d).0.address;
    }
  }

  lemma {:induction false} ZeroBits(n: nat)
    ensures Bits(seq(n, _ => Zeros(8))) == Zeros(8 * n)
  {
    if n > 0 {
      ZeroBits(n - 1);
      assert seq(n, _ => Zeros(8))[..n - 1] == seq(n - 1, _ => Zeros(8));
      assert Zeros(8 * n) == Zeros(8 * (n - 1)) + Zeros(8);
    }
  }

  /** Because the register starts at zero, a partition full of zero bytes is accepted: a configuration without panels. */
  lemma BlankZerosAccepted(size: nat)
    requires size >= SIZE
    ensures var cells := seq(size, _ => Zeros(8)); Accepts(cells) && Parse(cells).panelCount == [Zeros(8)]
  {
    var cells: seq<byte> := seq(size, _ => Zeros(8));
    assert cells[..BODY] + NO_CHECKSUM == seq(SIZE, _ => Zeros(8));
    ZeroBits(SIZE);
    ZerosKeepZero(8 * SIZE);
    StoredZero();
    assert cells[BODY..SIZE] == NO_CHECKSUM;
  }
}

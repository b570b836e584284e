/** fluepdot_mib.c: get and get-next on the pixels table and on the tables with a single index. */
module SnmpTables {
  import opened Layout

  type uint32 = n: nat | n < 0x1_0000_0000

  type Oid = seq<uint32>

  datatype Option<T> = None | Some(value: T)

  /** uint32_t increment */
  function Increment(n: uint32): uint32 {
    if n == 0xFFFF_FFFF then 0 else n + 1
  }

  // ----- What the agent is asked for

  /** The lexicographic order of object identifiers; a proper prefix comes first. */
  predicate Less(a: Oid, b: Oid) {
    b != [] && (a == [] || a[0] < b[0] || (a[0] == b[0] && Less(a[1..], b[1..])))
  }

  /** An index of the pixels table. */
  predicate IsPixel(oid: Oid, width: uint8) {
    |oid| == 2 && oid[0] < width && oid[1] < 16
  }

  /** An index of a table with `count` rows. */
  predicate IsIndex(oid: Oid, count: uint8) {
    |oid| == 1 && oid[0] < count
  }

  /** `next` is the least row after `oid`, as section 4.2.2 of RFC 3416 asks; None if there is no row after it. */
  ghost predicate IsNext(isRow: Oid -> bool, oid: Oid, next: Option<Oid>) {
    match next
    case None => forall row: Oid :: isRow(row) ==> !Less(oid, row)
    case Some(r) => isRow(r) && Less(oid, r) && forall row: Oid :: isRow(row) && Less(oid, row) ==> row == r || Less(r, row)
  }

  // ----- What the code computes

  function NextPixel(oid: Oid, width: uint8): Option<Oid> {
    if |oid| == 0 then Some([0, 0])
    else if |oid| == 2 then
      var x, y := oid[0], oid[1];
      var x', y' := if y >= 15 then Increment(x) else x, if y >= 15 then 0 else y + 1;
      if x' < width then Some([x', y']) else None
    else None
  }

  function NextIndex(oid: Oid, count: uint8): Option<Oid> {
    if |oid| == 0 then Some([0])
    else if |oid| == 1 then
      var x := Increment(oid[0]);
      if x < count then Some([x]) else None
    else None
  }

  /** struct snmp_obj_id */
  class ObjectId {
    var id: array<uint32>
    var len: nat

    constructor (id: array<uint32>, len: nat)
      ensures this.id == id && this.len == len
    {
      this.id, this.len := id, len;
    }

    ghost predicate Valid()
      reads this
    {
      id.Length >= 2 && len <= id.Length
    }

    ghost function Value(): Oid
      requires Valid()
      reads this, id
    {
      id[..len]
    }
  }

  /** The agent with the coordinate that the last lookup left for the value accessors. */
  class Agent {
    const width: uint8
    const panelCount: uint8
    var x: uint32
    var y: uint32

    constructor (width: uint8, panelCount: uint8)
      ensures this.width == width && this.panelCount == panelCount
    {
      this.width, this.panelCount := width, panelCount;
      x, y := 0, 0;
    }

    /** pixelstable_get_instance, with its fixed width. */
    method GetPixel(oid: Oid) returns (found: bool)
      modifies this
      ensures found <==> IsPixel(oid, 115)
      ensures if found then [x, y] == oid else x == old(x) && y == old(y)
    {
      found := false;
      if |oid| == 2 {
        var ox, oy := oid[0], oid[1];
        if ox < 115 && oy < 16 {
          x, y := ox, oy;
          assert [ox, oy] == oid;
          found := true;
        }
      }
    }

    /** pixelstable_get_next_instance */
    method GetNextPixel(row: ObjectId) returns (found: bool)
      requires row.Valid()
      modifies this, row, row.id
      ensures row.Valid() && row.id == old(row.id)
      ensures found <==> NextPixel(old(row.Value()), width).Some?
      ensures if found then row.Value() == NextPixel(old(row.Value()), width).value == [x, y]
              else row.Value() == old(row.Value()) && x == old(x) && y == old(y)
    {
      found := false;
      if row.len == 0 {
        x, y := 0, 0;
        row.id[0], row.id[1] := 0, 0;
        row.len := 2;
        found := true;
      } else if row.len == 2 {
        var ox, oy := row.id[0], row.id[1];
        if oy >= 15 {
          oy := 0;
          ox := Increment(ox);
        } else {
          oy := oy + 1;
        }
        if ox < width {
          row.id[0], row.id[1] := ox, oy;
          x, y := ox, oy;
          found := true;
        }
      }
    }

    /** The get-next functions of the panel, delay and order tables: `count` is the panel count or the width. */
    method GetNextIndex(row: ObjectId, count: uint8) returns (found: bool)
      requires row.Valid()
      modifies this`x, row, row.id
      ensures row.Valid() && row.id == old(row.id)
      ensures found <==> NextIndex(old(row.Value()), count).Some?
      ensures if found then row.Value() == NextIndex(old(row.Value()), count).value == [x]
              else row.Value() == old(row.Value()) && x == old(x)
    {
      found := false;
      if row.len == 0 {
        row.id[0] := 0;
        row.len := 1;
        x := 0;
        found := true;
      } else if row.len == 1 {
        var index := Increment(row.id[0]);
        if index < count {
          row.id[0] := index;
          x := index;
          found := true;
        }
      }
    }
  }

  // ----- When the code answers what it is asked for

  lemma LessPair(a: Oid, b: Oid)
    requires |b| == 2
    ensures Less(a, b) <==>
              |a| == 0 || a[0] < b[0] || (a[0] == b[0] && (|a| == 1 || a[1] < b[1]))
  {
    if |a| >= 1 && a[0] == b[0] {
      assert Less(a, b) == Less(a[1..], b[1..]);
      if |a| >= 2 {
        assert b[1..][1..] == [];
        assert a[1..] != [] && a[1..][0] == a[1];
      }
    }
  }

  lemma LessSingle(a: Oid, b: Oid)
    requires |b| == 1
    ensures Less(a, b) <==> |a| == 0 || a[0] < b[0]
  {
    assert b[1..] == [];
  }

  /** No pixel row comes after a row at or beyond the last one. */
  predicate AtEnd(x: uint32, y: uint32, width: uint8) {
    x >= width || (x + 1 == width && y >= 15)
  }

  /** The requests on which get-next for pixels is right. */
  predicate PixelRequestServed(oid: Oid, width: uint8) {
    if |oid| == 0 then width > 0
    else if |oid| == 1 then oid[0] >= width
    else if |oid| == 2 then width == 0 || !(oid[0] == 0xFFFF_FFFF && oid[1] >= 15)
    else AtEnd(oid[0], oid[1], width)
  }

  lemma NextPixelWrong(oid: Oid, width: uint8)
    requires !PixelRequestServed(oid, width)
    ensures !IsNext(row => IsPixel(row, width), oid, NextPixel(oid, width))
  {
    if |oid| == 0 {
      assert !IsPixel([0, 0], width);
    } else if |oid| == 2 {
      LessPair(oid, [0, 0]);
    } else {
      var row: Oid := if |oid| == 1 then [oid[0], 0] else if oid[1] < 15 then [oid[0], oid[1] + 1] else [oid[0] + 1, 0];
      LessPair(oid, row);
      assert IsPixel(row, width) && Less(oid, row);
    }
  }

  /**
    get-next on the pixels table returns the least row after the given identifier exactly on these requests: from the
    empty index, from a full index unless the increment of x wraps around, and from a partial or overlong index only
    when nothing comes after it.
   */
  lemma NextPixelExactlyWhen(oid: Oid, width: uint8)
    ensures IsNext(row => IsPixel(row, width), oid, NextPixel(oid, width)) <==> PixelRequestServed(oid, width)
  {
    var isRow := (row: Oid) => IsPixel(row, width);
    forall row: Oid | isRow(row)
      ensures |row| == 2
    {
    }
    if PixelRequestServed(oid, width) {
      forall row: Oid | isRow(row)
        ensures match NextPixel(oid, width)
                case None => !Less(oid, row)
                case Some(r) => isRow(r) && Less(oid, r) && (Less(oid, row) ==> row == r || Less(r, row))
      {
        LessPair(oid, row);
        if NextPixel(oid, width).Some? {
          var r := NextPixel(oid, width).value;
          LessPair(oid, r);
          LessPair(r, row);
        }
      }
    } else {
      NextPixelWrong(oid, width);
    }
  }

  /** The requests on which get-next for a single-index table is right. */
  predicate IndexRequestServed(oid: Oid, count: uint8) {
    if |oid| == 0 then count > 0
    else if |oid| == 1 then count == 0 || oid[0] != 0xFFFF_FFFF
    else oid[0] + 1 >= count
  }

  /** The same for the panel, delay and order tables: wrong from an overlong index with a row after it, and on wrap-around. */
  lemma NextIndexExactlyWhen(oid: Oid, count: uint8)
    ensures IsNext(row => IsIndex(row, count), oid, NextIndex(oid, count)) <==> IndexRequestServed(oid, count)
  {
    var isRow := (row: Oid) => IsIndex(row, count);
    if IndexRequestServed(oid, count) {
      forall row: Oid | isRow(row)
        ensures match NextIndex(oid, count)
                case None => !Less(oid, row)
                case Some(r) => isRow(r) && Less(oid, r) && (Less(oid, row) ==> row == r || Less(r, row))
      {
        LessSingle(oid, row);
        if NextIndex(oid, count).Some? {
          var r := NextIndex(oid, count).value;
          LessSingle(oid, r);
          LessSingle(r, row);
        }
      }
    } else if |oid| == 0 {
      assert !IsIndex([0], count);
    } else if |oid| == 1 {
      LessSingle(oid, [0]);
    } else {
      LessSingle(oid, [oid[0] + 1]);
      assert IsIndex([oid[0] + 1], count);
    }
  }

  // ----- The walk

  /** The `i`-th row that a walk of the pixels table meets: up the column, then on to the next. */
  function Row(i: nat): (row: (nat, nat))
    ensures row.1 < 16 && 16 * row.0 + row.1 == i
  {
    if i == 0 then (0, 0)
    else
      var (x, y) := Row(i - 1);
      if y == 15 then (x + 1, 0) else (x, y + 1)
  }

  /** Row `i` of the walk as an identifier. */
  function RowOid(i: nat, width: uint8): (oid: Oid)
    requires i < 16 * width
    ensures IsPixel(oid, width)
  {
    [Row(i).0, Row(i).1]
  }

  /**
    A walk from the empty index meets the rows 0, 1, 2, ... up to 16 * width - 1 and then stops; each row of the table
    is met exactly once, and in strictly increasing order.
   */
  lemma WalkVisitsEveryPixelOnce(width: uint8)
    requires width > 0
    ensures NextPixel([], width) == Some(RowOid(0, width))
    ensures forall i: nat :: i + 1 < 16 * width ==> NextPixel(RowOid(i, width), width) == Some(RowOid(i + 1, width))
    ensures NextPixel(RowOid(16 * width - 1, width), width) == None
    ensures forall oid: Oid :: IsPixel(oid, width) ==>
              16 * oid[0] + oid[1] < 16 * width && RowOid(16 * oid[0] + oid[1], width) == oid
    ensures forall i: nat, j: nat :: i < j < 16 * width ==> Less(RowOid(i, width), RowOid(j, width))
  {
    forall i: nat, j: nat | i < j < 16 * width
      ensures Less(RowOid(i, width), RowOid(j, width))
    {
      LessPair(RowOid(i, width), RowOid(j, width));
    }
    forall i: nat | i + 1 < 16 * width
      ensures NextPixel(RowOid(i, width), width) == Some(RowOid(i + 1, width))
    {
      assert Row(i + 1) == if Row(i).1 == 15 then (Row(i).0 + 1, 0) else (Row(i).0, Row(i).1 + 1);
      assert RowOid(i + 1, width)[0] < width;
    }
    forall oid: Oid | IsPixel(oid, width)
      ensures 16 * oid[0] + oid[1] < 16 * width && RowOid(16 * oid[0] + oid[1], width) == oid
    {
      var row := Row(16 * oid[0] + oid[1]);
      assert 16 * row.0 + row.1 == 16 * oid[0] + oid[1];
      assert row.0 == oid[0] && row.1 == oid[1];
    }
  }

  lemma IncrementWraps(n: uint32)
    ensures Increment(n) == (n + 1) % 0x1_0000_0000
  {
  }

  /** The walk of a table with a single index: 0, 1, 2, ... up to the last row, then the end; these are all its rows. */
  lemma WalkVisitsEveryIndexOnce(count: uint8)
    requires count > 0
    ensures NextIndex([], count) == Some([0])
    ensures forall i: nat :: i + 1 < count ==> NextIndex([i], count) == Some([i + 1])
    ensures NextIndex([count - 1], count) == None
    ensures forall oid: Oid :: IsIndex(oid, count) <==> exists i: nat :: i < count && oid == [i]
  {
    forall oid: Oid | IsIndex(oid, count)
      ensures exists i: nat :: i < count && oid == [i]
    {
      assert oid == [oid[0]];
    }
  }

  /** get accepts exactly the rows that the walk finds only on a display of 115 columns. */
  lemma GetAgreesWithWalkExactlyWhen(width: uint8)
    ensures (forall oid: Oid :: IsPixel(oid, 115) <==> IsPixel(oid, width)) <==> width == 115
  {
    if width < 115 {
      assert IsPixel([width, 0], 115) && !IsPixel([width, 0], width);
    } else if width > 115 {
      assert IsPixel([115, 0], width) && !IsPixel([115, 0], 115);
    }
  }
}

/** `uses_numbered_reports` of `src/cmedia/hid_lin.cxx`: walks a HID report descriptor,
    HID 1.11 section 6.2.2, looking for a Report ID item. */
module Descriptor {
  import opened Common

  /** The prefix byte of a Report ID item with one byte of data. */
  const REPORT_ID: Byte := 0x85

  /** What the walk takes for a long item: any prefix whose upper four bits are set. */
  predicate IsLong(key: Byte) { key >= 0xF0 }

  /** The data bytes of a short item, by the two low bits of its prefix. */
  function ShortSize(key: Byte): nat { if key % 4 == 3 then 4 else key % 4 }

  /** How far the walk moves from index `i`. */
  function Stride(d: seq<Byte>, i: nat): (n: nat)
    requires i < |d|
    ensures 1 <= n <= 258
  {
    if IsLong(d[i]) then (if i + 1 < |d| then d[i + 1] else 0) + 3
    else ShortSize(d[i]) + 1
  }

  /** The walk from index `i`. */
  predicate Walk(d: seq<Byte>, i: nat)
    decreases |d| - i
  {
    i < |d| && (d[i] == REPORT_ID || Walk(d, i + Stride(d, i)))
  }

  /** uses_numbered_reports: every index it reads lies inside the descriptor, and the
      32-bit index does not wrap as long as one more item fits behind the end. */
  method UsesNumberedReports(reportDescriptor: array<Byte>, size: nat) returns (r: int)
    requires size <= reportDescriptor.Length && size + 258 <= 0x1_0000_0000
    ensures r == if Walk(reportDescriptor[..size], 0) then 1 else 0
  {
    ghost var d := reportDescriptor[..size];
    var i := 0;
    while i < size
      invariant 0 <= i <= size + 258 && i < 0x1_0000_0000
      invariant Walk(d, 0) <==> Walk(d, i)
      decreases size - i
    {
      var key := reportDescriptor[i];
      if key == REPORT_ID { return 1; }
      var dataLen, keySize := 0, 0;
      if key >= 0xF0 {
        if i + 1 < size { dataLen := reportDescriptor[i + 1]; }
        keySize := 3;
      } else {
        match key % 4 {
          case 3 => dataLen := 4;
          case _ => dataLen := key % 4;
        }
        keySize := 1;
      }
      i := i + dataLen + keySize;
    }
    return 0;
  }

  // ---- Items ---------------------------------------------------------------------

  /** A short item holds no, one, two or four bytes of data. */
  datatype Data = Empty | One(a: Byte) | Two(a: Byte, b: Byte) | Four(a: Byte, b: Byte, c: Byte, d: Byte)

  /** HID 1.11 sections 6.2.2.2 and 6.2.2.3.  The prefix of a short item is made of a tag of
      four bits, a type of two, and a size code of two; that of a long one has the upper four
      bits set, which leaves short items fifteen tags. */
  datatype Item =
    | Short(tag: nat, kind: nat, data: Data)
    | Long(low: nat, longTag: Byte, payload: seq<Byte>)

  predicate WellFormed(item: Item) {
    match item
    case Short(tag, kind, _) => tag < 15 && kind < 4
    case Long(low, _, payload) => low < 16 && |payload| < 256
  }

  function Encode(item: Item): seq<Byte>
    requires WellFormed(item)
  {
    match item
    case Short(tag, kind, Empty) => [16 * tag + 4 * kind]
    case Short(tag, kind, One(a)) => [16 * tag + 4 * kind + 1, a]
    case Short(tag, kind, Two(a, b)) => [16 * tag + 4 * kind + 2, a, b]
    case Short(tag, kind, Four(a, b, c, d)) => [16 * tag + 4 * kind + 3, a, b, c, d]
    case Long(low, tag, payload) => [240 + low, |payload|, tag] + payload
  }

  function EncodeAll(items: seq<Item>): seq<Byte>
    requires forall item :: item in items ==> WellFormed(item)
  {
    if items == [] then [] else Encode(items[0]) + EncodeAll(items[1..])
  }

  /** A Report ID: the global item with tag 8, and one byte of data. */
  predicate IsReportId(item: Item) { item.Short? && item.tag == 8 && item.kind == 1 && item.data.One? }

  /** The walk over what follows a whole number of strides is the walk over it alone. */
  lemma {:induction false} WalkBehind(a: seq<Byte>, b: seq<Byte>, i: nat)
    ensures Walk(a + b, |a| + i) <==> Walk(b, i)
    decreases |b| - i
  {
    var d := a + b;
    if i < |b| {
      assert d[|a| + i] == b[i];
      if i + 1 < |b| { assert d[|a| + i + 1] == b[i + 1]; }
      assert Stride(d, |a| + i) == Stride(b, i);
      WalkBehind(a, b, i + Stride(b, i));
    }
  }

  /** The walk takes a whole item in one stride. */
  lemma StrideIsItem(item: Item, rest: seq<Byte>)
    requires WellFormed(item)
    ensures var d := Encode(item) + rest;
      && d != [] && Stride(d, 0) == |Encode(item)|
      && (d[0] == REPORT_ID <==> IsReportId(item))
  {
  }

  lemma {:induction false} WalkItems(items: seq<Item>, tail: seq<Byte>)
    requires forall item :: item in items ==> WellFormed(item)
    ensures Walk(EncodeAll(items) + tail, 0) <==> (exists item :: item in items && IsReportId(item)) || Walk(tail, 0)
  {
    if items == [] {
      assert [] + tail == tail;
    } else {
      var rest := EncodeAll(items[1..]) + tail;
      assert items[0] in items;
      assert EncodeAll(items) + tail == Encode(items[0]) + rest;
      StrideIsItem(items[0], rest);
      WalkBehind(Encode(items[0]), rest, 0);
      WalkItems(items[1..], tail);
      assert forall item :: item in items <==> item == items[0] || item in items[1..];
    }
  }

  /** For the bytes of any list of items, whatever data they hold, the walk finds exactly
      the Report ID items: it is never misled by data, and ends at the end. */
  lemma FindsReportIds(items: seq<Item>)
    requires forall item :: item in items ==> WellFormed(item)
    ensures Walk(EncodeAll(items), 0) <==> exists item :: item in items && IsReportId(item)
  {
    WalkItems(items, []);
    assert EncodeAll(items) + [] == EncodeAll(items);
  }

  // ---- Every descriptor -----------------------------------------------------------

  /** The descriptor ends in the middle of an item: it begins with no whole one. */
  ghost predicate BrokenOff(d: seq<Byte>) {
    d != [] && forall item :: WellFormed(item) ==> !(Encode(item) <= d)
  }

  function FirstData(d: seq<Byte>): Data
    requires d != [] && !IsLong(d[0]) && Stride(d, 0) <= |d|
  {
    if d[0] % 4 == 0 then Empty
    else if d[0] % 4 == 1 then One(d[1])
    else if d[0] % 4 == 2 then Two(d[1], d[2])
    else Four(d[1], d[2], d[3], d[4])
  }

  function FirstItem(d: seq<Byte>): (item: Item)
    requires d != [] && Stride(d, 0) <= |d|
    ensures WellFormed(item) && Encode(item) == d[..Stride(d, 0)]
  {
    if IsLong(d[0]) then Long(d[0] - 240, d[2], d[3..Stride(d, 0)])
    else Short(d[0] / 16, d[0] / 4 % 4, FirstData(d))
  }

  lemma LongStrideBreaksOff(d: seq<Byte>)
    requires d != [] && Stride(d, 0) > |d|
    ensures BrokenOff(d)
  {
    forall item | WellFormed(item) ensures !(Encode(item) <= d) {
      if Encode(item) <= d { WholeItemFits(item, d); }
    }
  }

  lemma WholeItemFits(item: Item, d: seq<Byte>)
    requires WellFormed(item) && Encode(item) <= d
    ensures Stride(d, 0) <= |d|
  {
    StrideIsItem(item, d[|Encode(item)|..]);
    assert Encode(item) + d[|Encode(item)|..] == d;
  }

  /** The items of any string of bytes, and what is left over. */
  function Parse(d: seq<Byte>): (r: (seq<Item>, seq<Byte>))
    ensures r.1 == [] || Stride(r.1, 0) > |r.1|
    ensures forall item :: item in r.0 ==> WellFormed(item)
    decreases |d|
  {
    if d == [] || Stride(d, 0) > |d| then ([], d)
    else
      var (items, tail) := Parse(d[Stride(d, 0)..]);
      ([FirstItem(d)] + items, tail)
  }

  lemma EncodeCons(item: Item, items: seq<Item>)
    requires WellFormed(item) && forall i :: i in items ==> WellFormed(i)
    ensures EncodeAll([item] + items) == Encode(item) + EncodeAll(items)
  {
  }

  lemma Rejoined(d: seq<Byte>, n: nat, item: Item, items: seq<Item>, tail: seq<Byte>)
    requires n <= |d| && WellFormed(item) && Encode(item) == d[..n]
    requires forall i :: i in items ==> WellFormed(i)
    requires EncodeAll(items) + tail == d[n..]
    ensures EncodeAll([item] + items) + tail == d
  {
    EncodeCons(item, items);
    Assoc(Encode(item), EncodeAll(items), tail);
    assert d[..n] + d[n..] == d;
  }

  /** The items and the rest are the descriptor, and the rest holds no whole item. */
  lemma {:induction false} ParseIsWhole(d: seq<Byte>)
    ensures EncodeAll(Parse(d).0) + Parse(d).1 == d
    ensures Parse(d).1 == [] || BrokenOff(Parse(d).1)
    decreases |d|
  {
    if Parse(d).1 != [] { LongStrideBreaksOff(Parse(d).1); }
    if d != [] && Stride(d, 0) <= |d| {
      var n := Stride(d, 0);
      ParseIsWhole(d[n..]);
      var (items, tail) := Parse(d[n..]);
      Rejoined(d, n, FirstItem(d), items, tail);
    }
  }

  /** For any bytes at all: the result is 1 exactly when an item is a Report ID, or the
      descriptor breaks off inside one, whose prefix is then 0x85. */
  lemma WalkOfAnything(d: seq<Byte>)
    ensures var (items, tail) := Parse(d);
      Walk(d, 0) <==> (exists item :: item in items && IsReportId(item)) || (tail != [] && tail[0] == 0x85)
  {
    var (items, tail) := Parse(d);
    ParseIsWhole(d);
    WalkItems(items, tail);
    if tail != [] { assert Walk(tail, 0) <==> tail[0] == REPORT_ID; }
  }
}

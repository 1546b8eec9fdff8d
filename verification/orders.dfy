/** Market orders and their dump (orders.c). */
module Orders {
  import opened Ints
  import opened Bytes
  import opened Crc32
  import opened DumpFiles
  import opened Records

  datatype Order = Order(
    isBuyOrder: bool, range: int8, duration: uint32, issued: uint64, minVolume: uint64,
    volumeRemain: uint64, volumeTotal: uint64, locationId: uint64, systemId: uint64,
    typeId: uint64, regionId: uint64, orderId: uint64, price: float64)

  /** The values dump_write_order writes, in its order. */
  function Fields(o: Order): seq<Field> {
    [(U8, if o.isBuyOrder then 1 else 0), (I8, o.range), (U32, o.duration), (U64, o.issued),
     (U64, o.minVolume), (U64, o.volumeRemain), (U64, o.volumeTotal), (U64, o.locationId),
     (U64, o.systemId), (U64, o.typeId), (U64, o.regionId), (U64, o.orderId), (F64, o.price)]
  }

  // ---------------------------------------------------------------- the layout of an order

  lemma {:induction false} OrderOffset(ks: seq<Kind>, i: nat)
    requires ks == [U8, I8, U32, U64, U64, U64, U64, U64, U64, U64, U64, U64, F64] && i <= 13
    ensures SizeOf(ks[..i]) == if i <= 2 then i else 8 * i - 18
  {
    if i > 0 {
      OrderOffset(ks, i - 1);
      SizeGrows(ks, i - 1);
    } else {
      assert ks[..i] == [];
    }
  }

  /** Field `i` of an order, by its bytes. */
  lemma {:induction false} OrderField(o: Order, i: nat, at: nat, size: nat)
    requires i < 13 && at == (if i <= 2 then i else 8 * i - 18) && size == Size(Fields(o)[i].0)
    ensures at + size <= |Encode(Fields(o))| && Encode(Fields(o))[at..at + size] == EncodeField(Fields(o)[i])
  {
    hide Encode, EncodeField, SizeOf;
    OrderOffset(Kinds(Fields(o)), i);
    FieldAt(Fields(o), i);
  }

  /** 86 bytes: which number stands where. */
  lemma {:induction false} OrderLayout(o: Order)
    ensures var s := Encode(Fields(o));
      && |s| == 86
      && s[0..1] == BE(if o.isBuyOrder then 1 else 0, 1) && s[1..2] == BE(o.range % 0x100, 1)
      && s[2..6] == BE(o.duration, 4) && s[6..14] == BE(o.issued, 8) && s[14..22] == BE(o.minVolume, 8)
      && s[22..30] == BE(o.volumeRemain, 8) && s[30..38] == BE(o.volumeTotal, 8)
      && s[38..46] == BE(o.locationId, 8) && s[46..54] == BE(o.systemId, 8) && s[54..62] == BE(o.typeId, 8)
      && s[62..70] == BE(o.regionId, 8) && s[70..78] == BE(o.orderId, 8) && s[78..86] == BE(o.price, 8)
  {
    hide Encode, SizeOf, BE;
    OrderSize(o);
    OrderField(o, 0, 0, 1);
    OrderField(o, 1, 1, 1);
    OrderField(o, 2, 2, 4);
    OrderField(o, 3, 6, 8);
    OrderField(o, 4, 14, 8);
    OrderField(o, 5, 22, 8);
    OrderField(o, 6, 30, 8);
    OrderTail(o);
  }

  lemma {:induction false} OrderTail(o: Order)
    ensures var s := Encode(Fields(o));
      && |s| == 86
      && s[38..46] == BE(o.locationId, 8) && s[46..54] == BE(o.systemId, 8) && s[54..62] == BE(o.typeId, 8)
      && s[62..70] == BE(o.regionId, 8) && s[70..78] == BE(o.orderId, 8) && s[78..86] == BE(o.price, 8)
  {
    hide Encode, SizeOf, BE;
    OrderSize(o);
    OrderField(o, 7, 38, 8);
    OrderField(o, 8, 46, 8);
    OrderField(o, 9, 54, 8);
    OrderField(o, 10, 62, 8);
    OrderField(o, 11, 70, 8);
    OrderField(o, 12, 78, 8);
  }

  lemma {:induction false} OrderSize(o: Order)
    ensures |Encode(Fields(o))| == 86
  {
    hide Encode, SizeOf;
    RoundTrip(Fields(o));
    OrderOffset(Kinds(Fields(o)), 13);
    assert Kinds(Fields(o))[..13] == Kinds(Fields(o));
  }

  function Rows(orders: seq<Order>): seq<seq<Field>> {
    seq(|orders|, i requires 0 <= i < |orders| => Fields(orders[i]))
  }

  function EncodeTable(orders: seq<Order>): seq<Byte> { BE(|orders|, 8) + EncodeRows(Rows(orders)) }

  /** The count, then the orders at multiples of 86 bytes. */
  lemma {:induction false} TableLayout(orders: seq<Order>, i: nat)
    requires i < |orders|
    ensures var t := EncodeTable(orders);
      && |t| == 8 + 86 * |orders| && t[..8] == BE(|orders|, 8)
      && t[8 + 86 * i..8 + 86 * i + 86] == Encode(Fields(orders[i]))
  {
    hide Encode, Fields, BE, EncodeRows;
    forall r | 0 <= r < |orders|
      ensures |Encode(Rows(orders)[r])| == 86
    {
      OrderSize(orders[r]);
    }
    RowAt(Rows(orders), 86, i);
    var count, rows := BE(|orders|, 8), EncodeRows(Rows(orders));
    assert (count + rows)[8 + 86 * i..8 + 86 * i + 86] == rows[86 * i..86 * i + 86];
  }

  /** dump_write_order_table; a length fits in 64 bits. */
  method WriteOrderTable(dump: Dump, orders: seq<Order>)
    requires dump.Writing() && |orders| < 0x1_0000_0000_0000_0000
    modifies dump`pos, dump`checksum, dump`body, dump.file
    ensures dump.Writing() && dump.file == old(dump.file) && dump.header == old(dump.header)
    ensures dump.body == old(dump.body) + EncodeTable(orders)
  {
    hide Crc, BE, Fields, Encode;
    dump.WriteUint64(|orders|);
    for i := 0 to |orders|
      invariant dump.Writing() && dump.file == old(dump.file) && dump.header == old(dump.header)
      invariant dump.body == old(dump.body) + (BE(|orders|, 8) + EncodeRows(Rows(orders)[..i]))
    {
      WriteFields(dump, Fields(orders[i]));
      assert Rows(orders)[..i + 1][..i] == Rows(orders)[..i];
    }
    assert Rows(orders)[..|orders|] == Rows(orders);
  }

  /** hoardling_orders_dump: the file is a finished dump that expires five minutes later. */
  method DumpOrders(f: StoredFile, orders: seq<Order>, now: nat)
    requires |orders| < 0x1_0000_0000_0000_0000 && now + 300 < 0x1_0000_0000_0000_0000
    modifies f
    ensures f.bytes == Finished(DUMP_TYPE_ORDERS, now + 300, EncodeTable(orders))
  {
    hide Crc, EncodeTable;
    var dump := new Dump();
    dump.OpenWrite(f, DUMP_TYPE_ORDERS, now + 60 * 5);
    WriteOrderTable(dump, orders);
    assert dump.body == EncodeTable(orders);
    dump.CloseWrite();
    PatchedHeader(DUMP_TYPE_ORDERS, now + 300, EncodeTable(orders));
  }
}

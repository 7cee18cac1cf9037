/**
 * The pure half of the BM2 client's notification handling: the packet kinds
 * and their prefixes, the fields the handler reads out of a decrypted packet,
 * the commands it sends back, the decoding of history records, and the
 * handler's whole decision as a transition on the reassembly state
 * (the receiving flag and the accumulated history bytes).
 */
module Packets {
  import opened Wrappers
  import opened Bytes
  import opened BitUtils

  // ---------------------------------------------------------------------------
  // Packet kinds
  // ---------------------------------------------------------------------------

  datatype PacketType = VoltageReading | HistoryCount | StartHistory | EndHistory

  /** The byte prefix that marks each kind of decrypted packet. */
  function Prefix(t: PacketType): (p: seq<byte>)
    ensures 1 <= |p| <= 3
  {
    match t
    case VoltageReading => [0xf5]
    case HistoryCount => [0xe7]
    case StartHistory => [0xff, 0xff, 0xfe]
    case EndHistory => [0xff, 0xfe, 0xfe]
  }

  /**
   * `is_of_type`: the packet's first `len(prefix)` bytes, sliced the Python
   * way, equal the prefix; so a packet shorter than the prefix never matches.
   */
  predicate IsOfType(d: seq<byte>, t: PacketType)
    ensures IsOfType(d, t) <==> Prefix(t) <= d
  {
    Slice(d, 0, |Prefix(t)|) == Prefix(t)
  }

  /** No packet is of two kinds: the four prefixes exclude one another. */
  lemma PrefixesExclusive(d: seq<byte>, s: PacketType, t: PacketType)
    requires IsOfType(d, s) && IsOfType(d, t)
    ensures s == t
  {
    assert Prefix(s)[0] == d[0] == Prefix(t)[0];
    if |Prefix(s)| == 3 && |Prefix(t)| == 3 {
      assert Prefix(s)[1] == d[1] == Prefix(t)[1];
    }
  }

  /** The branch of the handler's if/elif chain that a packet takes. */
  datatype Action = FulfilVoltage | ProcessCount | BeginHistory | FinishHistory | Accumulate | Ignore

  /**
   * The handler's dispatch: voltage, then count, then start, then (only while
   * receiving) end or append, else the packet is logged and dropped. Because
   * the prefixes exclude one another the outcome depends on the first bytes
   * alone, except that end and append need the receiving flag; in particular
   * a voltage packet that arrives during a transfer is not accumulated.
   */
  function Classify(receiving: bool, d: seq<byte>): (a: Action)
    ensures a == FulfilVoltage <==> |d| >= 1 && d[0] == 0xf5
    ensures a == ProcessCount <==> |d| >= 1 && d[0] == 0xe7
    ensures a == BeginHistory <==> |d| >= 3 && d[..3] == [0xff, 0xff, 0xfe]
    ensures a == FinishHistory <==> receiving && |d| >= 3 && d[..3] == [0xff, 0xfe, 0xfe]
    ensures a == Accumulate <==> receiving && forall t :: !IsOfType(d, t)
    ensures a == Ignore <==> !receiving && forall t :: t != EndHistory ==> !IsOfType(d, t)
  {
    assert forall t :: IsOfType(d, t) ==> |d| >= 1 && d[0] == Prefix(t)[0];
    assert forall t :: IsOfType(d, t) && |Prefix(t)| == 3 ==> d[..3] == Prefix(t);
    if IsOfType(d, VoltageReading) then FulfilVoltage
    else if IsOfType(d, HistoryCount) then ProcessCount
    else if IsOfType(d, StartHistory) then BeginHistory
    else if receiving then
      if IsOfType(d, EndHistory) then FinishHistory else Accumulate
    else Ignore
  }

  // ---------------------------------------------------------------------------
  // Fields the handler reads
  // ---------------------------------------------------------------------------

  /**
   * The voltage of a voltage packet in centivolts: the big-endian 16-bit
   * field `d[1:3]` shifted right by four. `struct.unpack(">H", …)` fails when
   * the slice is not two bytes long, that is when the packet is shorter than 3.
   */
  function VoltageCentivolts(d: seq<byte>): (r: Result<nat, Fault>)
    ensures r.Success? <==> |d| >= 3
    ensures r.Failure? ==> r.error == StructUnpackFailed
    ensures r.Success? ==> r.value == ((d[1] as int) * 256 + d[2]) / 16 && r.value < 4096
  {
    var field := Slice(d, 1, 3);
    if |field| != 2 then Failure(StructUnpackFailed)
    else
      assert field[..1][..0] == [];
      assert FromBigEndian(field) == (d[1] as int) * 256 + d[2];
      Success(FromBigEndian(field) / 16)
  }

  /**
   * The record count of a count packet, `decode_3bytes(d[1:4])`; a packet
   * shorter than 4 bytes gives a slice too short for its assertion.
   */
  function HistoryCountField(d: seq<byte>): (r: Result<nat, Fault>)
    ensures r.Success? <==> |d| >= 4
    ensures r.Failure? ==> r.error == AssertionFailed
    ensures r.Success? ==> r.value == FromBigEndian(d[1..4]) && r.value < 0x100_0000
  {
    Decode3Bytes(Slice(d, 1, 4))
  }

  /**
   * The payload size an end packet announces: `decode_3bytes(d[3:6]) - 9`.
   * Nothing keeps it from being negative.
   */
  function EndHistorySize(d: seq<byte>): (r: Result<int, Fault>)
    ensures r.Success? <==> |d| >= 6
    ensures r.Failure? ==> r.error == AssertionFailed
    ensures r.Success? ==> r.value == FromBigEndian(d[3..6]) - 9 && -9 <= r.value < 0x100_0000 - 9
  {
    match Decode3Bytes(Slice(d, 3, 6))
    case Failure(f) => Failure(f)
    case Success(n) => Success(n - 9)
  }

  // ---------------------------------------------------------------------------
  // Commands sent to the device
  // ---------------------------------------------------------------------------

  /** The command `get_history` sends: ask for the number of stored records. */
  const HistoryCountRequest: seq<byte> := [0xe7, 1]

  /** The command sent after a nonzero count: `[0xe3, 0, 0, *struct.pack(">L", count)]`. */
  function TransferRequest(count: nat): (cmd: seq<byte>)
    requires count < 0x1_0000_0000
    ensures |cmd| == 7 && cmd[..3] == [0xe3, 0, 0]
    ensures FromBigEndian(cmd[3..]) == count
  {
    assert Pow256(4) == 0x1_0000_0000;
    FromToBigEndian(count, 4);
    var cmd := [0xe3, 0, 0] + ToBigEndian(count, 4);
    assert cmd[3..] == ToBigEndian(count, 4);
    cmd
  }

  // ---------------------------------------------------------------------------
  // History records
  // ---------------------------------------------------------------------------

  /** `[s[i:i + 4] for i in range(0, len(s), 4)]`: every chunk is 4 bytes but a shorter last one. */
  function Chunks(s: seq<byte>): (chunks: seq<seq<byte>>)
    ensures |chunks| == (|s| + 3) / 4
    ensures forall k :: 0 <= k < |chunks| ==>
      0 < |chunks[k]| <= 4 && 4 * k + |chunks[k]| <= |s| && chunks[k] == s[4 * k..4 * k + |chunks[k]|]
    ensures forall k :: 0 <= k < |chunks| ==> (|chunks[k]| == 4 <==> 4 * k + 4 <= |s|)
  {
    seq((|s| + 3) / 4, k requires 0 <= k < (|s| + 3) / 4 => Slice(s, 4 * k, 4 * k + 4))
  }

  function Flatten(chunks: seq<seq<byte>>): seq<byte> {
    if chunks == [] then [] else chunks[0] + Flatten(chunks[1..])
  }

  lemma {:induction false} FlattenAppend(chunks: seq<seq<byte>>, last: seq<byte>)
    ensures Flatten(chunks + [last]) == Flatten(chunks) + last
  {
    if chunks != [] {
      assert (chunks + [last])[1..] == chunks[1..] + [last];
      FlattenAppend(chunks[1..], last);
    }
  }

  /** The chunks, put back together, are the payload: nothing is lost, reordered or repeated. */
  lemma ChunksCover(s: seq<byte>)
    ensures Flatten(Chunks(s)) == s
  {
    var chunks := Chunks(s);
    var k := 0;
    while k < |chunks|
      invariant 0 <= k <= |chunks|
      invariant Flatten(chunks[..k]) == s[..Min(4 * k, |s|)]
    {
      assert chunks[..k + 1] == chunks[..k] + [chunks[k]];
      FlattenAppend(chunks[..k], chunks[k]);
      k := k + 1;
    }
    assert chunks[..k] == chunks;
  }

  /**
   * One history record. The source stamps each record with a wall-clock
   * time; the model keeps how many minutes before the end packet that time
   * is, and keeps the voltages in centivolts instead of volts.
   */
  datatype HistoryReading = HistoryReading(
    minutesAgo: int,
    centivolts: nat,
    unused: nat,
    minCrankCentivolts: nat,
    recordType: nat)

  /** The fields a whole record packs into its four bytes: 12, 4, 12 and 4 bits. */
  predicate HoldsFields(r: HistoryReading, b: seq<byte>)
    requires |b| == 4
  {
    && r.centivolts == (b[0] as int) * 16 + b[1] / 16
    && r.unused == b[1] % 16
    && r.minCrankCentivolts == (b[2] as int) * 16 + b[3] / 16
    && r.recordType == b[3] % 16
  }

  /**
   * `process_history_item(i, x)`: record `i` of `itemsCount` whole records is
   * `(itemsCount - 1 - i) * 2` minutes old; its fields are the nibble groups
   * of the chunk under "xxxkyyyp", each within the digits its letters name.
   */
  function DecodeRecord(i: nat, itemsCount: nat, chunk: seq<byte>): (r: HistoryReading)
    ensures r.centivolts < 4096 && r.unused < 16 && r.minCrankCentivolts < 4096 && r.recordType < 16
    ensures |chunk| == 4 ==> HoldsFields(r, chunk)
  {
    RecordFormatValues(chunk);
    var values := NibbleGroups(chunk, RecordFormat);
    HistoryReading((itemsCount - 1 - i) * 2, values[0], values[1], values[2], values[3])
  }

  /** A record's four fields, in order, are the nibble groups of its chunk. */
  lemma RecordGroups(i: nat, itemsCount: nat, chunk: seq<byte>)
    ensures var r := DecodeRecord(i, itemsCount, chunk);
      [r.centivolts, r.unused, r.minCrankCentivolts, r.recordType] == NibbleGroups(chunk, RecordFormat)
  {
    RecordFormatValues(chunk);
  }

  /**
   * The records an end packet yields from the (truncated) accumulator: one
   * per chunk, stamped against `len // 4`, the count of whole chunks.
   */
  function HistoryRecords(data: seq<byte>): (records: seq<HistoryReading>)
    ensures |records| == (|data| + 3) / 4
    ensures forall i :: 0 <= i < |records| ==> records[i].minutesAgo == (|data| / 4 - 1 - i) * 2
  {
    var itemsCount := |data| / 4;
    var chunks := Chunks(data);
    seq(|chunks|, i requires 0 <= i < |chunks| => DecodeRecord(i, itemsCount, chunks[i]))
  }

  /** In a payload of any length, each whole record `i` is decoded from bytes `4i` to `4i + 4`. */
  lemma RecordAt(data: seq<byte>, i: nat)
    requires i < |data| / 4
    ensures 4 * i + 4 <= |data| && i < |HistoryRecords(data)|
    ensures HoldsFields(HistoryRecords(data)[i], data[4 * i..4 * i + 4])
  {
    var chunks := Chunks(data);
    assert |chunks[i]| == 4;
    assert HistoryRecords(data)[i] == DecodeRecord(i, |data| / 4, chunks[i]);
  }

  /**
   * For a payload of whole records: one record per 4 bytes, in order, each
   * two minutes older than the next, the last one current, and each decoded
   * from its own 4 bytes.
   */
  lemma AlignedHistoryRecords(data: seq<byte>)
    requires |data| % 4 == 0
    ensures var records := HistoryRecords(data);
      && |records| == |data| / 4
      && (records != [] ==> records[|records| - 1].minutesAgo == 0)
      && (forall i :: 0 <= i < |records| - 1 ==> records[i].minutesAgo == records[i + 1].minutesAgo + 2)
      && (forall i :: 0 <= i < |data| / 4 ==> i < |records| && HoldsFields(records[i], data[4 * i..4 * i + 4]))
  {
    forall i | 0 <= i < |data| / 4
      ensures i < |HistoryRecords(data)| && HoldsFields(HistoryRecords(data)[i], data[4 * i..4 * i + 4])
    {
      RecordAt(data, i);
    }
  }

  /** A trailing partial chunk still yields a record, stamped two minutes in the future, read from that short chunk. */
  lemma PartialLastRecord(data: seq<byte>)
    requires |data| % 4 != 0
    ensures var records := HistoryRecords(data);
      && |records| == |data| / 4 + 1
      && var r := records[|records| - 1];
      && r.minutesAgo == -2
      && [r.centivolts, r.unused, r.minCrankCentivolts, r.recordType] == NibbleGroups(data[4 * (|data| / 4)..], RecordFormat)
  {
    var n := |data| / 4;
    var chunks := Chunks(data);
    assert chunks[n] == data[4 * n..];
    assert HistoryRecords(data)[n] == DecodeRecord(n, n, chunks[n]);
    RecordGroups(n, n, chunks[n]);
  }

  // ---------------------------------------------------------------------------
  // End of a transfer
  // ---------------------------------------------------------------------------

  /**
   * What an end packet turns the accumulator into: `history_data[0:size]` cut
   * into records. A size past the end keeps everything; a negative size, as
   * Python slicing has it, drops that many bytes from the end.
   */
  function EndHistoryRecords(acc: seq<byte>, d: seq<byte>): (r: Result<seq<HistoryReading>, Fault>)
    ensures r.Success? <==> |d| >= 6
    ensures r.Failure? ==> r.error == AssertionFailed
    ensures r.Success? ==> var size := EndHistorySize(d).value;
      && (0 <= size ==> r.value == HistoryRecords(acc[..Min(size, |acc|)]))
      && (size < 0 ==> r.value == HistoryRecords(acc[..Max(|acc| + size, 0)]))
  {
    match EndHistorySize(d)
    case Failure(f) => Failure(f)
    case Success(size) => Success(HistoryRecords(SliceTo(acc, size)))
  }

  // ---------------------------------------------------------------------------
  // The handler as a transition
  // ---------------------------------------------------------------------------

  /** The handler's own state: `_is_receiving_history` and `_history_data`. */
  datatype Reassembly = Reassembly(receiving: bool, data: seq<byte>)

  /**
   * What one packet does: the new reassembly state, a command the client
   * sends in answer, a value for the pending voltage cell, a list for the
   * pending history cell, and the exception that escapes the handler.
   */
  datatype Reaction = Reaction(
    next: Reassembly,
    command: Option<seq<byte>>,
    voltage: Option<nat>,
    history: Option<seq<HistoryReading>>,
    fault: Option<Fault>)

  /** At most one of the command, the two cell values and the fault. */
  predicate SingleOutput(e: Reaction) {
    && (e.command.Some? ==> e.voltage.None? && e.history.None? && e.fault.None?)
    && (e.voltage.Some? ==> e.history.None? && e.fault.None?)
    && (e.history.Some? ==> e.fault.None?)
  }

  function Quiet(s: Reassembly): Reaction {
    Reaction(s, None, None, None, None)
  }

  /**
   * `_notification_handler` on one decrypted packet. At most one of the
   * command, the two cell values and the fault is produced; the reassembly
   * state changes only by a start, an end or an append.
   */
  function Handle(s: Reassembly, d: seq<byte>): (e: Reaction)
    ensures SingleOutput(e)
    ensures e.next == s || e.next == Reassembly(true, []) || e.next == Reassembly(true, s.data + d) || e.next == Reassembly(false, s.data)
  {
    match Classify(s.receiving, d)
    case FulfilVoltage =>
      (match VoltageCentivolts(d)
       case Failure(f) => Quiet(s).(fault := Some(f))
       case Success(v) => Quiet(s).(voltage := Some(v)))
    case ProcessCount =>
      (match HistoryCountField(d)
       case Failure(f) => Quiet(s).(fault := Some(f))
       case Success(n) =>
         if n == 0 then Quiet(s).(history := Some([]))
         else Quiet(s).(command := Some(TransferRequest(n))))
    case BeginHistory => Quiet(Reassembly(true, []))
    case FinishHistory =>
      var next := Reassembly(false, s.data);
      (match EndHistoryRecords(s.data, d)
       case Failure(f) => Quiet(next).(fault := Some(f))
       case Success(records) => Quiet(next).(history := Some(records)))
    case Accumulate => Quiet(Reassembly(true, s.data + d))
    case Ignore => Quiet(s)
  }

  /**
   * A voltage packet is read as one whatever the receiving flag: it fills
   * the voltage cell with a value below 4096 and leaves the reassembly state
   * alone; too short, it raises instead.
   */
  lemma HandleVoltage(s: Reassembly, d: seq<byte>)
    requires |d| >= 1 && d[0] == 0xf5
    ensures var e := Handle(s, d);
      && e.next == s && e.command.None? && e.history.None?
      && (|d| >= 3 ==> e.voltage == Some(((d[1] as int) * 256 + d[2]) / 16) && e.voltage.value < 4096)
      && (|d| < 3 ==> e.voltage.None? && e.fault == Some(StructUnpackFailed))
  {
  }

  /**
   * A count packet: a count of 0 settles the history cell with no records
   * and sends nothing; any other count sends the transfer request for it and
   * leaves the cell open. The reassembly state is left alone.
   */
  lemma HandleCount(s: Reassembly, d: seq<byte>)
    requires |d| >= 1 && d[0] == 0xe7
    ensures var e := Handle(s, d);
      && e.next == s && e.voltage.None?
      && (|d| < 4 ==> e.fault == Some(AssertionFailed) && e.command.None? && e.history.None?)
      && (|d| >= 4 ==> var n := FromBigEndian(d[1..4]);
            && e.fault.None?
            && (n == 0 ==> e.history == Some([]) && e.command.None?)
            && (n != 0 ==> e.command == Some(TransferRequest(n)) && e.history.None?))
  {
  }

  /** A start packet begins a transfer afresh, whatever came before. */
  lemma HandleStart(s: Reassembly, d: seq<byte>)
    requires |d| >= 3 && d[..3] == [0xff, 0xff, 0xfe]
    ensures Handle(s, d) == Quiet(Reassembly(true, []))
  {
  }

  /** During a transfer, a packet of no known kind is appended whole to the accumulator. */
  lemma HandleAppend(s: Reassembly, d: seq<byte>)
    requires s.receiving && forall t :: !IsOfType(d, t)
    ensures Handle(s, d) == Quiet(Reassembly(true, s.data + d))
  {
  }

  /** Outside a transfer, an end packet or a packet of no known kind changes nothing. */
  lemma HandleIgnored(s: Reassembly, d: seq<byte>)
    requires !s.receiving
    requires !IsOfType(d, VoltageReading) && !IsOfType(d, HistoryCount) && !IsOfType(d, StartHistory)
    ensures Handle(s, d) == Quiet(s)
  {
  }

  /**
   * An end packet during a transfer ends it, keeping the accumulator, and
   * settles the history cell with the records of the first `size` bytes;
   * the flag is cleared even when reading the size raises.
   */
  lemma HandleEnd(s: Reassembly, d: seq<byte>)
    requires s.receiving && |d| >= 3 && d[..3] == [0xff, 0xfe, 0xfe]
    ensures var e := Handle(s, d);
      && e.next == Reassembly(false, s.data) && e.command.None? && e.voltage.None?
      && (|d| < 6 ==> e.fault == Some(AssertionFailed) && e.history.None?)
      && (|d| >= 6 ==> var size := FromBigEndian(d[3..6]) - 9;
            && e.fault.None?
            && (0 <= size ==> e.history == Some(HistoryRecords(s.data[..Min(size, |s.data|)]))))
  {
  }

  /**
   * Every packet `decrypt` can produce is a whole number of 16-byte blocks,
   * long enough for every field the handler reads: such a packet never makes
   * the handler raise.
   */
  lemma HandleBlockPacket(s: Reassembly, d: seq<byte>)
    requires |d| % 16 == 0
    ensures Handle(s, d).fault.None?
  {
    if d != [] {
      assert |d| >= 16;
    }
  }

  /**
   * A whole transfer: a start packet, one payload packet of whole records,
   * and an end packet announcing that payload's size (plus the 9 the device
   * counts on top) settle the history cell with one record per 4 bytes.
   */
  lemma HistoryTransfer(s: Reassembly, start: seq<byte>, payload: seq<byte>, end: seq<byte>)
    requires |start| >= 3 && start[..3] == [0xff, 0xff, 0xfe]
    requires forall t :: !IsOfType(payload, t)
    requires |end| >= 6 && end[..3] == [0xff, 0xfe, 0xfe] && FromBigEndian(end[3..6]) == |payload| + 9
    requires |payload| % 4 == 0
    ensures var s1 := Handle(s, start).next;
            var s2 := Handle(s1, payload).next;
            var e := Handle(s2, end);
      && e.next == Reassembly(false, payload)
      && e.history == Some(HistoryRecords(payload))
      && |e.history.value| == |payload| / 4
      && forall i :: 0 <= i < |payload| / 4 ==> HoldsFields(e.history.value[i], payload[4 * i..4 * i + 4])
  {
    HandleStart(s, start);
    var s1 := Reassembly(true, []);
    HandleAppend(s1, payload);
    assert [] + payload == payload;
    var s2 := Reassembly(true, payload);
    HandleEnd(s2, end);
    assert payload[..Min(|payload|, |payload|)] == payload;
    AlignedHistoryRecords(payload);
  }
}

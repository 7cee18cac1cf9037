# BM2 battery monitor: protocol engine

This project is a Dafny model of the protocol engine of the BM2 Bluetooth
battery-monitor client (`bm2_python`). It covers four things:

- **Inbound notifications.** Every notification the device sends is decrypted
  with AES-128-CBC, under a fixed key and an all-zero IV.
- **Dispatch.** The packet is classified by its leading bytes: a voltage
  reading (`f5`), a history count (`e7`), the start of a history transfer
  (`ff ff fe`) or its end (`ff fe fe`).
- **History reassembly.** During a transfer, packets of no known kind are
  appended to an accumulator. The end packet announces a size; the first
  `size - 9` accumulated bytes are cut into 4-byte records. Each record is read
  as four nibble groups with the format `"xxxkyyyp"`.
- **Request cells.** A voltage value or a record list is handed to the pending
  request through a one-shot cell (an asyncio future). The count request and
  the transfer request are the commands the client sends back.

The model has six modules, one per file:

- `wrappers.dfy` (`Wrappers`): `Option` and `Result`. An exception the model
  keeps becomes a failure value: a `Result` failure from a decoder, `decrypt`
  or a request method, or the fault that a handler call returns.
- `bytes.dfy` (`Bytes`): the `byte` type, Python slicing (`Slice`, `SliceTo`)
  and the big-endian integer codec behind `struct.pack` and `struct.unpack`.
- `bit_utils.dfy` (`BitUtils`): `decode_3bytes` and `decode_nibbles`.
  - `decode_nibbles` is a method whose loop is proved against the
    specification function `NibbleGroups`.
  - `itertools.groupby` becomes `Runs`, and `binascii.hexlify` becomes `Hexlify`.
- `encryption.dfy` (`Encryption`): `pad_to_block`, and `encrypt`/`decrypt`.
  - `encrypt`/`decrypt` run CBC chaining (NIST SP 800-38A, section 6.2) over a
    block cipher that is a parameter (AES, FIPS 197).
- `packets.dfy` (`Packets`): the pure half of the handler.
  - Packet kinds and prefixes, the if/elif dispatch (`Classify`), the fields it
    reads, the commands it builds and the record decoding.
  - `Handle`: the handler's whole decision on one decrypted packet, as a
    transition on the reassembly state (receiving flag, accumulator).
- `client.dfy` (`Client`): the stateful half.
  - `Future` is the one-shot cell.
  - `Bm2Client` is a class whose methods update its fields in place:
    `start`, `stop`, the connection loop's connect and `finally` effects,
    `get_voltage`/`get_history` up to their wait, the two `_fulfill_*`
    helpers, and the notification handler. The handler applies `Handle`'s
    decision to the fields and cells.

Voltages are kept in integer centivolts: `u16BE(d[1:3]) >> 4`, not the
source's float `/ 100`. Record timestamps are kept as "minutes before the end
packet", not wall-clock times.

Three behaviours of the code that a reader might not expect, all kept by the model:

- The end packet does not clear the accumulator.
- Losing the connection clears neither the accumulator nor the receiving flag.
- The receiving flag is cleared before the announced size is read, so it is
  cleared even when reading the size raises.

## Model

| member | source | states |
|---|---|---|
| Bytes.Slice | bm2_python/src/bm2/client.py:143 | Python slice `s[i:j]`: its length is `max(0, min(j,len) - min(i,len))`, so short input gives a short slice and never fails |
| Bytes.SliceTo | bm2_python/src/bm2/client.py:170 | `s[0:stop]` is a prefix of `s`: `min(stop, len)` long for `stop >= 0`, and `len + stop` bytes (at least 0) for a negative stop |
| Bytes.FromToBigEndian | bm2_python/src/bm2/client.py:157 | `struct.pack` into `width` big-endian bytes, read back, gives the number |
| Bytes.ToFromBigEndian | bm2_python/src/bm2/bit_utils.py:10 | reading bytes as a big-endian number and writing it back at the same width gives the bytes |
| BitUtils.Decode3Bytes | bm2_python/src/bm2/bit_utils.py:7-10 | succeeds exactly on 3 bytes, giving `b1*65536 + b2*256 + b3 < 2^24`. Fewer than 3 fails the assertion; more than 3 fails the 4-byte unpack |
| BitUtils.Decode3BytesRoundTrip | bm2_python/src/bm2/bit_utils.py:7-10 | every number below 2^24, written as 3 big-endian bytes, decodes back to itself |
| BitUtils.Decode3BytesInverse | bm2_python/src/bm2/bit_utils.py:7-10 | any 3 bytes decode, and re-encoding the value gives the bytes back |
| BitUtils.Hexlify | bm2_python/src/bm2/bit_utils.py:22 | `hexlify` output is twice as long as the input; digit `2k` is the high nibble of byte `k` and digit `2k+1` its low nibble |
| BitUtils.RunsMaximal | bm2_python/src/bm2/bit_utils.py:23 | `groupby` cuts the format into maximal runs: together they spell the format, no run is empty, and neighbours differ in letter |
| BitUtils.RunsUnique | bm2_python/src/bm2/bit_utils.py:23 | any cutting of a format into maximal runs is the one `groupby` gives |
| BitUtils.HexValueIsBigEndian | bm2_python/src/bm2/bit_utils.py:30 | the reversed-digit sum `sum(d << 4i)` equals reading the digits big-endian, and is below `16^len` |
| BitUtils.NibbleGroups | bm2_python/src/bm2/bit_utils.py:23-31 | there is one value per run of equal letters in the format |
| BitUtils.DecodeNibbles | bm2_python/src/bm2/bit_utils.py:13-31 | the loop that advances `idx` and appends each group's value returns exactly `NibbleGroups(x, fmt)` |
| BitUtils.NibbleGroupBound | bm2_python/src/bm2/bit_utils.py:30 | group `k` is below `16^(length of run k)` |
| BitUtils.NibbleGroupPastEnd | bm2_python/src/bm2/bit_utils.py:27-30 | a group that starts past the end of the hex string slices nothing and decodes to 0 |
| BitUtils.NibbleGroupDigits | bm2_python/src/bm2/bit_utils.py:24-30 | a group that fits in the hex string is its run's own consecutive digits, starting at the sum of the earlier run lengths, read big-endian |
| BitUtils.RecordFormatRuns | bm2_python/src/bm2/client.py:176 | `"xxxkyyyp"` groups into runs of 3, 1, 3 and 1 letters |
| BitUtils.RecordFields | bm2_python/src/bm2/client.py:176 | under such a format a 4-byte chunk yields `[b0*16 + b1>>4, b1&15, b2*16 + b3>>4, b3&15]` |
| BitUtils.RecordBounds | bm2_python/src/bm2/client.py:176 | under such a format any chunk yields four values below 4096, 16, 4096 and 16 |
| BitUtils.RecordFormatValues | bm2_python/src/bm2/client.py:176 | `decode_nibbles(x, "xxxkyyyp")` gives four values below 4096, 16, 4096 and 16 for any chunk, and exactly `[b0*16 + b1>>4, b1&15, b2*16 + b3>>4, b3&15]` for a 4-byte chunk |
| BitUtils.DecodeNibblesExample | bm2_python/src/bm2/bit_utils.py:14-21 | `decode_nibbles(4d411111, "xxxkyyyp") == [1236, 1, 273, 1]`, the docstring's example |
| Encryption.PadToBlock | bm2_python/src/bm2/encryption.py:14-16 | output is block-aligned, less than one block longer than the input, starts with the input, and is zero after it |
| Encryption.PadAlignedUnchanged | bm2_python/src/bm2/encryption.py:14-16 | aligned input (the empty one included) comes back unchanged |
| Encryption.PadIdempotent | bm2_python/src/bm2/encryption.py:14-16 | padding twice is padding once |
| Encryption.PadIsLeastBlockMultiple | bm2_python/src/bm2/encryption.py:15 | the padded length is at most any block multiple that is at least the input length |
| Encryption.XorBlocksCancel | bm2_python/src/bm2/encryption.py:10-11 | xoring a block with the same chaining block twice gives it back |
| Encryption.CbcRoundTrip | bm2_python/src/bm2/encryption.py:10-11 | when the block decipher inverts the encipher, CBC decryption undoes CBC encryption under the same IV |
| Encryption.AesUnderKey | bm2_python/src/bm2/encryption.py:10-11 | AES under the fixed key maps blocks to blocks, and its decryption inverts its encryption |
| Encryption.Encrypt | bm2_python/src/bm2/encryption.py:19-20 | the ciphertext is as long as the padded data, a whole number of blocks |
| Encryption.Decrypt | bm2_python/src/bm2/encryption.py:23-24 | fails exactly when the input is not block-aligned (pycryptodome's `ValueError`); otherwise the output is as long as the input |
| Encryption.DecryptEncrypt | bm2_python/src/bm2/encryption.py:10-24 | `decrypt(encrypt(p)) == pad_to_block(p)`: the round trip keeps the zero padding |
| Packets.Prefix | bm2_python/src/bm2/client.py:33-37 | each packet kind has a prefix of 1 to 3 bytes |
| Packets.IsOfType | bm2_python/src/bm2/client.py:142-143 | `d[0:len(prefix)] == prefix` holds exactly when the prefix is a prefix of the packet, so a shorter packet never matches |
| Packets.PrefixesExclusive | bm2_python/src/bm2/client.py:33-37 | no packet matches two kinds |
| Packets.Classify | bm2_python/src/bm2/client.py:145-190 | first match in the if/elif order, each branch taken iff the packet's bytes and the flag say so. End and append are taken only while receiving; a voltage packet is never accumulated |
| Packets.VoltageCentivolts | bm2_python/src/bm2/client.py:146 | succeeds iff the packet has 3 bytes, giving `(d1*256 + d2) >> 4 < 4096`; otherwise fails the 2-byte unpack |
| Packets.HistoryCountField | bm2_python/src/bm2/client.py:150 | `decode_3bytes(d[1:4])` succeeds iff the packet has 4 bytes, giving its bytes 1-3 big-endian |
| Packets.EndHistorySize | bm2_python/src/bm2/client.py:168 | `decode_3bytes(d[3:6]) - 9` succeeds iff the packet has 6 bytes, and may be negative |
| Packets.TransferRequest | bm2_python/src/bm2/client.py:157 | the request is 7 bytes, `e3 00 00` followed by the count as a big-endian u32 |
| Packets.Chunks | bm2_python/src/bm2/client.py:172 | `ceil(len/4)` chunks; chunk `k` is bytes `4k..` of the payload, 4 long unless it is a short last one |
| Packets.ChunksCover | bm2_python/src/bm2/client.py:172 | the chunks concatenated are the payload |
| Packets.DecodeRecord | bm2_python/src/bm2/client.py:174-181 | fields within 12, 4, 12 and 4 bits; a 4-byte chunk's fields are its nibble groups under `"xxxkyyyp"` |
| Packets.HistoryRecords | bm2_python/src/bm2/client.py:171-183 | one record per chunk; record `i` is `(len//4 - 1 - i) * 2` minutes old |
| Packets.RecordAt | bm2_python/src/bm2/client.py:172-183 | in a payload of any length, each whole record `i < len // 4` holds the fields of bytes `4i..4i+4` |
| Packets.AlignedHistoryRecords | bm2_python/src/bm2/client.py:171-183 | a whole-record payload gives `len/4` records, the last 0 minutes old, each 2 minutes older than the next, each decoded from its own 4 bytes |
| Packets.PartialLastRecord | bm2_python/src/bm2/client.py:171-183 | a trailing partial chunk still yields a record, stamped 2 minutes in the future, whose fields are the nibble groups of that short chunk under `"xxxkyyyp"` |
| Packets.EndHistoryRecords | bm2_python/src/bm2/client.py:168-183 | fails iff the end packet is shorter than 6. Otherwise the records are those of the first `min(size, len)` accumulated bytes, or of all but the last `-size` for a negative size |
| Packets.Handle | bm2_python/src/bm2/client.py:139-190 | at most one of command, voltage, record list and fault. The state changes only to the old one, a fresh transfer, the accumulator plus the packet, or a closed transfer keeping the accumulator |
| Packets.HandleVoltage | bm2_python/src/bm2/client.py:145-147 | a voltage packet yields `(d1*256+d2)>>4 < 4096` for the voltage cell (a struct error when too short) and leaves flag and accumulator alone, even during a transfer |
| Packets.HandleCount | bm2_python/src/bm2/client.py:149-159 | count 0 gives the empty record list and no command; a nonzero count gives exactly the transfer request and leaves the cell open; a short packet fails the assertion |
| Packets.HandleStart | bm2_python/src/bm2/client.py:161-163 | a start packet sets the flag and empties the accumulator, whatever the prior state |
| Packets.HandleAppend | bm2_python/src/bm2/client.py:186-187 | while receiving, an unknown packet is appended whole: the new accumulator is `old ++ packet` |
| Packets.HandleIgnored | bm2_python/src/bm2/client.py:165-190 | outside a transfer, an end or unknown packet changes nothing |
| Packets.HandleEnd | bm2_python/src/bm2/client.py:165-185 | an end packet during a transfer clears the flag and keeps the accumulator. The record list is from the first `min(size, len)` bytes; a short packet raises after the flag is cleared |
| Packets.HandleBlockPacket | bm2_python/src/bm2/client.py:140-190 | no packet `decrypt` can produce (a whole number of 16-byte blocks) makes the handler raise |
| Packets.HistoryTransfer | bm2_python/src/bm2/client.py:161-187 | start, one whole-record payload, then an end announcing its size plus 9, give the payload's `len/4` records, each holding its own 4 bytes' fields |
| Client.Settle | bm2_python/src/bm2/client.py:196-200 | a done cell keeps its outcome; a pending one takes the result, else the exception, else stays pending |
| Client.SettleOnce | bm2_python/src/bm2/client.py:196 | once a fulfilment settles a cell, no later one changes it: each request is answered at most once |
| Client.Future.SetResult | bm2_python/src/bm2/client.py:198 | a pending cell becomes resolved with the value |
| Client.Future.SetException | bm2_python/src/bm2/client.py:200 | a pending cell becomes rejected with the exception |
| Client.Future.Cancel | bm2_python/src/bm2/client.py:87 | the timeout of `wait_for` cancels a pending cell and leaves a done one alone |
| Client.Bm2Client.constructor | bm2_python/src/bm2/client.py:41-56 | a new client is stopped, unconnected, not receiving, with an empty accumulator and no cells |
| Client.Bm2Client.Start | bm2_python/src/bm2/client.py:58-62 | does nothing while connected; otherwise the client is no longer stopped |
| Client.Bm2Client.Stop | bm2_python/src/bm2/client.py:64-70 | the client is stopped and its connection dropped; reassembly state and cells untouched |
| Client.Bm2Client.MarkConnected | bm2_python/src/bm2/client.py:112 | the client is connected; nothing else changes |
| Client.Bm2Client.FulfilVoltageReading | bm2_python/src/bm2/client.py:192-200 | the voltage slot is always emptied; the cell it held is settled as `Settle` says; the history cell is untouched |
| Client.Bm2Client.FulfilHistoryReadings | bm2_python/src/bm2/client.py:202-210 | the history slot is always emptied; the cell it held is settled as `Settle` says; the voltage cell is untouched |
| Client.Bm2Client.ConnectionLost | bm2_python/src/bm2/client.py:133-135 | disconnected; a pending history cell fails with `NotConnected`; voltage cell, flag and accumulator untouched |
| Client.Bm2Client.GetVoltage | bm2_python/src/bm2/client.py:89-96 | stopped: fails with `NotConnected` before any cell exists; otherwise a fresh pending cell replaces the voltage slot |
| Client.Bm2Client.GetHistory | bm2_python/src/bm2/client.py:79-87 | stopped: fails with `NotConnected` and sends nothing; otherwise a fresh pending cell replaces the history slot and the encrypted `e7 01` is sent |
| Client.Bm2Client.Dispatch | bm2_python/src/bm2/client.py:142-210 | the client takes on `Handle`'s decision: new flag and accumulator, the value to its cell through the fulfil helper, the other cell untouched, `Handle`'s command and fault |
| Client.Bm2Client.NotificationHandler | bm2_python/src/bm2/client.py:139-190 | an unaligned notification makes `decrypt` raise and changes nothing; any other is decrypted and dispatched and raises nothing |

## Left out

- asyncio machinery is not modelled, because it is concurrency and timing:
  - the request semaphore and the connection condition (`wait_for_connected`);
  - `create_task`, the one-second sleeps, and the 5 s and 60 s timeouts.
  - A timeout's effect on the cell is `Future.Cancel`; waiting itself is not modelled.
- The `_mainloop` reconnect loop is left out because it is BLE and process I/O: `BleakClient`, the matching on bleak error strings, and the `bluetoothctl` call. Only its connect (`MarkConnected`) and `finally` (`ConnectionLost`) effects are kept.
- `_send` and the GATT write are transport I/O. A command appears as a returned value.
  - `get_history`'s count request is returned encrypted.
  - The transfer request from the background task is returned as plaintext by `Handle`.
- AES itself is pycryptodome code. The block cipher is a parameter, assumed to map 16-byte blocks to 16-byte blocks and to be inverted by its decryption. Only the CBC chaining and the padding are written out.
- Wall-clock timestamps (`datetime.now()` truncated to the minute) are not modelled; a record keeps how many minutes before the end packet it was taken.
- Float voltages (`/ 100`) are not modelled; voltages stay in integer centivolts.
- Logging of connection events and unknown packets is left out: it changes no state.
- `BitUtils.DigitValue` maps a character that is not a hex digit to 0, where Python's `int(c, 16)` raises. This never happens here: `hexlify` writes only hex digits.
- `Client.Bm2Client.GetHistory`: a `stop()` between the entry check and `_send` is not modelled; in the source, `wait_for_connected` would then raise `NotConnectedError` inside `_send`. The same holds for the background send of the transfer request.
- The MQTT bridge and the command-line apps are left out: they consume the client and add no protocol logic.

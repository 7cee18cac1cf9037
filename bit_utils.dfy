/**
 * The bit utilities of the BM2 client: the 24-bit big-endian decoder used for
 * the count and size fields, and the nibble decoder that splits a history
 * record into its packed sub-byte fields.
 */
module BitUtils {
  import opened Bytes
  import opened Wrappers

  /** The Python exceptions a decoder raises on an input of the wrong size. */
  datatype Fault = AssertionFailed | StructUnpackFailed

  // ---------------------------------------------------------------------------
  // decode_3bytes
  // ---------------------------------------------------------------------------

  /**
   * B1 B2 B3 read as the integer 0x00B1B2B3. The source asserts at least three
   * bytes and then unpacks `[0] + x` with ">L", which takes exactly four.
   */
  function Decode3Bytes(x: seq<byte>): (r: Result<nat, Fault>)
    ensures r.Success? <==> |x| == 3
    ensures |x| < 3 ==> r == Failure(AssertionFailed)
    ensures |x| > 3 ==> r == Failure(StructUnpackFailed)
    ensures r.Success? ==> r.value == FromBigEndian(x)
    ensures r.Success? ==> r.value == (x[0] as int) * 0x1_0000 + (x[1] as int) * 0x100 + x[2]
    ensures r.Success? ==> r.value < 0x100_0000
  {
    if |x| < 3 then Failure(AssertionFailed)
    else if |[0] + x| != 4 then Failure(StructUnpackFailed)
    else
      FromBigEndianLeadingZero(x);
      assert x[..2][..1] == x[..1] && x[..1][..0] == [];
      assert FromBigEndian(x[..1]) == x[0];
      assert FromBigEndian(x[..2]) == (x[0] as int) * 256 + x[1];
      assert FromBigEndian(x) == FromBigEndian(x[..2]) * 256 + x[2];
      Success(FromBigEndian([0] + x))
  }

  /** A leading zero byte does not change the value (what the `[0, *x]` in decode_3bytes relies on). */
  lemma {:induction false} FromBigEndianLeadingZero(x: seq<byte>)
    ensures FromBigEndian([0] + x) == FromBigEndian(x)
  {
    if x != [] {
      assert ([0] + x)[..|x|] == [0] + x[..|x| - 1];
      FromBigEndianLeadingZero(x[..|x| - 1]);
    }
  }

  /** Every 24-bit count survives a trip through its three-byte encoding. */
  lemma Decode3BytesRoundTrip(n: nat)
    requires n < 0x100_0000
    ensures Decode3Bytes(ToBigEndian(n, 3)) == Success(n)
  {
    FromToBigEndian(n, 3);
  }

  /** A successful decode gives the number whose three-byte encoding is the input. */
  lemma Decode3BytesInverse(x: seq<byte>)
    requires |x| == 3
    ensures Decode3Bytes(x).Success? && ToBigEndian(Decode3Bytes(x).value, 3) == x
  {
    ToFromBigEndian(x);
  }

  // ---------------------------------------------------------------------------
  // Hex digits (binascii.hexlify and int(c, 16))
  // ---------------------------------------------------------------------------

  predicate IsHexDigit(c: char) {
    '0' <= c <= '9' || 'a' <= c <= 'f' || 'A' <= c <= 'F'
  }

  /** The lower-case digit `hexlify` writes for a nibble. */
  function HexDigit(v: nat): (c: char)
    requires v < 16
    ensures IsHexDigit(c)
  {
    if v < 10 then ('0' as int + v) as char else ('a' as int + v - 10) as char
  }

  /**
   * `int(c, 16)` for one digit. Python raises on any other character; the
   * model gives it 0, and only ever applies this to `hexlify` output, which
   * `Hexlify` proves consists of digits.
   */
  function DigitValue(c: char): (v: nat)
    ensures v < 16
  {
    if '0' <= c <= '9' then c as int - '0' as int
    else if 'a' <= c <= 'f' then c as int - 'a' as int + 10
    else if 'A' <= c <= 'F' then c as int - 'A' as int + 10
    else 0
  }

  /** `binascii.hexlify`: two digits per byte, the high nibble first. */
  function Hexlify(x: seq<byte>): (h: string)
    ensures |h| == 2 * |x|
    ensures forall i :: 0 <= i < |h| ==> IsHexDigit(h[i])
    ensures forall k :: 0 <= k < |x| ==> DigitValue(h[2 * k]) == x[k] / 16 && DigitValue(h[2 * k + 1]) == x[k] % 16
  {
    if x == [] then []
    else
      var rest := Hexlify(x[1..]);
      assert forall k :: 1 <= k < |x| ==> x[k] == x[1..][k - 1];
      [HexDigit(x[0] / 16), HexDigit(x[0] % 16)] + rest
  }

  // ---------------------------------------------------------------------------
  // Letter groups of a format (itertools.groupby)
  // ---------------------------------------------------------------------------

  /** A maximal run of one letter in a format string, with its length. */
  datatype Run = Run(letter: char, count: nat)

  /** The string a list of runs spells out. */
  function Expand(runs: seq<Run>): string {
    if runs == [] then [] else seq(runs[0].count, _ => runs[0].letter) + Expand(runs[1..])
  }

  /** `runs` cuts `fmt` into non-empty runs of one letter, no two neighbours sharing a letter. */
  ghost predicate MaximalRuns(runs: seq<Run>, fmt: string) {
    && Expand(runs) == fmt
    && (forall k :: 0 <= k < |runs| ==> runs[k].count >= 1)
    && (forall k :: 0 < k < |runs| ==> runs[k - 1].letter != runs[k].letter)
  }

  /** `[(letter, len(list(group))) for letter, group in itertools.groupby(fmt)]` */
  function Runs(fmt: string): (runs: seq<Run>)
    ensures fmt != [] ==> runs != [] && runs[0].letter == fmt[0]
  {
    if fmt == [] then []
    else
      var rest := Runs(fmt[1..]);
      if rest != [] && rest[0].letter == fmt[0] then [Run(fmt[0], rest[0].count + 1)] + rest[1..]
      else [Run(fmt[0], 1)] + rest
  }

  /** `Runs` cuts the format into maximal runs: it spells the format, no run is empty, neighbours differ. */
  lemma {:induction false} RunsMaximal(fmt: string)
    ensures MaximalRuns(Runs(fmt), fmt)
  {
    if fmt != [] {
      var rest := Runs(fmt[1..]);
      RunsMaximal(fmt[1..]);
      assert fmt == [fmt[0]] + fmt[1..];
      if rest != [] && rest[0].letter == fmt[0] {
        var runs := [Run(fmt[0], rest[0].count + 1)] + rest[1..];
        assert Expand(rest) == seq(rest[0].count, _ => fmt[0]) + Expand(rest[1..]);
        assert seq(rest[0].count + 1, _ => fmt[0]) == [fmt[0]] + seq(rest[0].count, _ => fmt[0]);
        assert Expand(runs) == seq(rest[0].count + 1, _ => fmt[0]) + Expand(rest[1..]);
        assert runs[1..] == rest[1..];
      } else {
        var runs := [Run(fmt[0], 1)] + rest;
        assert runs[1..] == rest;
        assert Expand(runs) == [fmt[0]] + Expand(rest);
      }
    }
  }

  lemma ExpandCons(runs: seq<Run>)
    requires runs != []
    ensures Expand(runs) == seq(runs[0].count, _ => runs[0].letter) + Expand(runs[1..])
  {
  }

  /** Dropping a first run of length one leaves the maximal runs of the rest of the string. */
  lemma MaximalRunsDropFirst(runs: seq<Run>, fmt: string)
    requires MaximalRuns(runs, fmt) && runs != [] && runs[0].count == 1
    ensures fmt != [] && fmt[0] == runs[0].letter && MaximalRuns(runs[1..], fmt[1..])
  {
    ExpandCons(runs);
    assert seq(1, _ => runs[0].letter) == [runs[0].letter];
    forall k | 0 < k < |runs[1..]| ensures runs[1..][k - 1].letter != runs[1..][k].letter {
      assert runs[1..][k - 1] == runs[k] && runs[1..][k] == runs[k + 1];
    }
  }

  /** Shortening a first run of length two or more by one letter gives the maximal runs of the rest. */
  lemma MaximalRunsShortenFirst(runs: seq<Run>, fmt: string)
    requires MaximalRuns(runs, fmt) && runs != [] && runs[0].count > 1
    ensures var shorter := [Run(runs[0].letter, runs[0].count - 1)] + runs[1..];
            fmt != [] && fmt[0] == runs[0].letter && MaximalRuns(shorter, fmt[1..])
  {
    var first := runs[0];
    var shorter := [Run(first.letter, first.count - 1)] + runs[1..];
    ExpandCons(runs);
    ExpandCons(shorter);
    assert shorter[1..] == runs[1..];
    assert seq(first.count, _ => first.letter) == [first.letter] + seq(first.count - 1, _ => first.letter);
    forall k | 0 < k < |shorter| ensures shorter[k - 1].letter != shorter[k].letter {
      assert shorter[k - 1].letter == runs[k - 1].letter && shorter[k] == runs[k];
    }
  }

  /** The maximal runs of a string are unique: `Runs` is the only way to cut it so. */
  lemma {:induction false} RunsUnique(runs: seq<Run>, fmt: string)
    requires MaximalRuns(runs, fmt)
    ensures runs == Runs(fmt)
    decreases |fmt|
  {
    if runs == [] {
      assert fmt == [];
    } else if runs[0].count == 1 {
      MaximalRunsDropFirst(runs, fmt);
      RunsUnique(runs[1..], fmt[1..]);
      assert runs == [Run(fmt[0], 1)] + runs[1..];
    } else {
      var shorter := [Run(runs[0].letter, runs[0].count - 1)] + runs[1..];
      MaximalRunsShortenFirst(runs, fmt);
      RunsUnique(shorter, fmt[1..]);
      assert runs == [Run(fmt[0], shorter[0].count + 1)] + shorter[1..];
    }
  }

  // ---------------------------------------------------------------------------
  // Reading a group of hex digits
  // ---------------------------------------------------------------------------

  function Pow16(k: nat): (p: nat)
    ensures p >= 1
  {
    if k == 0 then 1 else 16 * Pow16(k - 1)
  }

  /**
   * The digits of a group read the source's way,
   * `sum(int(chr(c), 16) << (4 * i) for i, c in enumerate(reversed(part)))`:
   * `ReversedSum(part, i)` adds the terms from position `i` of the reversed
   * group onwards.
   */
  function ReversedSum(part: string, i: nat): nat
    requires i <= |part|
    decreases |part| - i
  {
    if i == |part| then 0 else DigitValue(part[|part| - 1 - i]) * Pow16(i) + ReversedSum(part, i + 1)
  }

  /** The value the source gives a group of hex digits. */
  function HexValue(part: string): nat
  {
    ReversedSum(part, 0)
  }

  /** The textbook reading of a hex numeral, most significant digit first. */
  function BigEndianHex(part: string): (v: nat)
    ensures v < Pow16(|part|)
  {
    if part == [] then 0
    else
      var init := BigEndianHex(part[..|part| - 1]);
      assert init * 16 <= (Pow16(|part| - 1) - 1) * 16;
      init * 16 + DigitValue(part[|part| - 1])
  }

  /** Dropping the last digit shifts every later term down by one position, a factor of 16. */
  lemma {:induction false} ReversedSumDropLast(part: string, i: nat)
    requires i < |part|
    ensures ReversedSum(part, i + 1) == 16 * ReversedSum(part[..|part| - 1], i)
    decreases |part| - i
  {
    var init := part[..|part| - 1];
    if i + 1 < |part| {
      ReversedSumDropLast(part, i + 1);
      var d := DigitValue(part[|part| - 1 - (i + 1)]);
      assert part[|part| - 1 - (i + 1)] == init[|init| - 1 - i];
      assert d * Pow16(i + 1) == 16 * (d * Pow16(i));
    }
  }

  /** The source's weighted sum reads the digits with the rightmost one least significant. */
  lemma {:induction false} HexValueIsBigEndian(part: string)
    ensures HexValue(part) == BigEndianHex(part)
    ensures HexValue(part) < Pow16(|part|)
  {
    if part != [] {
      var init := part[..|part| - 1];
      HexValueIsBigEndian(init);
      ReversedSumDropLast(part, 0);
    }
  }

  // ---------------------------------------------------------------------------
  // decode_nibbles
  // ---------------------------------------------------------------------------

  /** The number of hex digits the groups before group `k` consume. */
  function Offset(runs: seq<Run>, k: nat): nat
    requires k <= |runs|
  {
    if k == 0 then 0 else Offset(runs, k - 1) + runs[k - 1].count
  }

  /** The hex digits that group `k` reads: `hex_str[idx:idx + letters_count]`. */
  function GroupDigits(hex: string, runs: seq<Run>, k: nat): (part: string)
    requires k < |runs|
    ensures |part| <= runs[k].count
  {
    Slice(hex, Offset(runs, k), Offset(runs, k) + runs[k].count)
  }

  /** What `decode_nibbles(x, fmt)` returns: one value per letter group of `fmt`. */
  function NibbleGroups(x: seq<byte>, fmt: string): (values: seq<nat>)
    ensures |values| == |Runs(fmt)|
  {
    var hex := Hexlify(x);
    var runs := Runs(fmt);
    seq(|runs|, k requires 0 <= k < |runs| => HexValue(GroupDigits(hex, runs, k)))
  }

  /** decode_nibbles, with its loop over the letter groups. */
  method DecodeNibbles(x: seq<byte>, fmt: string) returns (values: seq<nat>)
    ensures values == NibbleGroups(x, fmt)
  {
    var hexStr := Hexlify(x);
    var letterGroups := Runs(fmt);
    ghost var spec := NibbleGroups(x, fmt);
    var idx := 0;
    values := [];
    for i := 0 to |letterGroups|
      invariant idx == Offset(letterGroups, i)
      invariant values == spec[..i]
    {
      var lettersCount := letterGroups[i].count;
      var hexStrPart := Slice(hexStr, idx, idx + lettersCount);
      assert hexStrPart == GroupDigits(hexStr, letterGroups, i);
      assert spec[i] == HexValue(hexStrPart);
      assert spec[..i + 1] == spec[..i] + [spec[i]];
      idx := idx + lettersCount;
      values := values + [HexValue(hexStrPart)];
    }
    assert spec[..|letterGroups|] == spec;
  }

  /** Each group value fits in the digits its letters name. */
  lemma NibbleGroupBound(x: seq<byte>, fmt: string, k: nat)
    requires k < |Runs(fmt)|
    ensures NibbleGroups(x, fmt)[k] < Pow16(Runs(fmt)[k].count)
  {
    var runs := Runs(fmt);
    var part := GroupDigits(Hexlify(x), runs, k);
    HexValueIsBigEndian(part);
    Pow16Monotonic(|part|, runs[k].count);
  }

  lemma {:induction false} Pow16Monotonic(a: nat, b: nat)
    requires a <= b
    ensures Pow16(a) <= Pow16(b)
    decreases b
  {
    if a < b {
      Pow16Monotonic(a, b - 1);
    }
  }

  /** A group that starts at or past the end of the digits reads no digit and decodes to 0. */
  lemma NibbleGroupPastEnd(x: seq<byte>, fmt: string, k: nat)
    requires k < |Runs(fmt)| && Offset(Runs(fmt), k) >= 2 * |x|
    ensures NibbleGroups(x, fmt)[k] == 0
  {
  }

  /**
   * Group `k` reads the digits from position `Offset(k)` on: the letters
   * before it have consumed exactly that many, from the left.
   */
  lemma NibbleGroupDigits(x: seq<byte>, fmt: string, k: nat)
    requires k < |Runs(fmt)|
    ensures var start, count := Offset(Runs(fmt), k), Runs(fmt)[k].count;
            start + count <= 2 * |x| ==>
              NibbleGroups(x, fmt)[k] == BigEndianHex(Hexlify(x)[start..start + count])
  {
    var runs, hex := Runs(fmt), Hexlify(x);
    var start, count := Offset(runs, k), runs[k].count;
    var part := GroupDigits(hex, runs, k);
    HexValueIsBigEndian(part);
    if start + count <= 2 * |x| {
      assert part == hex[start..start + count];
    }
  }

  /** The format of a history record: a 3-digit, a 1-digit, a 3-digit and a 1-digit field. */
  const RecordFormat: string := "xxxkyyyp"

  lemma RecordFormatRuns()
    ensures Runs(RecordFormat) == [Run('x', 3), Run('k', 1), Run('y', 3), Run('p', 1)]
  {
    var runs := [Run('x', 3), Run('k', 1), Run('y', 3), Run('p', 1)];
    assert Expand(runs[3..]) == "p";
    assert Expand(runs[2..]) == "yyyp";
    assert Expand(runs[1..]) == "kyyyp";
    assert Expand(runs) == RecordFormat;
    RunsUnique(runs, RecordFormat);
  }

  /** Three digits: the two of byte `a` and the high one of byte `b`. */
  lemma ThreeDigits(part: string, a: byte, b: byte)
    requires |part| == 3
    requires DigitValue(part[0]) == a / 16 && DigitValue(part[1]) == a % 16 && DigitValue(part[2]) == b / 16
    ensures HexValue(part) == (a as int) * 16 + b / 16
  {
    HexValueIsBigEndian(part);
    assert part[..2][..1] == part[..1] && part[..1][..0] == [];
    assert BigEndianHex(part[..1]) == DigitValue(part[0]);
    assert BigEndianHex(part[..2]) == DigitValue(part[0]) * 16 + DigitValue(part[1]);
    var n: int := a;
    assert n / 16 * 16 + n % 16 == n;
  }

  /** One digit: the low one of byte `a`. */
  lemma OneDigit(part: string, a: byte)
    requires |part| == 1 && DigitValue(part[0]) == a % 16
    ensures HexValue(part) == a % 16
  {
    HexValueIsBigEndian(part);
    assert part[..0] == [];
  }

  /** Group `k` of "xxxkyyyp" on a 4-byte chunk reads `count` digits from `start`. */
  lemma RecordGroup(chunk: seq<byte>, fmt: string, k: nat, start: nat, count: nat)
    requires |chunk| == 4 && k < 4
    requires Runs(fmt) == [Run('x', 3), Run('k', 1), Run('y', 3), Run('p', 1)]
    requires start == Offset(Runs(fmt), k) && count == Runs(fmt)[k].count
    ensures start + count <= 8
    ensures NibbleGroups(chunk, fmt)[k] == HexValue(Hexlify(chunk)[start..start + count])
  {
    var runs := Runs(fmt);
    assert Offset(runs, 1) == 3 && Offset(runs, 2) == 4 && Offset(runs, 3) == 7;
    assert GroupDigits(Hexlify(chunk), runs, k) == Hexlify(chunk)[start..start + count];
  }

  /** A 3-letter group of "xxxkyyyp" starting at byte `m`: that byte and the high nibble of the next. */
  lemma WideField(chunk: seq<byte>, fmt: string, k: nat, m: nat)
    requires |chunk| == 4 && (k, m) in {(0, 0), (2, 2)}
    requires Runs(fmt) == [Run('x', 3), Run('k', 1), Run('y', 3), Run('p', 1)]
    ensures NibbleGroups(chunk, fmt)[k] == (chunk[m] as int) * 16 + chunk[m + 1] / 16
  {
    var hex := Hexlify(chunk);
    RecordGroup(chunk, fmt, k, 2 * m, 3);
    var part := hex[2 * m..2 * m + 3];
    assert part[0] == hex[2 * m] && part[1] == hex[2 * m + 1] && part[2] == hex[2 * (m + 1)];
    ThreeDigits(part, chunk[m], chunk[m + 1]);
  }

  /** A 1-letter group of "xxxkyyyp" at the second digit of byte `m`: its low nibble. */
  lemma NarrowField(chunk: seq<byte>, fmt: string, k: nat, m: nat)
    requires |chunk| == 4 && (k, m) in {(1, 1), (3, 3)}
    requires Runs(fmt) == [Run('x', 3), Run('k', 1), Run('y', 3), Run('p', 1)]
    ensures NibbleGroups(chunk, fmt)[k] == chunk[m] % 16
  {
    var hex := Hexlify(chunk);
    RecordGroup(chunk, fmt, k, 2 * m + 1, 1);
    var part := hex[2 * m + 1..2 * m + 2];
    assert part[0] == hex[2 * m + 1];
    OneDigit(part, chunk[m]);
  }

  /**
   * The four fields "xxxkyyyp" gives a 4-byte chunk: the first 12 bits, the
   * next 4, the next 12 and the last 4.
   */
  lemma RecordFields(chunk: seq<byte>, fmt: string)
    requires |chunk| == 4 && Runs(fmt) == [Run('x', 3), Run('k', 1), Run('y', 3), Run('p', 1)]
    ensures NibbleGroups(chunk, fmt) ==
      [(chunk[0] as int) * 16 + chunk[1] / 16, chunk[1] % 16, (chunk[2] as int) * 16 + chunk[3] / 16, chunk[3] % 16]
  {
    WideField(chunk, fmt, 0, 0);
    NarrowField(chunk, fmt, 1, 1);
    WideField(chunk, fmt, 2, 2);
    NarrowField(chunk, fmt, 3, 3);
  }

  /** Under the record format every field fits the digits its letters name: 12, 4, 12 and 4 bits. */
  lemma RecordBounds(chunk: seq<byte>, fmt: string)
    requires Runs(fmt) == [Run('x', 3), Run('k', 1), Run('y', 3), Run('p', 1)]
    ensures var values := NibbleGroups(chunk, fmt);
      |values| == 4 && values[0] < 4096 && values[1] < 16 && values[2] < 4096 && values[3] < 16
  {
    NibbleGroupBound(chunk, fmt, 0);
    NibbleGroupBound(chunk, fmt, 1);
    NibbleGroupBound(chunk, fmt, 2);
    NibbleGroupBound(chunk, fmt, 3);
    assert Pow16(3) == 4096 && Pow16(1) == 16;
  }

  /**
   * What "xxxkyyyp" reads out of any chunk: four values within 12, 4, 12 and
   * 4 bits, and for a whole 4-byte chunk exactly its packed fields.
   */
  lemma RecordFormatValues(chunk: seq<byte>)
    ensures var v := NibbleGroups(chunk, RecordFormat);
      && |v| == 4 && v[0] < 4096 && v[1] < 16 && v[2] < 4096 && v[3] < 16
      && (|chunk| == 4 ==>
            v == [(chunk[0] as int) * 16 + chunk[1] / 16, chunk[1] % 16, (chunk[2] as int) * 16 + chunk[3] / 16, chunk[3] % 16])
  {
    RecordFormatRuns();
    RecordBounds(chunk, RecordFormat);
    if |chunk| == 4 {
      RecordFields(chunk, RecordFormat);
    }
  }

  /** The worked example of the decoder's documentation: 4d411111 with "xxxkyyyp". */
  lemma DecodeNibblesExample(x: seq<byte>)
    requires |x| == 4 && x[0] == 0x4d && x[1] == 0x41 && x[2] == 0x11 && x[3] == 0x11
    ensures NibbleGroups(x, RecordFormat) == [1236, 1, 273, 1]
  {
    RecordFormatRuns();
    RecordFields(x, RecordFormat);
    assert [(x[0] as int) * 16 + x[1] / 16, x[1] % 16, (x[2] as int) * 16 + x[3] / 16, x[3] % 16] == [1236, 1, 273, 1];
  }
}

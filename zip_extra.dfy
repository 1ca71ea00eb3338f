/** The ZIP "extra field" blob of a central-directory entry, as the merger
    reads it to decide whether two descriptors of one attachment may differ
    in it. The layout is that of section 4.5.1 of the PKWARE .ZIP File Format
    Specification (APPNOTE.TXT): a sequence of records, each a 2-byte header
    id and a 2-byte data size, both little-endian, followed by that many data
    bytes. Header id 0x5455 is the extended-timestamp record (APPNOTE.TXT
    section 4.6.1). */
module ZipExtra {
  import opened Wrappers

  type byte = b: int | 0 <= b < 256

  /** Extended Timestamp, the only record the merger accepts to differ. */
  const ExtendedTimestampId: int := 0x5455

  /** zipExtraField: a header id and the record's data. */
  datatype ExtraField = ExtraField(field: int, data: seq<byte>)

  datatype ParseError =
    | SizeTooLarge(size: nat, remaining: nat)   // declared size exceeds the bytes after the header
    | LeftOver(rest: seq<byte>)                 // 1 to 3 bytes too few for another header

  /** binary.LittleEndian.Uint16 of two bytes. */
  function LE16(lo: byte, hi: byte): nat {
    lo + 256 * hi
  }

  /** A record that can be written back in the format: both header fields
      fit in 16 bits. */
  predicate WellFormed(f: ExtraField) {
    0 <= f.field < 0x10000 && |f.data| < 0x10000
  }

  predicate AllWellFormed(fs: seq<ExtraField>) {
    forall i :: 0 <= i < |fs| ==> WellFormed(fs[i])
  }

  /** The reading of an extra blob, one record at a time from the front. */
  function Parse(extra: seq<byte>): Result<seq<ExtraField>, ParseError>
    decreases |extra|
  {
    if |extra| >= 4 then
      var size := LE16(extra[2], extra[3]);
      if size > |extra| - 4 then Err(SizeTooLarge(size, |extra| - 4))
      else
        match Parse(extra[size + 4..])
        case Err(e) => Err(e)
        case Ok(rest) => Ok([ExtraField(LE16(extra[0], extra[1]), extra[4..size + 4])] + rest)
    else if |extra| != 0 then Err(LeftOver(extra))
    else Ok([])
  }

  /** Prepends the records already read to the outcome of reading the rest. */
  function Prepend(done: seq<ExtraField>, r: Result<seq<ExtraField>, ParseError>): Result<seq<ExtraField>, ParseError> {
    match r
    case Err(e) => Err(e)
    case Ok(fs) => Ok(done + fs)
  }

  /** Prepending in two steps is prepending the concatenation. */
  lemma PrependTwice(a: seq<ExtraField>, b: seq<ExtraField>, r: Result<seq<ExtraField>, ParseError>)
    ensures Prepend(a, Prepend(b, r)) == Prepend(a + b, r)
  {
    if r.Ok? {
      assert a + (b + r.value) == (a + b) + r.value;
    }
  }

  /** One record read from the front of a blob that holds its whole data. */
  lemma ParseStep(extra: seq<byte>)
    requires |extra| >= 4 && LE16(extra[2], extra[3]) <= |extra| - 4
    ensures Parse(extra) == Prepend([ExtraField(LE16(extra[0], extra[1]), extra[4..LE16(extra[2], extra[3]) + 4])],
                                    Parse(extra[LE16(extra[2], extra[3]) + 4..]))
  {
  }

  /** parseZipExtraFields: advances through the blob, appending each record,
      and fails on an oversized record or on leftover bytes. */
  method ParseZipExtraFields(input: seq<byte>) returns (r: Result<seq<ExtraField>, ParseError>)
    ensures r == Parse(input)
  {
    var extra := input;
    var result: seq<ExtraField> := [];
    assert Prepend(result, Parse(input)) == Parse(input) by {
      if Parse(input).Ok? { assert result + Parse(input).value == Parse(input).value; }
    }
    while |extra| >= 4
      invariant Prepend(result, Parse(extra)) == Parse(input)
      decreases |extra|
    {
      var field := LE16(extra[0], extra[1]);
      var size := LE16(extra[2], extra[3]);
      if size > |extra| - 4 {
        return Err(SizeTooLarge(size, |extra| - 4));
      }
      var f := ExtraField(field, extra[4..size + 4]);
      ParseStep(extra);
      PrependTwice(result, [f], Parse(extra[size + 4..]));
      result := result + [f];
      extra := extra[size + 4..];
    }
    if |extra| != 0 {
      return Err(LeftOver(extra));
    }
    assert result + [] == result;
    return Ok(result);
  }

  /** The low and high byte of a 16-bit value. */
  function Lo(n: nat): byte requires n < 0x10000 { n % 256 }
  function Hi(n: nat): byte requires n < 0x10000 { n / 256 }

  /** Writes records back: id (LE16), len(data) (LE16), data. */
  function Serialize(fs: seq<ExtraField>): seq<byte>
    requires AllWellFormed(fs)
  {
    if fs == [] then []
    else
      var f := fs[0];
      [Lo(f.field), Hi(f.field), Lo(|f.data|), Hi(|f.data|)] + f.data + Serialize(fs[1..])
  }

  /** The empty blob holds no records. */
  lemma ParseEmpty()
    ensures Parse([]) == Ok([])
  {
  }

  /** A blob whose first record declares more data than follows its header
      is refused, with the declared size and the bytes actually remaining. */
  lemma ParseOversized(extra: seq<byte>)
    requires |extra| >= 4 && LE16(extra[2], extra[3]) > |extra| - 4
    ensures Parse(extra) == Err(SizeTooLarge(LE16(extra[2], extra[3]), |extra| - 4))
  {
  }

  /** Well-formed records followed by 1 to 3 stray bytes are refused, and the
      error carries exactly the stray bytes. */
  lemma {:induction false} ParseTrailingBytes(fs: seq<ExtraField>, tail: seq<byte>)
    requires AllWellFormed(fs)
    requires 1 <= |tail| <= 3
    ensures Parse(Serialize(fs) + tail) == Err(LeftOver(tail))
  {
    if fs == [] {
      assert Serialize(fs) + tail == tail;
    } else {
      var f := fs[0];
      var header := [Lo(f.field), Hi(f.field), Lo(|f.data|), Hi(|f.data|)];
      var blob := Serialize(fs) + tail;
      assert blob == header + f.data + (Serialize(fs[1..]) + tail);
      assert LE16(blob[2], blob[3]) == |f.data|;
      assert blob[|f.data| + 4..] == Serialize(fs[1..]) + tail;
      ParseTrailingBytes(fs[1..], tail);
    }
  }

  /** Reading a blob that was written from well-formed records gives back
      those records. */
  lemma {:induction false} ParseSerialize(fs: seq<ExtraField>)
    requires AllWellFormed(fs)
    ensures Parse(Serialize(fs)) == Ok(fs)
  {
    if fs != [] {
      var f := fs[0];
      var blob := Serialize(fs);
      var header := [Lo(f.field), Hi(f.field), Lo(|f.data|), Hi(|f.data|)];
      assert blob == header + f.data + Serialize(fs[1..]);
      assert LE16(blob[0], blob[1]) == f.field;
      assert LE16(blob[2], blob[3]) == |f.data|;
      assert blob[4..|f.data| + 4] == f.data;
      assert blob[|f.data| + 4..] == Serialize(fs[1..]);
      ParseSerialize(fs[1..]);
      assert fs == [f] + fs[1..];
    }
  }

  lemma LoHi(lo: byte, hi: byte)
    ensures LE16(lo, hi) < 0x10000
    ensures Lo(LE16(lo, hi)) == lo && Hi(LE16(lo, hi)) == hi
  {
  }

  /** Writing one record in front of others. */
  lemma SerializeCons(f: ExtraField, tail: seq<ExtraField>)
    requires WellFormed(f) && AllWellFormed(tail)
    ensures AllWellFormed([f] + tail)
    ensures Serialize([f] + tail) == [Lo(f.field), Hi(f.field), Lo(|f.data|), Hi(|f.data|)] + f.data + Serialize(tail)
  {
    assert ([f] + tail)[1..] == tail;
  }

  /** Every blob that reads successfully is reproduced byte for byte by
      writing its records back; the records are well-formed. */
  lemma {:induction false} SerializeParse(extra: seq<byte>)
    requires Parse(extra).Ok?
    ensures AllWellFormed(Parse(extra).value)
    ensures Serialize(Parse(extra).value) == extra
    decreases |extra|
  {
    if |extra| >= 4 {
      var size := LE16(extra[2], extra[3]);
      var rest := extra[size + 4..];
      var f := ExtraField(LE16(extra[0], extra[1]), extra[4..size + 4]);
      assert Parse(rest).Ok? && Parse(extra) == Ok([f] + Parse(rest).value);
      SerializeParse(rest);
      var tail := Parse(rest).value;
      LoHi(extra[0], extra[1]);
      LoHi(extra[2], extra[3]);
      SerializeCons(f, tail);
      assert extra[..4] == [extra[0], extra[1], extra[2], extra[3]];
      SplitThree(extra, 4, size + 4);
    }
  }

  lemma SplitThree(s: seq<byte>, i: nat, j: nat)
    requires i <= j <= |s|
    ensures s == s[..i] + s[i..j] + s[j..]
  {
  }

  /** sliceEquals: two byte slices are equal when they have the same length
      and agree at every index. */
  method SliceEquals(a: seq<byte>, b: seq<byte>) returns (r: bool)
    ensures r <==> a == b
  {
    if |a| != |b| {
      return false;
    }
    var i := 0;
    while i < |a|
      invariant 0 <= i <= |a|
      invariant a[..i] == b[..i]
    {
      if a[i] != b[i] {
        return false;
      }
      assert a[..i + 1] == a[..i] + [a[i]];
      assert b[..i + 1] == b[..i] + [b[i]];
      i := i + 1;
    }
    assert a == a[..i] && b == b[..i];
    return true;
  }

  /** Every record is an Extended Timestamp. */
  predicate OnlyTimestamps(fs: seq<ExtraField>) {
    forall i :: 0 <= i < |fs| ==> fs[i].field == ExtendedTimestampId
  }

  /** zipExtraCanBeIgnored: scans the records and answers false at the first
      one that is not an Extended Timestamp. */
  method ZipExtraCanBeIgnored(fs: seq<ExtraField>) returns (r: bool)
    ensures r <==> OnlyTimestamps(fs)
  {
    var i := 0;
    while i < |fs|
      invariant 0 <= i <= |fs|
      invariant forall j :: 0 <= j < i ==> fs[j].field == ExtendedTimestampId
    {
      if fs[i].field != ExtendedTimestampId {
        return false;
      }
      i := i + 1;
    }
    return true;
  }
}

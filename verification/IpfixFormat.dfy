/** A reader of IPFIX messages, after RFC 7011: the message header (section 3.1),
    sets (3.3.1, 3.3.2) and variable-length fields (7). */
module IpfixFormat {
  import opened Widths
  import opened Arith
  import opened Samples

  function U16(v: uint16): (b: seq<byte>)
    ensures |b| == 2
  {
    [v / 256, v % 256]
  }

  function Get16(b: seq<byte>): uint16
    requires |b| >= 2
  {
    (b[0] as int) * 256 + b[1]
  }

  function U32(v: uint32): (b: seq<byte>)
    ensures |b| == 4
  {
    U16(v / 65536) + U16(v % 65536)
  }

  function Get32(b: seq<byte>): uint32
    requires |b| >= 4
  {
    Get16(b) * 65536 + Get16(b[2..])
  }

  lemma Get16OfU16(v: uint16, rest: seq<byte>)
    ensures Get16(U16(v) + rest) == v
  {
  }

  lemma Get32OfU32(v: uint32, rest: seq<byte>)
    ensures Get32(U32(v) + rest) == v
  {
    var b := U32(v) + rest;
    assert b == U16(v / 65536) + (U16(v % 65536) + rest);
    assert b[2..] == U16(v % 65536) + rest;
    Get16OfU16(v / 65536, U16(v % 65536) + rest);
    Get16OfU16(v % 65536, rest);
  }

  // Network order, byte by byte.
  lemma U32Places(v: uint32)
    ensures U32(v) == [v / 0x100_0000, v / 0x1_0000 % 256, v / 0x100 % 256, v % 256]
  {
    var high, low := v / 0x1_0000, v % 0x1_0000;
    assert v == high / 256 * 0x100_0000 + (high % 256 * 0x1_0000 + low);
    assert v == (high * 256 + low / 256) * 256 + low % 256;
    UniqueDivMod(v, 0x100_0000, high / 256, high % 256 * 0x1_0000 + low);
    UniqueDivMod(v, 256, high * 256 + low / 256, low % 256);
    UniqueDivMod(high * 256 + low / 256, 256, high, low / 256);
  }

  // --- Sets ---------------------------------------------------------------------------

  datatype Set = Set(id: uint16, content: seq<byte>)
  {
    predicate Fits() { |content| + 4 < 0x1_0000 }
  }

  // A set on the wire: identifier, length with the header, content.
  function EncodeSet(s: Set): seq<byte>
    requires s.Fits()
  {
    U16(s.id) + U16(|s.content| + 4) + s.content
  }

  // Sets follow each other to the end of the message, nothing left over.
  function ReadSets(b: seq<byte>): Option<seq<Set>>
    decreases |b|
  {
    if b == [] then Some([]) else
    if |b| < 4 then None else
    var len := Get16(b[2..]);
    if len < 4 || len > |b| then None else
    match ReadSets(b[len..])
    case None => None
    case Some(rest) => Some([Set(Get16(b), b[4..len])] + rest)
  }

  lemma ReadSetsStep(s: Set, rest: seq<byte>)
    requires s.Fits() && ReadSets(rest).Some?
    ensures ReadSets(EncodeSet(s) + rest) == Some([s] + ReadSets(rest).value)
  {
    var b := EncodeSet(s) + rest;
    var len := |s.content| + 4;
    assert b == U16(s.id) + (U16(len) + s.content + rest);
    Get16OfU16(s.id, U16(len) + s.content + rest);
    assert b[2..] == U16(len) + (s.content + rest);
    Get16OfU16(len, s.content + rest);
    assert b[4..len] == s.content && b[len..] == rest;
  }

  function EncodeSets(sets: seq<Set>): seq<byte>
    requires forall i :: 0 <= i < |sets| ==> sets[i].Fits()
  {
    if sets == [] then [] else EncodeSet(sets[0]) + EncodeSets(sets[1..])
  }

  lemma {:induction false} ReadEncodedSets(sets: seq<Set>)
    requires forall i :: 0 <= i < |sets| ==> sets[i].Fits()
    ensures ReadSets(EncodeSets(sets)) == Some(sets)
    decreases |sets|
  {
    if sets == [] {
    } else {
      ReadEncodedSets(sets[1..]);
      ReadSetsStep(sets[0], EncodeSets(sets[1..]));
      assert [sets[0]] + sets[1..] == sets;
    }
  }

  // --- Messages -----------------------------------------------------------------------

  datatype Message = Message(exportTime: uint32, sequence: uint32, domain: uint32, sets: seq<Set>)

  function EncodeHeader(length: uint16, exportTime: uint32, sequence: uint32, domain: uint32): seq<byte>
  {
    U16(10) + U16(length) + U32(exportTime) + U32(sequence) + U32(domain)
  }

  // Version 10, a length that is exactly the message's, then sets.
  function ReadMessage(b: seq<byte>): Option<Message>
  {
    if |b| < 16 || Get16(b) != 10 || Get16(b[2..]) != |b| then None else
    match ReadSets(b[16..])
    case None => None
    case Some(sets) => Some(Message(Get32(b[4..]), Get32(b[8..]), Get32(b[12..]), sets))
  }

  lemma ReadMessageOf(time: uint32, sequence: uint32, domain: uint32, body: seq<byte>)
    requires 16 + |body| < 0x1_0000 && ReadSets(body).Some?
    ensures ReadMessage(EncodeHeader(16 + |body|, time, sequence, domain) + body)
         == Some(Message(time, sequence, domain, ReadSets(body).value))
  {
    hide ReadSets, Get16, Get32, U16, U32;
    var r4 := U32(domain) + body;
    var r3 := U32(sequence) + r4;
    var r2 := U32(time) + r3;
    var r1 := U16(16 + |body|) + r2;
    HeaderRegrouped(U16(10), U16(16 + |body|), U32(time), U32(sequence), U32(domain), body);
    Get16OfU16(10, r1);
    Get16OfU16(16 + |body|, r2);
    Get32OfU32(time, r3);
    Get32OfU32(sequence, r4);
    Get32OfU32(domain, body);
  }

  lemma DropNext(b: seq<byte>, i: nat, p: seq<byte>, rest: seq<byte>)
    requires i <= |b| && b[i..] == p + rest
    ensures i + |p| <= |b| && b[i + |p|..] == rest
  {
    assert b[i + |p|..] == b[i..][|p|..];
    assert (p + rest)[|p|..] == rest;
  }

  lemma HeaderRegrouped(v: seq<byte>, l: seq<byte>, t: seq<byte>, s: seq<byte>, d: seq<byte>, body: seq<byte>)
    requires |v| == 2 && |l| == 2 && |t| == 4 && |s| == 4 && |d| == 4
    ensures var b := v + l + t + s + d + body;
      && b == v + (l + (t + (s + (d + body))))
      && b[2..] == l + (t + (s + (d + body))) && b[4..] == t + (s + (d + body))
      && b[8..] == s + (d + body) && b[12..] == d + body && b[16..] == body
  {
    var b := v + l + t + s + d + body;
    var r4 := d + body;
    var r3 := s + r4;
    var r2 := t + r3;
    var r1 := l + r2;
    assert b == v + r1;
    assert b[0..] == b;
    DropNext(b, 0, v, r1);
    DropNext(b, 2, l, r2);
    DropNext(b, 4, t, r3);
    DropNext(b, 8, s, r4);
    DropNext(b, 12, d, body);
  }

  // --- Data records -------------------------------------------------------------------

  // The length a template gives a field: fixed, or 65535 for variable.
  datatype FieldLength = Variable | Fixed(size: nat)
  {
    predicate Holds(value: seq<byte>) {
      match this
      case Variable => |value| < 255
      case Fixed(n) => |value| == n
    }

    function MinSize(): nat { match this case Variable => 1 case Fixed(n) => n }
  }

  function EncodeField(f: FieldLength, value: seq<byte>): seq<byte>
    requires f.Holds(value)
  {
    match f
    case Variable => [|value|] + value
    case Fixed(_) => value
  }

  // A variable field starts with its length in one octet, or in two after a 255.
  function ReadField(f: FieldLength, b: seq<byte>): Option<(seq<byte>, seq<byte>)>
  {
    match f
    case Fixed(n) => if |b| < n then None else Some((b[..n], b[n..]))
    case Variable =>
      if |b| < 1 then None
      else if b[0] < 255 then (if |b| < 1 + b[0] then None else Some((b[1..1 + b[0]], b[1 + b[0]..])))
      else if |b| < 3 || |b| < 3 + Get16(b[1..]) then None
      else Some((b[3..3 + Get16(b[1..])], b[3 + Get16(b[1..])..]))
  }

  lemma ReadEncodedField(f: FieldLength, value: seq<byte>, rest: seq<byte>)
    requires f.Holds(value)
    ensures ReadField(f, EncodeField(f, value) + rest) == Some((value, rest))
  {
    var b := EncodeField(f, value) + rest;
    match f
    case Fixed(n) =>
      assert b[..n] == value && b[n..] == rest;
    case Variable =>
      assert b[1..1 + |value|] == value && b[1 + |value|..] == rest;
  }

  predicate RecordHolds(fields: seq<FieldLength>, values: seq<seq<byte>>)
  {
    |fields| == |values| && forall i :: 0 <= i < |fields| ==> fields[i].Holds(values[i])
  }

  function EncodeRecord(fields: seq<FieldLength>, values: seq<seq<byte>>): seq<byte>
    requires RecordHolds(fields, values)
    decreases |fields|
  {
    if fields == [] then [] else EncodeField(fields[0], values[0]) + EncodeRecord(fields[1..], values[1..])
  }

  lemma FieldsFrom(fields: seq<FieldLength>, values: seq<seq<byte>>, i: nat)
    requires RecordHolds(fields, values) && i < |fields|
    ensures EncodeRecord(fields[i..], values[i..])
      == EncodeField(fields[i], values[i]) + EncodeRecord(fields[i + 1..], values[i + 1..])
    ensures EncodeRecord(fields[|fields|..], values[|fields|..]) == []
  {
    assert fields[i..][1..] == fields[i + 1..] && values[i..][1..] == values[i + 1..];
  }

  function ReadRecord(fields: seq<FieldLength>, b: seq<byte>): Option<(seq<seq<byte>>, seq<byte>)>
    decreases |fields|
  {
    if fields == [] then Some(([], b)) else
    match ReadField(fields[0], b)
    case None => None
    case Some((value, rest)) =>
      match ReadRecord(fields[1..], rest)
      case None => None
      case Some((values, end)) => Some(([value] + values, end))
  }

  lemma {:induction false} ReadEncodedRecord(fields: seq<FieldLength>, values: seq<seq<byte>>, rest: seq<byte>)
    requires RecordHolds(fields, values)
    ensures ReadRecord(fields, EncodeRecord(fields, values) + rest) == Some((values, rest))
    decreases |fields|
  {
    if fields == [] {
      assert [] + rest == rest;
    } else {
      hide ReadField, EncodeField;
      var head, tail := EncodeField(fields[0], values[0]), EncodeRecord(fields[1..], values[1..]);
      assert head + tail + rest == head + (tail + rest);
      ReadEncodedField(fields[0], values[0], tail + rest);
      ReadEncodedRecord(fields[1..], values[1..], rest);
      assert [values[0]] + values[1..] == values;
    }
  }

  function MinRecord(fields: seq<FieldLength>): nat
  {
    if fields == [] then 0 else fields[0].MinSize() + MinRecord(fields[1..])
  }

  lemma {:induction false} RecordAtLeastMin(fields: seq<FieldLength>, values: seq<seq<byte>>)
    requires RecordHolds(fields, values)
    ensures |EncodeRecord(fields, values)| >= MinRecord(fields)
    decreases |fields|
  {
    if fields == [] {
    } else {
      RecordAtLeastMin(fields[1..], values[1..]);
    }
  }

  lemma {:induction false} ReadRecordConsumes(fields: seq<FieldLength>, b: seq<byte>)
    ensures ReadRecord(fields, b).Some? ==> |ReadRecord(fields, b).value.1| + MinRecord(fields) <= |b|
    decreases |fields|
  {
    if fields == [] || ReadField(fields[0], b).None? {
    } else {
      ReadRecordConsumes(fields[1..], ReadField(fields[0], b).value.1);
    }
  }

  // Records to the end of the set; what is shorter than any record is padding.
  function ReadRecords(fields: seq<FieldLength>, b: seq<byte>): Option<(seq<seq<seq<byte>>>, seq<byte>)>
    requires MinRecord(fields) >= 1
    decreases |b|
  {
    if |b| < MinRecord(fields) then Some(([], b)) else
    ReadRecordConsumes(fields, b);
    match ReadRecord(fields, b)
    case None => None
    case Some((values, rest)) =>
      match ReadRecords(fields, rest)
      case None => None
      case Some((records, padding)) => Some(([values] + records, padding))
  }

  function EncodeRecords(fields: seq<FieldLength>, records: seq<seq<seq<byte>>>): seq<byte>
    requires forall i :: 0 <= i < |records| ==> RecordHolds(fields, records[i])
    decreases |records|
  {
    if records == [] then [] else EncodeRecord(fields, records[0]) + EncodeRecords(fields, records[1..])
  }

  // Main result: a reader gets back the records of a set and its padding.
  lemma {:induction false} ReadEncodedRecords(fields: seq<FieldLength>, records: seq<seq<seq<byte>>>,
      padding: seq<byte>)
    requires forall i :: 0 <= i < |records| ==> RecordHolds(fields, records[i])
    requires |padding| < MinRecord(fields)
    ensures ReadRecords(fields, EncodeRecords(fields, records) + padding) == Some((records, padding))
    decreases |records|
  {
    if records == [] {
      assert [] + padding == padding;
    } else {
      hide ReadRecord, EncodeRecord, MinRecord;
      var head, tail := EncodeRecord(fields, records[0]), EncodeRecords(fields, records[1..]);
      assert head + tail + padding == head + (tail + padding);
      RecordAtLeastMin(fields, records[0]);
      ReadEncodedRecord(fields, records[0], tail + padding);
      ReadEncodedRecords(fields, records[1..], padding);
      assert [records[0]] + records[1..] == records;
    }
  }

  lemma {:induction false} EncodeRecordsSnoc(fields: seq<FieldLength>, records: seq<seq<seq<byte>>>,
      values: seq<seq<byte>>)
    requires forall i :: 0 <= i < |records| ==> RecordHolds(fields, records[i])
    requires RecordHolds(fields, values)
    ensures EncodeRecords(fields, records + [values]) == EncodeRecords(fields, records) + EncodeRecord(fields, values)
    decreases |records|
  {
    if records == [] {
      assert [values][1..] == [];
      assert records + [values] == [values];
    } else {
      hide EncodeRecord;
      EncodeRecordsSnoc(fields, records[1..], values);
      assert (records + [values])[1..] == records[1..] + [values];
    }
  }
}

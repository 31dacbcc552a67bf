/** The uploader itself: one buffer, a cursor that writes into it, and length fields
    patched when a message is complete. */
module Uploader {
  import opened Widths
  import opened Arith
  import opened Samples
  import opened Splicing
  import opened IpfixFormat
  import opened UploadFormat

  class Buffer {
    const bytes: array<byte>

    constructor ()
      ensures bytes.Length == BUFFER_SIZE && fresh(bytes)
    {
      bytes := new byte[512];
    }

    method Copy(at: nat, data: seq<byte>)
      requires at + |data| <= bytes.Length
      modifies bytes
      ensures bytes[..] == Splice(old(bytes[..]), at, data)
    {
      forall i | 0 <= i < |data| {
        bytes[at + i] := data[i];
      }
    }

    // A string with its length in front.
    method CopyChar(dst: nat, value: Text) returns (dst': nat)
      requires |value| < 128 && dst + 1 + |value| <= bytes.Length
      modifies bytes
      ensures dst' == dst + 1 + |value|
      ensures bytes[..] == Splice(old(bytes[..]), dst, EncodeField(Variable, value))
    {
      Copy(dst, [|value|]);
      Copy(dst + 1, value);
      dst' := dst + 1 + |value|;
      assert [|value|] + value == EncodeField(Variable, value);
    }

    method CopyInt1(dst: nat, value: int) returns (dst': nat)
      requires dst + 1 <= bytes.Length
      modifies bytes
      ensures dst' == dst + 1 && bytes[..] == Splice(old(bytes[..]), dst, [Pattern8(value)])
    {
      Copy(dst, [Pattern8(value)]);
      dst' := dst + 1;
    }

    method CopyInt2(dst: nat, value: uint16) returns (dst': nat)
      requires dst + 2 <= bytes.Length
      modifies bytes
      ensures dst' == dst + 2 && bytes[..] == Splice(old(bytes[..]), dst, U16(value))
    {
      Copy(dst, U16(value));
      dst' := dst + 2;
    }

    method CopyInt4(dst: nat, value: uint32) returns (dst': nat)
      requires dst + 4 <= bytes.Length
      modifies bytes
      ensures dst' == dst + 4 && bytes[..] == Splice(old(bytes[..]), dst, U32(value))
    {
      Copy(dst, U32(value));
      dst' := dst + 4;
    }

    // Zeros after the content that starts at start + 4, up to a multiple of four.
    method Pad(start: nat, dst: nat) returns (size: nat)
      requires start % 4 == 0 && start + 4 <= dst <= bytes.Length == BUFFER_SIZE
      modifies bytes
      ensures dst <= start + size <= dst + 3 && size % 4 == 0 && start + size <= BUFFER_SIZE
      ensures bytes[..start + 4] == old(bytes[..start + 4])
      ensures bytes[start + 4..start + size] == Filled(old(bytes[start + 4..dst]))
    {
      hide Splice;
      size := dst - start;
      var padding := Padding(size);
      SamePadding(dst - start - 4);
      StaysInBuffer(start, size, padding);
      SpliceExtends(bytes[..], start + 4, dst, Zeros(padding));
      Copy(dst, Zeros(padding));
      size := size + padding;
    }

    method PatchSetHeader(start: nat, size: nat, id: uint16)
      requires 4 <= size && start + size <= bytes.Length == BUFFER_SIZE
      modifies bytes
      ensures bytes[..start] == old(bytes[..start])
      ensures bytes[start..start + size] == U16(id) + U16(size) + old(bytes[start + 4..start + size])
    {
      hide Splice, U16;
      ghost var b := bytes[..];
      var dst := CopyInt2(start, id);
      var _ := CopyInt2(dst, size);
      SpliceTwice(b, start, U16(id), U16(size));
      SpliceBefore(b, start, U16(id) + U16(size), start + 4, start + size);
      assert bytes[start..start + size] == bytes[start..start + 4] + bytes[start + 4..start + size];
    }

    // A set is padded and its header patched when its records are written.
    method CloseSet(start: nat, dst: nat, id: uint16) returns (size: nat)
      requires start % 4 == 0 && start + 4 <= dst <= bytes.Length == BUFFER_SIZE
      modifies bytes
      ensures dst <= start + size <= dst + 3 && size % 4 == 0 && start + size <= BUFFER_SIZE
      ensures bytes[..start] == old(bytes[..start])
      ensures |Filled(old(bytes[start + 4..dst]))| < 60000
      ensures bytes[start..start + size] == EncodeSet(Set(id, Filled(old(bytes[start + 4..dst]))))
    {
      hide Filled;
      ghost var b := bytes[..];
      size := Pad(start, dst);
      PrefixOfPrefix(b, bytes[..], start, start + 4);
      PatchSetHeader(start, size, id);
    }

    // One report, field by field.
    method WriteReport(dst: nat, r: Report) returns (dst': nat)
      requires r.Valid() && dst + RecordSize(r) <= bytes.Length
      modifies bytes
      ensures RecordHolds(REPORT_FIELDS, Values(r))
      ensures dst' == dst + |EncodeRecord(REPORT_FIELDS, Values(r))| == dst + RecordSize(r)
      ensures bytes[..] == Splice(old(bytes[..]), dst, EncodeRecord(REPORT_FIELDS, Values(r)))
    {
      hide Splice, U32, Pattern8, Pattern32, EncodeRecord;
      ReportRecord(r);
      hide EncodeField;
      ghost var b := bytes[..];
      var e1, e2, e3 := EncodeField(Variable, r.call), EncodeField(Variable, r.grid), U32(Pattern32(r.freq));
      dst' := CopyChar(dst, r.call);
      dst' := CopyChar(dst', r.grid);
      SpliceTwice(b, dst, e1, e2);
      dst' := CopyInt4(dst', Pattern32(r.freq));
      SpliceTwice(b, dst, e1 + e2, e3);
      ghost var head := e1 + e2 + e3;
      dst' := CopyInt1(dst', r.snr);
      SpliceTwice(b, dst, head, [Pattern8(r.snr)]);
      dst' := CopyChar(dst', MODE);
      SpliceTwice(b, dst, head + [Pattern8(r.snr)], EncodeField(Variable, MODE));
      dst' := CopyInt1(dst', 1);
      One();
      SpliceTwice(b, dst, head + [Pattern8(r.snr)] + EncodeField(Variable, MODE), [1]);
      dst' := CopyInt4(dst', Pattern32(r.time + 15));
      SpliceTwice(b, dst, head + [Pattern8(r.snr)] + EncodeField(Variable, MODE) + [1], U32(Pattern32(r.time + 15)));
    }

    method WriteReceiver(dst: nat, s: Station) returns (dst': nat)
      requires s.Accepted() && dst + 112 <= bytes.Length
      modifies bytes
      ensures RecordHolds(RECEIVER_FIELDS, ReceiverValues(s))
      ensures dst' == dst + |EncodeRecord(RECEIVER_FIELDS, ReceiverValues(s))| == dst + 26 + s.Length()
      ensures bytes[..] == Splice(old(bytes[..]), dst, EncodeRecord(RECEIVER_FIELDS, ReceiverValues(s)))
    {
      hide Splice, EncodeRecord;
      ReceiverRecord(s);
      hide EncodeField;
      ghost var b := bytes[..];
      var e1, e2, e3 := EncodeField(Variable, s.call), EncodeField(Variable, s.grid), EncodeField(Variable, SOFT);
      dst' := CopyChar(dst, s.call);
      dst' := CopyChar(dst', s.grid);
      SpliceTwice(b, dst, e1, e2);
      dst' := CopyChar(dst', SOFT);
      SpliceTwice(b, dst, e1 + e2, e3);
      dst' := CopyChar(dst', s.antenna);
      SpliceTwice(b, dst, e1 + e2 + e3, EncodeField(Variable, s.antenna));
    }
  }

  lemma One()
    ensures Pattern8(1) == 1
  {
  }

  lemma RecordStep(fields: seq<FieldLength>, values: seq<seq<byte>>)
    requires RecordHolds(fields, values) && fields != []
    ensures EncodeRecord(fields, values) == EncodeField(fields[0], values[0]) + EncodeRecord(fields[1..], values[1..])
  {
  }

  lemma LastField(field: FieldLength, value: seq<byte>)
    requires field.Holds(value)
    ensures EncodeRecord([field], [value]) == EncodeField(field, value)
  {
    RecordStep([field], [value]);
    assert EncodeField(field, value) + [] == EncodeField(field, value);
  }

  // A report on the wire, at most 33 bytes.
  lemma ReportRecord(r: Report)
    requires r.Valid()
    ensures RecordHolds(REPORT_FIELDS, Values(r))
    ensures EncodeRecord(REPORT_FIELDS, Values(r)) ==
      EncodeField(Variable, r.call) + EncodeField(Variable, r.grid) + U32(Pattern32(r.freq)) + [Pattern8(r.snr)]
      + EncodeField(Variable, MODE) + [1] + U32(Pattern32(r.time + 15))
    ensures |EncodeField(Variable, r.call)| == 1 + |r.call| && |EncodeField(Variable, r.grid)| == 1 + |r.grid|
    ensures |EncodeField(Variable, MODE)| == 4
  {
    ValuesHold(r);
    hide EncodeRecord, EncodeField, U32, Pattern8, Pattern32;
    VariableLength(r.call);
    VariableLength(r.grid);
    VariableLength(MODE);
    SevenFields(r.call, r.grid, U32(Pattern32(r.freq)), [Pattern8(r.snr)], MODE, [1], U32(Pattern32(r.time + 15)));
  }

  lemma SevenFields(a: seq<byte>, b: seq<byte>, c: seq<byte>, d: seq<byte>, e: seq<byte>, f: seq<byte>, g: seq<byte>)
    requires |a| < 255 && |b| < 255 && |c| == 4 && |d| == 1 && |e| < 255 && |f| == 1 && |g| == 4
    ensures RecordHolds(REPORT_FIELDS, [a, b, c, d, e, f, g])
    ensures EncodeRecord(REPORT_FIELDS, [a, b, c, d, e, f, g])
         == EncodeField(Variable, a) + EncodeField(Variable, b) + c + d + EncodeField(Variable, e) + f + g
  {
    hide EncodeRecord, EncodeField;
    var t, v := REPORT_FIELDS, [a, b, c, d, e, f, g];
    RecordStep(t, v);
    assert t[1..] == [Variable, Fixed(4), Fixed(1), Variable, Fixed(1), Fixed(4)] && v[1..] == [b, c, d, e, f, g];
    RecordStep(t[1..], v[1..]);
    assert t[1..][1..] == [Fixed(4), Fixed(1), Variable, Fixed(1), Fixed(4)] && v[1..][1..] == [c, d, e, f, g];
    FiveFields(c, d, e, f, g);
    var x, y, z := EncodeField(Variable, a), EncodeField(Variable, b), EncodeField(Variable, e);
    Regroup(x, y, c, d, z, f, g);
  }

  lemma Regroup(x: seq<byte>, y: seq<byte>, c: seq<byte>, d: seq<byte>, z: seq<byte>, f: seq<byte>, g: seq<byte>)
    ensures x + (y + (c + d + z + f + g)) == x + y + c + d + z + f + g
  {
  }

  lemma FiveFields(a: seq<byte>, b: seq<byte>, c: seq<byte>, d: seq<byte>, e: seq<byte>)
    requires |a| == 4 && |b| == 1 && |c| < 255 && |d| == 1 && |e| == 4
    ensures EncodeRecord([Fixed(4), Fixed(1), Variable, Fixed(1), Fixed(4)], [a, b, c, d, e])
         == a + b + EncodeField(Variable, c) + d + e
  {
    hide EncodeRecord, EncodeField;
    var f := [Fixed(4), Fixed(1), Variable, Fixed(1), Fixed(4)];
    RecordStep(f, [a, b, c, d, e]);
    assert f[1..] == [Fixed(1), Variable, Fixed(1), Fixed(4)] && [a, b, c, d, e][1..] == [b, c, d, e];
    RecordStep(f[1..], [b, c, d, e]);
    assert f[1..][1..] == [Variable, Fixed(1), Fixed(4)] && [b, c, d, e][1..] == [c, d, e];
    RecordStep([Variable, Fixed(1), Fixed(4)], [c, d, e]);
    assert [Variable, Fixed(1), Fixed(4)][1..] == [Fixed(1), Fixed(4)] && [c, d, e][1..] == [d, e];
    RecordStep([Fixed(1), Fixed(4)], [d, e]);
    assert [Fixed(1), Fixed(4)][1..] == [Fixed(4)] && [d, e][1..] == [e];
    LastField(Fixed(4), e);
    FixedField(4, a); FixedField(1, b); FixedField(1, d); FixedField(4, e);
    var x := EncodeField(Variable, c);
    assert a + (b + (x + (d + e))) == a + b + x + d + e;
  }

  lemma FixedField(n: nat, v: seq<byte>)
    requires |v| == n
    ensures EncodeField(Fixed(n), v) == v
  {
  }

  lemma VariableLength(v: seq<byte>)
    requires |v| < 255
    ensures |EncodeField(Variable, v)| == 1 + |v|
  {
  }

  lemma ReceiverRecord(s: Station)
    requires s.Accepted()
    ensures RecordHolds(RECEIVER_FIELDS, ReceiverValues(s))
    ensures EncodeRecord(RECEIVER_FIELDS, ReceiverValues(s)) ==
      EncodeField(Variable, s.call) + EncodeField(Variable, s.grid) + EncodeField(Variable, SOFT)
        + EncodeField(Variable, s.antenna)
    ensures |EncodeField(Variable, s.call)| == 1 + |s.call| && |EncodeField(Variable, s.grid)| == 1 + |s.grid|
    ensures |EncodeField(Variable, SOFT)| == 23 && |EncodeField(Variable, s.antenna)| == 1 + |s.antenna|
  {
    ReceiverHolds(s);
    hide EncodeRecord, EncodeField;
    var v := ReceiverValues(s);
    var f: seq<FieldLength> := [Variable, Variable, Variable, Variable];
    assert f == RECEIVER_FIELDS;
    RecordStep(f, v);
    assert f[1..] == [Variable, Variable, Variable] && v[1..] == [v[1], v[2], v[3]];
    RecordStep(f[1..], v[1..]);
    assert f[1..][1..] == [Variable, Variable] && v[1..][1..] == [v[2], v[3]];
    RecordStep([Variable, Variable], [v[2], v[3]]);
    assert [Variable, Variable][1..] == [Variable] && [v[2], v[3]][1..] == [v[3]];
    LastField(Variable, v[3]);
    VariableLength(s.call); VariableLength(s.grid); VariableLength(SOFT); VariableLength(s.antenna);
    var a, b, c, d := EncodeField(Variable, v[0]), EncodeField(Variable, v[1]), EncodeField(Variable, v[2]),
      EncodeField(Variable, v[3]);
    assert a + (b + (c + d)) == a + b + c + d;
  }

  // --- The run --------------------------------------------------------------------------

  // What follows the first twelve bytes of every message, up to the report set.
  function Prefix(s: Station, domain: uint32): seq<byte>
    requires s.Accepted() && |ReceiverContent(s)| < 60000
  {
    U32(domain) + TEMPLATES + EncodeSet(Set(RECEIVER_SET, ReceiverContent(s)))
  }

  // The buffer holds everything that does not change from message to message.
  ghost predicate Ready(b: seq<byte>, start: nat, s: Station, domain: uint32)
  {
    && |b| == BUFFER_SIZE && s.Accepted()
    && start == 124 + Whole(26 + s.Length()) <= 236 && start % 4 == 0
    && |ReceiverContent(s)| < 60000
    && b[..2] == U16(10) && b[12..start] == Prefix(s, domain)
  }

  function ReportRecords(reports: seq<Report>): seq<byte>
    requires AllValid(reports)
  {
    AllValuesHold(reports);
    EncodeRecords(REPORT_FIELDS, AllValues(reports))
  }

  lemma {:induction false} ReportRecordsLength(reports: seq<Report>)
    requires AllValid(reports)
    ensures |ReportRecords(reports)| == RecordsSize(reports)
    decreases |reports|
  {
    hide EncodeRecord, EncodeRecords, Values;
    if reports != [] {
      var front, r := reports[..|reports| - 1], reports[|reports| - 1];
      ReportRecordsLength(front);
      AllValuesHold(front);
      ValuesHold(r);
      ReportRecord(r);
      EncodeRecordsSnoc(REPORT_FIELDS, AllValues(front), Values(r));
      assert AllValues(reports) == AllValues(front) + [Values(r)];
    } else {
      NoRecords();
    }
  }

  lemma NoRecords()
    ensures ReportRecords([]) == []
  {
    assert AllValues([]) == [];
  }

  // The size of a message as sent, from the lengths of its strings.
  lemma MessageSizeIs(s: Station, batch: seq<Report>, time: uint32, sequence: uint32, domain: uint32)
    requires Encodable(s, batch)
    ensures |MessageBytes(s, batch, time, sequence, domain)| == MessageSize(s, batch)
  {
    hide EncodeRecord, EncodeRecords, MessageBytes, EncodeField;
    MessageLength(s, batch, time, sequence, domain);
    ReceiverRecord(s);
    ReportRecordsLength(batch);
  }

  // The reports of the message in the making are written, one after the other.
  ghost predicate Pending(b: seq<byte>, start: nat, dst: nat, reports: seq<Report>)
  {
    && AllValid(reports) && |reports| <= 10
    && start + 4 <= dst == start + 4 + RecordsSize(reports) <= |b| == BUFFER_SIZE
    && b[start + 4..dst] == ReportRecords(reports)
  }

  method Prepare(buffer: Buffer, s: Station, domain: uint32) returns (start: nat)
    requires s.Accepted() && buffer.bytes.Length == BUFFER_SIZE
    modifies buffer.bytes
    ensures Ready(buffer.bytes[..], start, s, domain)
  {
    hide Splice, EncodeRecord, EncodeSet, U32, U16, Zeros, TEMPLATES;
    WriteHeader(buffer, domain);
    start := 120;
    ghost var b1 := buffer.bytes[..];
    var dst := buffer.WriteReceiver(start + 4, s);
    SpliceExtends(b1, start + 4, start + 4, EncodeRecord(RECEIVER_FIELDS, ReceiverValues(s)));
    ghost var b2 := buffer.bytes[..];
    assert b2[start + 4..dst] == EncodeRecord(RECEIVER_FIELDS, ReceiverValues(s)) by {
      assert b1[start + 4..start + 4] == [];
    }
    var size := buffer.CloseSet(start, dst, RECEIVER_SET);
    PrefixOfPrefix(b1, b2, start, start + 4);
    start := start + size;
    PrefixWritten(buffer.bytes[..], b1, start, s, domain);
  }

  method WriteHeader(buffer: Buffer, domain: uint32)
    requires buffer.bytes.Length == BUFFER_SIZE
    modifies buffer.bytes
    ensures |TEMPLATES| == 104
    ensures buffer.bytes[..2] == U16(10) && buffer.bytes[12..120] == U32(domain) + TEMPLATES
  {
    TemplatesAreSets();
    hide Splice, EncodeSet, U32, U16, TEMPLATES;
    ghost var b := buffer.bytes[..];
    var header := U16(10) + Zeros(10) + U32(domain) + TEMPLATES;
    buffer.Copy(0, header);
    HeaderCopied(b, header, domain);
  }

  lemma HeaderCopied(b: seq<byte>, header: seq<byte>, domain: uint32)
    requires |b| == BUFFER_SIZE && header == U16(10) + Zeros(10) + U32(domain) + TEMPLATES && |TEMPLATES| == 104
    ensures |header| == 120
    ensures Splice(b, 0, header)[..2] == U16(10)
    ensures Splice(b, 0, header)[12..120] == U32(domain) + TEMPLATES
  {
    var r := Splice(b, 0, header);
    assert r[..120] == header;
    assert r[..2] == r[..120][..2] && r[12..120] == r[..120][12..];
  }

  lemma PrefixWritten(b: seq<byte>, before: seq<byte>, start: nat, s: Station, domain: uint32)
    requires |b| == |before| == BUFFER_SIZE && start == 124 + Whole(26 + s.Length()) && s.Accepted()
    requires |TEMPLATES| == 104 && |ReceiverContent(s)| < 60000
    requires before[..2] == U16(10) && before[12..120] == U32(domain) + TEMPLATES
    requires b[..120] == before[..120] && b[120..start] == EncodeSet(Set(RECEIVER_SET, ReceiverContent(s)))
    ensures Ready(b, start, s, domain)
  {
    hide EncodeSet, ReceiverContent, U16, U32;
    assert b[..2] == b[..120][..2] && before[..2] == before[..120][..2];
    assert b[12..120] == b[..120][12..] && before[12..120] == before[..120][12..];
    assert b[12..start] == b[12..120] + b[120..start];
  }

  // One more report into the buffer.
  method AddReport(buffer: Buffer, start: nat, dst: nat, r: Report, ghost s: Station, ghost domain: uint32,
      ghost reports: seq<Report>)
    returns (dst': nat)
    requires buffer.bytes.Length == BUFFER_SIZE && Ready(buffer.bytes[..], start, s, domain)
    requires Pending(buffer.bytes[..], start, dst, reports) && |reports| < 10 && r.Valid()
    requires FitsBuffer(s, reports + [r])
    modifies buffer.bytes
    ensures Ready(buffer.bytes[..], start, s, domain) && Pending(buffer.bytes[..], start, dst', reports + [r])
  {
    hide Splice, EncodeRecord, EncodeRecords, Prefix, Values;
    ghost var b := buffer.bytes[..];
    dst' := buffer.WriteReport(dst, r);
    AllValuesHold(reports);
    SpliceExtends(b, start + 4, dst, EncodeRecord(REPORT_FIELDS, Values(r)));
    EncodeRecordsSnoc(REPORT_FIELDS, AllValues(reports), Values(r));
    assert AllValues(reports + [r]) == AllValues(reports) + [Values(r)];
    ReadyKept(b, buffer.bytes[..], start, start + 4, s, domain);
  }

  lemma ReadyKept(a: seq<byte>, b: seq<byte>, start: nat, n: nat, s: Station, domain: uint32)
    requires Ready(a, start, s, domain) && |b| == |a| && start <= n <= |a| && a[..n] == b[..n]
    ensures Ready(b, start, s, domain)
  {
    PrefixOfPrefix(a, b, start, n);
    PrefixOfPrefix(a, b, 12, start);
    PrefixOfPrefix(a, b, 2, start);
  }

  // Closes the report set, patches the message header, and takes the message out.
  method Send(buffer: Buffer, start: nat, dst: nat, sequence: uint32, time: uint32,
              ghost s: Station, ghost domain: uint32, ghost batch: seq<Report>)
    returns (message: seq<byte>)
    requires buffer.bytes.Length == BUFFER_SIZE && Ready(buffer.bytes[..], start, s, domain)
    requires Pending(buffer.bytes[..], start, dst, batch)
    modifies buffer.bytes
    ensures Ready(buffer.bytes[..], start, s, domain)
    ensures Encodable(s, batch) && message == MessageBytes(s, batch, time, sequence, domain)
  {
    hide Splice, Prefix, U16, U32, EncodeSet, EncodeRecords, MessageBytes;
    ghost var b0 := buffer.bytes[..];
    var size := buffer.CloseSet(start, dst, REPORT_SET);
    ghost var b1 := buffer.bytes[..];
    assert b1[start..start + size] == EncodeSet(Set(REPORT_SET, ReportContent(batch)));
    ReadyKept(b0, b1, start, start, s, domain);
    size := size + start;
    PatchMessage(buffer, size, time, sequence);
    message := buffer.bytes[..size];
    HeaderPatched(b1, start, size, U16(size) + U32(time) + U32(sequence), s, domain);
    MessageAssembled(message, start, s, domain, batch, time, sequence);
  }

  // Length, export time and sequence number, over the old ones.
  method PatchMessage(buffer: Buffer, size: nat, time: uint32, sequence: uint32)
    requires size <= buffer.bytes.Length == BUFFER_SIZE
    modifies buffer.bytes
    ensures buffer.bytes[..] == Splice(old(buffer.bytes[..]), 2, U16(size) + U32(time) + U32(sequence))
  {
    hide Splice, U16, U32;
    ghost var b := buffer.bytes[..];
    var cursor := buffer.CopyInt2(2, size);
    cursor := buffer.CopyInt4(cursor, time);
    SpliceTwice(b, 2, U16(size), U32(time));
    cursor := buffer.CopyInt4(cursor, sequence);
    SpliceTwice(b, 2, U16(size) + U32(time), U32(sequence));
  }

  lemma HeaderPatched(b: seq<byte>, start: nat, size: nat, patch: seq<byte>, s: Station, domain: uint32)
    requires Ready(b, start, s, domain) && start <= size <= |b| && |patch| == 10
    ensures var r := Splice(b, 2, patch);
      && Ready(r, start, s, domain)
      && r[..size] == b[..2] + patch + b[12..start] + b[start..size]
      && r[..size][start..] == b[start..size]
  {
    SpliceBefore(b, 2, patch, 12, start);
    SpliceBefore(b, 2, patch, 12, size);
    PatchedBytes(b, start, size, patch);
  }

  lemma PatchedBytes(b: seq<byte>, start: nat, size: nat, patch: seq<byte>)
    requires 12 <= start <= size <= |b| && |patch| == 10
    ensures var r := Splice(b, 2, patch);
      && r[..size] == b[..2] + patch + b[12..start] + b[start..size]
      && r[..size][start..] == b[start..size]
  {
    assert b[12..start] + b[start..size] == b[12..size];
  }

  lemma MessageAssembled(message: seq<byte>, start: nat, s: Station, domain: uint32, batch: seq<Report>, time: uint32,
      sequence: uint32)
    requires 16 <= start <= |message| <= BUFFER_SIZE && s.Accepted() && |ReceiverContent(s)| < 60000 && AllValid(batch)
    requires |ReportContent(batch)| < 60000
    requires start == 12 + |Prefix(s, domain)|
    requires message == U16(10) + (U16(|message|) + U32(time) + U32(sequence)) + Prefix(s, domain)
      + EncodeSet(Set(REPORT_SET, ReportContent(batch)))
    ensures Encodable(s, batch) && message == MessageBytes(s, batch, time, sequence, domain)
  {
    hide EncodeSet, ReceiverContent, ReportContent, U16, U32;
    var a, b := EncodeSet(Set(RECEIVER_SET, ReceiverContent(s))), EncodeSet(Set(REPORT_SET, ReportContent(batch)));
    assert Body(s, batch) == TEMPLATES + a + b;
    assert |message| == 16 + |Body(s, batch)|;
    Assembled(U16(10), U16(|message|), U32(time), U32(sequence), U32(domain), TEMPLATES, a, b);
  }

  lemma Assembled(v: seq<byte>, l: seq<byte>, t: seq<byte>, q: seq<byte>, d: seq<byte>, m: seq<byte>, a: seq<byte>,
      b: seq<byte>)
    ensures v + (l + t + q) + (d + m + a) + b == v + l + t + q + d + (m + a + b)
  {
  }

  // --- Lines ----------------------------------------------------------------------------

  // The lines that parse, in order; the others are skipped.
  function Reports(lines: seq<Option<Report>>): seq<Report>
  {
    if lines == [] then [] else
    Reports(lines[..|lines|-1]) + (if lines[|lines|-1].Some? then [lines[|lines|-1].value] else [])
  }

  predicate LinesValid(lines: seq<Option<Report>>)
  {
    forall i :: 0 <= i < |lines| && lines[i].Some? ==> lines[i].value.Valid()
  }

  lemma {:induction false} ReportsValid(lines: seq<Option<Report>>)
    requires LinesValid(lines)
    ensures AllValid(Reports(lines))
    decreases |lines|
  {
    if lines == [] {
    } else {
      ReportsValid(lines[..|lines| - 1]);
    }
  }

  lemma ReportsSnoc(lines: seq<Option<Report>>, i: nat)
    requires i < |lines|
    ensures Reports(lines[..i + 1]) == Reports(lines[..i]) + (if lines[i].Some? then [lines[i].value] else [])
  {
    assert lines[..i + 1][..i] == lines[..i];
  }

  lemma {:induction false} ReportsPrefix(lines: seq<Option<Report>>, i: nat)
    requires i <= |lines|
    ensures Reports(lines[..i]) <= Reports(lines)
    decreases |lines|
  {
    if i < |lines| {
      ReportsPrefix(lines[..|lines| - 1], i);
      assert lines[..|lines| - 1][..i] == lines[..i];
    } else {
      assert lines[..i] == lines;
    }
  }

  // Message k, as it is sent, is the encoded batch k.
  ghost predicate SentBatch(message: seq<byte>, reports: seq<Report>, k: nat, s: Station, domain: uint32,
      clock: nat -> uint32)
  {
    && 10 * k < |reports|
    && Encodable(s, Batch(reports, k))
    && message == MessageBytes(s, Batch(reports, k), clock(k), Pattern32(k), domain)
  }

  // The messages sent so far are the batches of the reports so far.
  ghost predicate SentAll(sent: seq<seq<byte>>, reports: seq<Report>, s: Station, domain: uint32, clock: nat -> uint32)
  {
    forall k: nat :: k < |sent| ==> SentBatch(sent[k], reports, k, s, domain, clock)
  }

  lemma SentMore(sent: seq<seq<byte>>, reports: seq<Report>, more: seq<Report>, s: Station, domain: uint32,
      clock: nat -> uint32)
    requires SentAll(sent, reports, s, domain, clock) && 10 * |sent| <= |reports|
    ensures SentAll(sent, reports + more, s, domain, clock)
  {
    hide SentBatch;
    forall k: nat | k < |sent|
      ensures SentBatch(sent[k], reports + more, k, s, domain, clock)
    {
      FullBatchStays(sent[k], reports, more, k, s, domain, clock);
    }
  }

  lemma FullBatchStays(message: seq<byte>, reports: seq<Report>, more: seq<Report>, k: nat,
                       s: Station, domain: uint32, clock: nat -> uint32)
    requires SentBatch(message, reports, k, s, domain, clock) && 10 * k + 10 <= |reports|
    ensures SentBatch(message, reports + more, k, s, domain, clock)
  {
    hide Encodable, MessageBytes;
    assert Batch(reports + more, k) == Batch(reports, k);
  }

  lemma SentOne(sent: seq<seq<byte>>, reports: seq<Report>, message: seq<byte>, s: Station, domain: uint32,
      clock: nat -> uint32)
    requires SentAll(sent, reports, s, domain, clock)
    requires 10 * |sent| < |reports| <= 10 * |sent| + 10
    requires Encodable(s, reports[10 * |sent|..])
    requires message == MessageBytes(s, reports[10 * |sent|..], clock(|sent|), Pattern32(|sent|), domain)
    ensures SentAll(sent + [message], reports, s, domain, clock)
    ensures |sent| + 1 == BatchCount(|reports|)
  {
    hide Encodable, MessageBytes;
    assert Batch(reports, |sent|) == reports[10 * |sent|..];
    BatchCountIs(|reports|, |sent|);
    BatchCountIs(|reports|, |sent| + 1);
  }

  // Main result: the program sends one message for every ten lines that parse, and
  // one for the rest; message k holds batch k and sequence number k.
  method Upload(s: Station, lines: seq<Option<Report>>, domain: uint32, clock: nat -> uint32)
    returns (ok: bool, sent: seq<seq<byte>>)
    requires LinesValid(lines)
    requires s.Accepted() ==> AllFit(s, Reports(lines))
    ensures ok <==> s.Accepted()
    ensures ok <==> |s.call| <= 16 && |s.grid| <= 6 && |s.antenna| <= 64
    ensures ok ==> |sent| == BatchCount(|Reports(lines)|) && SentAll(sent, Reports(lines), s, domain, clock)
    ensures !ok ==> sent == []
  {
    hide Ready, Pending, SentAll, Reports, MessageBytes, Encodable, AllValid;
    if |s.call| > 16 || |s.grid| > 6 || |s.antenna| > 64 {
      return false, [];
    }
    ok := true;
    var buffer := new Buffer();
    var start := Prepare(buffer, s, domain);
    var counter, dst, i := 0, start + 4, 0;
    ghost var pending: seq<Report> := [];
    sent := [];
    NothingPending(buffer.bytes[..], start, s, domain, clock);
    assert lines[..0] == [];
    while true
      invariant 0 <= i <= |lines| && fresh(buffer.bytes) && buffer.bytes.Length == BUFFER_SIZE
      invariant Ready(buffer.bytes[..], start, s, domain) && Pending(buffer.bytes[..], start, dst, pending)
      invariant counter == |pending| < 10
      invariant |Reports(lines[..i])| == 10 * |sent| + counter && pending == Reports(lines[..i])[10 * |sent|..]
      invariant SentAll(sent, Reports(lines[..i]), s, domain, clock)
      decreases |lines| - i
    {
      var eof := i == |lines|;
      if !eof {
        ghost var before := Reports(lines[..i]);
        ReportsSnoc(lines, i);
        var line := lines[i];
        i := i + 1;
        if line == None {
          assert before + [] == before;
          continue;
        }
        SentMore(sent, before, [line.value], s, domain, clock);
        assert Reports(lines[..i])[10 * |sent|..] == before[10 * |sent|..] + [line.value];
        ReportsPrefix(lines, i);
        PartFits(s, Reports(lines), Reports(lines[..i]), |sent|);
        dst := AddReport(buffer, start, dst, line.value, s, domain, pending);
        pending := pending + [line.value];
        counter := counter + 1;
        if counter < 10 {
          continue;
        }
      }
      if counter > 0 {
        var message := Send(buffer, start, dst, Pattern32(|sent|), clock(|sent|), s, domain, pending);
        SentOne(sent, Reports(lines[..i]), message, s, domain, clock);
        sent := sent + [message];
        counter, dst := 0, start + 4;
        pending := [];
        NothingPending(buffer.bytes[..], start, s, domain, clock);
      }
      if eof {
        break;
      }
    }
    assert lines[..i] == lines;
    FullBatches(|Reports(lines)|, |sent|);
  }

  lemma FullBatches(n: nat, k: nat)
    ensures n == 10 * k ==> BatchCount(n) == k
  {
    BatchCountIs(n, k);
    if k > 0 {
      BatchCountIs(n, k - 1);
    }
  }

  lemma NothingPending(b: seq<byte>, start: nat, s: Station, domain: uint32, clock: nat -> uint32)
    requires Ready(b, start, s, domain)
    ensures Pending(b, start, start + 4, [])
    ensures SentAll([], [], s, domain, clock) && Reports([]) == []
  {
    NoRecords();
    assert b[start + 4..start + 4] == [];
  }

  lemma StaysInBuffer(start: nat, size: nat, padding: nat)
    requires start % 4 == 0 && padding == Padding(size) && start + size <= 512
    ensures start + size + padding <= 512
  {
    var i, j := start / 4, (size + padding) / 4;
    assert start + size + padding == 4 * (i + j);
  }

  lemma SamePadding(n: nat)
    ensures Padding(n + 4) == Padding(n)
  {
  }

  lemma PrefixOfPrefix(a: seq<byte>, b: seq<byte>, from: nat, to: nat)
    requires from <= to <= |a| && to <= |b| && a[..to] == b[..to]
    ensures a[..from] == b[..from] && a[from..to] == b[from..to]
  {
    assert a[..from] == a[..to][..from] && b[..from] == b[..to][..from];
    assert a[from..to] == a[..to][from..] && b[from..to] == b[..to][from..];
  }

  // --- What a receiver of all the messages ends up with ---------------------------------

  // The records of a message that its template, or its options template, describes.
  function ReceivedReports(b: seq<byte>): seq<seq<seq<byte>>>
  {
    match ReadMessage(b)
    case None => []
    case Some(m) => DataRecords(m.sets, TEMPLATE_SET, m.sets)
  }

  function ReceivedStations(b: seq<byte>): seq<seq<seq<byte>>>
  {
    match ReadMessage(b)
    case None => []
    case Some(m) => DataRecords(m.sets, OPTIONS_TEMPLATE_SET, m.sets)
  }

  function ReceivedAll(messages: seq<seq<byte>>): seq<seq<seq<byte>>>
  {
    if messages == [] then [] else ReceivedAll(messages[..|messages|-1]) + ReceivedReports(messages[|messages|-1])
  }

  lemma ReceivedBatch(s: Station, batch: seq<Report>, time: uint32, sequence: uint32, domain: uint32)
    requires Encodable(s, batch)
    ensures ReceivedReports(MessageBytes(s, batch, time, sequence, domain)) == AllValues(batch)
    ensures ReceivedStations(MessageBytes(s, batch, time, sequence, domain)) == [ReceiverValues(s)]
  {
    MessageReads(s, batch, time, sequence, domain);
    CollectorReads(s, batch);
    hide ReadMessage, MessageBytes, DataRecords, MessageSets, AllValues, ReceiverValues;
  }

  lemma {:induction false} ReceivedSoFar(sent: seq<seq<byte>>, reports: seq<Report>, k: nat, s: Station,
      domain: uint32, clock: nat -> uint32)
    requires SentAll(sent, reports, s, domain, clock) && k <= |sent|
    ensures k == 0 || 10 * (k - 1) < |reports|
    ensures ReceivedAll(sent[..k]) == AllValues(BatchesUpTo(reports, k))
    decreases k
  {
    hide ReceivedReports, SentBatch, AllValues;
    if k > 0 {
      assert SentBatch(sent[k - 1], reports, k - 1, s, domain, clock);
      SentIsBatch(sent[k - 1], reports, k - 1, s, domain, clock);
      ReceivedSoFar(sent, reports, k - 1, s, domain, clock);
      assert sent[..k][..k - 1] == sent[..k - 1];
      AllValuesAppend(BatchesUpTo(reports, k - 1), Batch(reports, k - 1));
    } else {
      NoValues();
    }
  }

  lemma SentIsBatch(message: seq<byte>, reports: seq<Report>, k: nat, s: Station, domain: uint32, clock: nat -> uint32)
    requires SentBatch(message, reports, k, s, domain, clock)
    ensures 10 * k < |reports| && ReceivedReports(message) == AllValues(Batch(reports, k))
  {
    hide ReceivedReports, MessageBytes, Encodable;
    ReceivedBatch(s, Batch(reports, k), clock(k), Pattern32(k), domain);
  }

  lemma NoValues()
    ensures AllValues([]) == []
  {
  }

  lemma AllValuesAppend(a: seq<Report>, b: seq<Report>)
    ensures AllValues(a + b) == AllValues(a) + AllValues(b)
  {
  }

  // Main result: reading every message sent gives back the lines that parse, each
  // once, in order.
  lemma RoundTrip(sent: seq<seq<byte>>, lines: seq<Option<Report>>, s: Station, domain: uint32, clock: nat -> uint32)
    requires SentAll(sent, Reports(lines), s, domain, clock) && |sent| == BatchCount(|Reports(lines)|)
    ensures ReceivedAll(sent) == AllValues(Reports(lines))
  {
    hide SentBatch, ReceivedReports, Reports;
    ReceivedSoFar(sent, Reports(lines), |sent|, s, domain, clock);
    assert sent[..|sent|] == sent;
    BatchesCover(Reports(lines), |sent|);
  }

  // --- The sequence number -----------------------------------------------------------------

  // All data records that a collector finds in the messages.
  function ReceivedCount(messages: seq<seq<byte>>): nat
  {
    if messages == [] then 0 else
    var last := messages[|messages| - 1];
    ReceivedCount(messages[..|messages| - 1]) + |ReceivedStations(last)| + |ReceivedReports(last)|
  }

  // Section 3.1 of RFC 7011: a message carries the number of data records sent before it.
  predicate SequenceIsRight(sent: seq<seq<byte>>, k: nat)
    requires k < |sent|
  {
    ReadMessage(sent[k]).Some? && ReadMessage(sent[k]).value.sequence == Pattern32(ReceivedCount(sent[..k]))
  }

  lemma {:induction false} ReceivedCountIs(sent: seq<seq<byte>>, reports: seq<Report>, k: nat, s: Station,
      domain: uint32, clock: nat -> uint32)
    requires SentAll(sent, reports, s, domain, clock) && k <= |sent|
    ensures k == 0 || 10 * (k - 1) < |reports|
    ensures ReceivedCount(sent[..k]) == RecordsBefore(reports, k)
    decreases k
  {
    hide ReceivedReports, ReceivedStations, SentBatch, MessageBytes, Encodable;
    if k == 0 {
    } else {
      assert SentBatch(sent[k - 1], reports, k - 1, s, domain, clock);
      ReceivedCountIs(sent, reports, k - 1, s, domain, clock);
      assert sent[..k][..k - 1] == sent[..k - 1];
      SentCounts(sent[k - 1], reports, k - 1, s, domain, clock);
    }
  }

  lemma SentCounts(message: seq<byte>, reports: seq<Report>, k: nat, s: Station, domain: uint32, clock: nat -> uint32)
    requires SentBatch(message, reports, k, s, domain, clock)
    ensures 10 * k < |reports|
    ensures |ReceivedStations(message)| == 1 && |ReceivedReports(message)| == |Batch(reports, k)|
    ensures ReadMessage(message).Some? && ReadMessage(message).value.sequence == Pattern32(k)
  {
    hide ReceivedReports, ReceivedStations, MessageBytes, Encodable, ReadMessage;
    ReceivedBatch(s, Batch(reports, k), clock(k), Pattern32(k), domain);
    MessageReads(s, Batch(reports, k), clock(k), Pattern32(k), domain);
  }

  // Message k carries k, after 11 * k data records: right only for multiples of 2^31.
  lemma SequenceAt(sent: seq<seq<byte>>, reports: seq<Report>, k: nat, s: Station, domain: uint32, clock: nat -> uint32)
    requires SentAll(sent, reports, s, domain, clock) && k < |sent|
    ensures ReadMessage(sent[k]).Some? && ReadMessage(sent[k]).value.sequence == Pattern32(k)
    ensures ReceivedCount(sent[..k]) == 11 * k
    ensures SequenceIsRight(sent, k) <==> k % 0x8000_0000 == 0
  {
    hide SentBatch, ReceivedCount, ReadMessage;
    assert SentBatch(sent[k], reports, k, s, domain, clock);
    SentCounts(sent[k], reports, k, s, domain, clock);
    ReceivedCountIs(sent, reports, k, s, domain, clock);
    RecordsBeforeIs(reports, k);
    CountsAgree(k);
  }

  // Main result: all sequence numbers count the data records before them exactly when one
  // message is enough for the reports.
  lemma SequenceCountsRecords(sent: seq<seq<byte>>, reports: seq<Report>, s: Station, domain: uint32,
      clock: nat -> uint32)
    requires SentAll(sent, reports, s, domain, clock) && |sent| == BatchCount(|reports|)
    ensures (forall k: nat :: k < |sent| ==> SequenceIsRight(sent, k)) <==> |reports| <= 10
  {
    hide SentAll, SequenceIsRight;
    BatchCountIs(|reports|, 1);
    if |reports| <= 10 {
      forall k: nat | k < |sent|
        ensures SequenceIsRight(sent, k)
      {
        SequenceAt(sent, reports, k, s, domain, clock);
      }
    } else {
      SequenceAt(sent, reports, 1, s, domain, clock);
    }
  }

  // Eleven lines are two messages; the second says 1 after eleven records.
  method ElevenLines(domain: uint32, clock: nat -> uint32) returns (sent: seq<seq<byte>>)
    ensures |sent| == 2 && ReceivedCount(sent[..1]) == 11
    ensures ReadMessage(sent[1]).Some? && ReadMessage(sent[1]).value.sequence == 1
    ensures !SequenceIsRight(sent, 1)
  {
    hide SentAll, SequenceIsRight, ReceivedCount, ReadMessage, Reports;
    var s := Station([], [], []);
    var line := Report([], [], 0, 0, 0);
    var lines := seq(11, _ => Some(line));
    SameLines(line, 11);
    ShortStationFits(s, Reports(lines));
    var ok;
    ok, sent := Upload(s, lines, domain, clock);
    SequenceAt(sent, Reports(lines), 1, s, domain, clock);
  }

  lemma ShortStationFits(s: Station, reports: seq<Report>)
    requires s.Length() <= 26 && AllValid(reports)
    ensures AllFit(s, reports)
  {
    RoomForAnyBatch(s);
    hide FitsBuffer;
    forall k: nat | 10 * k < |reports|
      ensures FitsBuffer(s, Batch(reports, k))
    {
      assert AllValid(Batch(reports, k)) && |Batch(reports, k)| <= 10;
    }
  }

  lemma {:induction false} SameLines(line: Report, n: nat)
    ensures Reports(seq(n, _ => Some(line))) == seq(n, _ => line)
  {
    if n == 0 {
    } else {
      var lines := seq(n, _ => Some(line));
      assert lines[..n - 1] == seq(n - 1, _ => Some(line));
      SameLines(line, n - 1);
    }
  }
}

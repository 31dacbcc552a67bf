/** The messages of the spot uploader: what one of them holds, and that a reader
    finds in it what was put in. */
module UploadFormat {
  import opened Widths
  import opened Arith
  import opened Samples
  import opened IpfixFormat

  const OPTIONS_TEMPLATE_SET: uint16 := 3
  const TEMPLATE_SET: uint16 := 2
  const RECEIVER_SET: uint16 := 0x9992
  const REPORT_SET: uint16 := 0x9993

  // The two template sets, as bytes: set header, template header, field specifiers.
  const OPTIONS_HEAD: seq<byte> := [0x00, 0x03, 0x00, 0x2C]
  const OPTIONS_TEMPLATE: seq<byte> := [0x99, 0x92, 0x00, 0x04, 0x00, 0x00]
  const OPTIONS_SPECIFIERS: seq<byte> :=
    [0x80, 0x02, 0xFF, 0xFF, 0x00, 0x00, 0x76, 0x8F] + (
    [0x80, 0x04, 0xFF, 0xFF, 0x00, 0x00, 0x76, 0x8F] + (
    [0x80, 0x08, 0xFF, 0xFF, 0x00, 0x00, 0x76, 0x8F] + (
    [0x80, 0x09, 0xFF, 0xFF, 0x00, 0x00, 0x76, 0x8F] +
    [0x00, 0x00])))
  const DATA_HEAD: seq<byte> := [0x00, 0x02, 0x00, 0x3C]
  const DATA_TEMPLATE: seq<byte> := [0x99, 0x93, 0x00, 0x07]
  const DATA_SPECIFIERS: seq<byte> :=
    [0x80, 0x01, 0xFF, 0xFF, 0x00, 0x00, 0x76, 0x8F] + (
    [0x80, 0x03, 0xFF, 0xFF, 0x00, 0x00, 0x76, 0x8F] + (
    [0x80, 0x05, 0x00, 0x04, 0x00, 0x00, 0x76, 0x8F] + (
    [0x80, 0x06, 0x00, 0x01, 0x00, 0x00, 0x76, 0x8F] + (
    [0x80, 0x0A, 0xFF, 0xFF, 0x00, 0x00, 0x76, 0x8F] + (
    [0x80, 0x0B, 0x00, 0x01, 0x00, 0x00, 0x76, 0x8F] +
    [0x00, 0x96, 0x00, 0x04])))))
  const TEMPLATES: seq<byte> :=
    OPTIONS_HEAD + (OPTIONS_TEMPLATE + OPTIONS_SPECIFIERS) + (DATA_HEAD + (DATA_TEMPLATE + DATA_SPECIFIERS))

  const RECEIVER_FIELDS: seq<FieldLength> := [Variable, Variable, Variable, Variable]
  const REPORT_FIELDS: seq<FieldLength> := [Variable, Variable, Fixed(4), Fixed(1), Variable, Fixed(1), Fixed(4)]

  // "Red Pitaya FT8 TRX 1.0"
  const SOFT: Text := [82, 101, 100, 32, 80, 105, 116, 97, 121, 97, 32, 70, 84, 56, 32, 84, 82, 88, 32, 49, 46, 48]
  // "FT8"
  const MODE: Text := [70, 84, 56]

  // --- The templates say what the reader assumes -----------------------------------

  // The field lengths that n field specifiers declare; the top bit of an element
  // number announces an enterprise number after the length.
  function Declared(b: seq<byte>, n: nat): Option<seq<FieldLength>>
    decreases n
  {
    if n == 0 then Some([]) else
    if |b| < 4 then None else
    var skip := if b[0] >= 0x80 then 8 else 4;
    if |b| < skip then None else
    match Declared(b[skip..], n - 1)
    case None => None
    case Some(rest) => Some([if Get16(b[2..]) == 0xFFFF then Variable else Fixed(Get16(b[2..]))] + rest)
  }

  function Specifier(id: uint16, f: uint16): seq<byte>
  {
    U16(id) + U16(f) + (if id >= 0x8000 then [0x00, 0x00, 0x76, 0x8F] else [])
  }

  lemma DeclaredStep(id: uint16, f: uint16, rest: seq<byte>, n: nat)
    requires Declared(rest, n).Some?
    ensures Declared(Specifier(id, f) + rest, n + 1)
         == Some([if f == 0xFFFF then Variable else Fixed(f)] + Declared(rest, n).value)
  {
    var b := Specifier(id, f) + rest;
    assert b == U16(id) + (U16(f) + (if id >= 0x8000 then [0x00, 0x00, 0x76, 0x8F] else []) + rest);
    assert b[2..] == U16(f) + ((if id >= 0x8000 then [0x00, 0x00, 0x76, 0x8F] else []) + rest);
    Get16OfU16(f, (if id >= 0x8000 then [0x00, 0x00, 0x76, 0x8F] else []) + rest);
    assert b[(if id >= 0x8000 then 8 else 4)..] == rest;
  }

  const RECEIVER_TEMPLATE: Set := Set(OPTIONS_TEMPLATE_SET, OPTIONS_TEMPLATE + OPTIONS_SPECIFIERS)
  const REPORT_TEMPLATE: Set := Set(TEMPLATE_SET, DATA_TEMPLATE + DATA_SPECIFIERS)

  lemma EnterpriseSpecifier(id: uint16, f: uint16)
    requires id >= 0x8000
    ensures Specifier(id, f) == [id / 256, id % 256, f / 256, f % 256, 0x00, 0x00, 0x76, 0x8F]
  {
  }

  // The options template declares four variable fields, after its own number, the
  // field count and the scope count; the rest is padding.
  lemma ReceiverTemplateDeclares()
    ensures OPTIONS_TEMPLATE == U16(RECEIVER_SET) + U16(|RECEIVER_FIELDS|) + U16(0)
    ensures Declared(OPTIONS_SPECIFIERS, 4) == Some(RECEIVER_FIELDS)
  {
    OptionsSpecifierRows();
    hide Declared, Specifier;
    var end: seq<byte> := [0x00, 0x00];
    var r4 := Specifier(0x8009, 0xFFFF) + end;
    var r3 := Specifier(0x8008, 0xFFFF) + r4;
    var r2 := Specifier(0x8004, 0xFFFF) + r3;
    assert [Variable] + ([Variable] + ([Variable] + ([Variable] + []))) == RECEIVER_FIELDS;
    NothingDeclared(end);
    DeclaredStep(0x8009, 0xFFFF, end, 0);
    DeclaredStep(0x8008, 0xFFFF, r4, 1);
    DeclaredStep(0x8004, 0xFFFF, r3, 2);
    DeclaredStep(0x8002, 0xFFFF, r2, 3);
  }

  lemma OptionsSpecifierRows()
    ensures OPTIONS_SPECIFIERS ==
      Specifier(0x8002, 0xFFFF) + (Specifier(0x8004, 0xFFFF) + (Specifier(0x8008, 0xFFFF) +
      (Specifier(0x8009, 0xFFFF) + [0x00, 0x00])))
  {
    EnterpriseSpecifier(0x8002, 0xFFFF);
    EnterpriseSpecifier(0x8004, 0xFFFF);
    EnterpriseSpecifier(0x8008, 0xFFFF);
    EnterpriseSpecifier(0x8009, 0xFFFF);
    hide Specifier;
  }

  // The data template declares the seven fields of a report.
  lemma ReportTemplateDeclares()
    ensures DATA_TEMPLATE == U16(REPORT_SET) + U16(|REPORT_FIELDS|)
    ensures Declared(DATA_SPECIFIERS, 7) == Some(REPORT_FIELDS)
  {
    DataSpecifierRows();
    hide Declared, Specifier;
    var end := Specifier(0x0096, 4);
    assert end + [] == end;
    var r6 := Specifier(0x800B, 1) + end;
    var r5 := Specifier(0x800A, 0xFFFF) + r6;
    var r4 := Specifier(0x8006, 1) + r5;
    var r3 := Specifier(0x8005, 4) + r4;
    var r2 := Specifier(0x8003, 0xFFFF) + r3;
    assert [Variable] + ([Variable] + ([Fixed(4)] + ([Fixed(1)] + ([Variable] + ([Fixed(1)] + ([Fixed(4)] + []))))))
        == REPORT_FIELDS;
    NothingDeclared([]);
    DeclaredStep(0x0096, 4, [], 0);
    DeclaredStep(0x800B, 1, end, 1);
    DeclaredStep(0x800A, 0xFFFF, r6, 2);
    DeclaredStep(0x8006, 1, r5, 3);
    DeclaredStep(0x8005, 4, r4, 4);
    DeclaredStep(0x8003, 0xFFFF, r3, 5);
    DeclaredStep(0x8001, 0xFFFF, r2, 6);
  }

  lemma DataSpecifierRows()
    ensures DATA_SPECIFIERS ==
      Specifier(0x8001, 0xFFFF) + (Specifier(0x8003, 0xFFFF) + (Specifier(0x8005, 4) + (Specifier(0x8006, 1) +
      (Specifier(0x800A, 0xFFFF) + (Specifier(0x800B, 1) + Specifier(0x0096, 4))))))
  {
    assert Specifier(0x0096, 4) == [0x00, 0x96, 0x00, 0x04];
    EnterpriseSpecifier(0x8001, 0xFFFF);
    EnterpriseSpecifier(0x8003, 0xFFFF);
    EnterpriseSpecifier(0x8005, 4);
    EnterpriseSpecifier(0x8006, 1);
    EnterpriseSpecifier(0x800A, 0xFFFF);
    EnterpriseSpecifier(0x800B, 1);
    hide Specifier;
  }

  lemma NothingDeclared(b: seq<byte>)
    ensures Declared(b, 0) == Some([])
  {
  }

  lemma TemplatesAreSets()
    ensures EncodeSet(RECEIVER_TEMPLATE) + EncodeSet(REPORT_TEMPLATE) == TEMPLATES
    ensures |TEMPLATES| == 104 && |RECEIVER_TEMPLATE.content| == 40 && |REPORT_TEMPLATE.content| == 56
  {
    assert OPTIONS_HEAD == U16(3) + U16(44) && DATA_HEAD == U16(2) + U16(60);
  }

  // --- What is reported ---------------------------------------------------------------

  // A string as arguments and conversions deliver it: the bytes before the terminating zero.
  type Text = s: seq<byte> | forall i :: 0 <= i < |s| ==> s[i] != 0

  // A decoded line; the three numbers are 32-bit integers.
  datatype Report = Report(call: Text, grid: Text, freq: int, snr: int, time: int)
  {
    predicate Valid() { |call| <= 13 && |grid| <= 4 }
  }

  // Numbers go out as two's complement patterns, cut to their width.
  function Pattern32(v: int): uint32 { v % 0x1_0000_0000 }

  function Pattern8(v: int): byte { v % 256 }

  function Values(r: Report): seq<seq<byte>>
  {
    [r.call, r.grid, U32(Pattern32(r.freq)), [Pattern8(r.snr)], MODE, [1], U32(Pattern32(r.time + 15))]
  }

  lemma ValuesHold(r: Report)
    requires r.Valid()
    ensures RecordHolds(REPORT_FIELDS, Values(r))
  {
  }

  // The number a reader makes of a signed octet, and when it is the number reported.
  function Octet(b: byte): int { if b >= 128 then b - 256 else b }

  lemma SnrSurvives(snr: int)
    ensures Octet(Pattern8(snr)) == snr <==> -128 <= snr < 128
  {
  }

  function AllValues(reports: seq<Report>): (v: seq<seq<seq<byte>>>)
    ensures |v| == |reports|
  {
    seq(|reports|, i requires 0 <= i < |reports| => Values(reports[i]))
  }

  predicate AllValid(reports: seq<Report>)
  {
    forall i :: 0 <= i < |reports| ==> reports[i].Valid()
  }

  lemma AllValuesHold(reports: seq<Report>)
    requires AllValid(reports)
    ensures forall i :: 0 <= i < |reports| ==> RecordHolds(REPORT_FIELDS, AllValues(reports)[i])
  {
    forall i | 0 <= i < |reports|
      ensures RecordHolds(REPORT_FIELDS, AllValues(reports)[i])
    {
      ValuesHold(reports[i]);
    }
  }

  datatype Station = Station(call: Text, grid: Text, antenna: Text)
  {
    // The lengths the program accepts.
    predicate Accepted() { |call| <= 16 && |grid| <= 6 && |antenna| <= 64 }

    function Length(): nat { |call| + |grid| + |antenna| }
  }

  function ReceiverValues(s: Station): seq<seq<byte>> { [s.call, s.grid, SOFT, s.antenna] }

  lemma ReceiverHolds(s: Station)
    requires s.Accepted()
    ensures RecordHolds(RECEIVER_FIELDS, ReceiverValues(s))
  {
  }

  // The element number at place i of the field specifiers.
  predicate NumberAt(b: seq<byte>, i: nat, high: byte, low: byte) { i + 1 < |b| && b[i] == high && b[i + 1] == low }

  // The value of each field is the one that the template announces by its element number.
  lemma StationFields(s: Station)
    ensures NumberAt(OPTIONS_SPECIFIERS, 0, 0x80, 0x02) && ReceiverValues(s)[0] == s.call
    ensures NumberAt(OPTIONS_SPECIFIERS, 8, 0x80, 0x04) && ReceiverValues(s)[1] == s.grid
    ensures NumberAt(OPTIONS_SPECIFIERS, 16, 0x80, 0x08) && ReceiverValues(s)[2] == SOFT
    ensures NumberAt(OPTIONS_SPECIFIERS, 24, 0x80, 0x09) && ReceiverValues(s)[3] == s.antenna
  {
  }

  // The numbers are read as big-endian patterns; the time reported is the end of the slot.
  lemma ReportFields(r: Report)
    ensures NumberAt(DATA_SPECIFIERS, 0, 0x80, 0x01) && Values(r)[0] == r.call
    ensures NumberAt(DATA_SPECIFIERS, 8, 0x80, 0x03) && Values(r)[1] == r.grid
    ensures NumberAt(DATA_SPECIFIERS, 16, 0x80, 0x05) && BigEndian(Values(r)[2], r.freq)
    ensures NumberAt(DATA_SPECIFIERS, 24, 0x80, 0x06) && Values(r)[3] == [r.snr % 256]
    ensures NumberAt(DATA_SPECIFIERS, 32, 0x80, 0x0A) && Values(r)[4] == MODE
    ensures NumberAt(DATA_SPECIFIERS, 40, 0x80, 0x0B) && Values(r)[5] == [1]
    ensures NumberAt(DATA_SPECIFIERS, 48, 0x00, 0x96) && BigEndian(Values(r)[6], r.time + 15)
  {
    DataNumbers();
    hide BigEndian, U32, Pattern32, DATA_SPECIFIERS;
    PatternOrder(r.freq);
    PatternOrder(r.time + 15);
  }

  lemma DataNumbers()
    ensures NumberAt(DATA_SPECIFIERS, 0, 0x80, 0x01) && NumberAt(DATA_SPECIFIERS, 8, 0x80, 0x03)
    ensures NumberAt(DATA_SPECIFIERS, 16, 0x80, 0x05) && NumberAt(DATA_SPECIFIERS, 24, 0x80, 0x06)
    ensures NumberAt(DATA_SPECIFIERS, 32, 0x80, 0x0A) && NumberAt(DATA_SPECIFIERS, 40, 0x80, 0x0B)
    ensures NumberAt(DATA_SPECIFIERS, 48, 0x00, 0x96)
  {
  }

  lemma PatternOrder(v: int)
    ensures BigEndian(U32(Pattern32(v)), v)
  {
    hide U32;
    U32Places(Pattern32(v));
  }

  // A report on the wire: the strings with their lengths in front, the other fields as they are.
  lemma RecordBytes(r: Report)
    requires r.Valid()
    ensures RecordHolds(REPORT_FIELDS, Values(r))
    ensures EncodeRecord(REPORT_FIELDS, Values(r)) ==
      ([|r.call|] + r.call) + ([|r.grid|] + r.grid) + U32(Pattern32(r.freq))
      + [r.snr % 256] + ([3] + MODE) + [1] + U32(Pattern32(r.time + 15))
  {
    ValuesHold(r);
    SevenFields(REPORT_FIELDS, Values(r));
    hide U32, Pattern32, EncodeRecord;
  }

  lemma SevenFields(f: seq<FieldLength>, v: seq<seq<byte>>)
    requires RecordHolds(f, v) && |f| == 7
    ensures EncodeRecord(f, v) == EncodeField(f[0], v[0]) + EncodeField(f[1], v[1]) + EncodeField(f[2], v[2])
      + EncodeField(f[3], v[3]) + EncodeField(f[4], v[4]) + EncodeField(f[5], v[5]) + EncodeField(f[6], v[6])
  {
    hide EncodeRecord, EncodeField;
    FieldsFrom(f, v, 0);
    FieldsFrom(f, v, 1);
    FieldsFrom(f, v, 2);
    FieldsFrom(f, v, 3);
    FieldsFrom(f, v, 4);
    FieldsFrom(f, v, 5);
    FieldsFrom(f, v, 6);
    assert f[0..] == f && v[0..] == v;
    SevenParts(EncodeField(f[0], v[0]), EncodeField(f[1], v[1]), EncodeField(f[2], v[2]), EncodeField(f[3], v[3]),
      EncodeField(f[4], v[4]), EncodeField(f[5], v[5]), EncodeField(f[6], v[6]));
  }

  lemma SevenParts(a: seq<byte>, b: seq<byte>, c: seq<byte>, d: seq<byte>, e: seq<byte>, g: seq<byte>, h: seq<byte>)
    ensures a + (b + (c + (d + (e + (g + (h + [])))))) == a + b + c + d + e + g + h
  {
  }

  predicate BigEndian(b: seq<byte>, v: int)
  {
    var p := v % 0x1_0000_0000;
    b == [p / 0x100_0000, p / 0x1_0000 % 256, p / 0x100 % 256, p % 256]
  }

  // Content with zeros to a multiple of four.
  function Filled(content: seq<byte>): seq<byte> { content + Zeros(Padding(|content|)) }

  function ReceiverContent(s: Station): seq<byte>
    requires s.Accepted()
  {
    ReceiverHolds(s);
    Filled(EncodeRecord(RECEIVER_FIELDS, ReceiverValues(s)))
  }

  function ReportContent(batch: seq<Report>): seq<byte>
    requires AllValid(batch)
  {
    AllValuesHold(batch);
    Filled(EncodeRecords(REPORT_FIELDS, AllValues(batch)))
  }

  function MessageSets(s: Station, batch: seq<Report>): seq<Set>
    requires s.Accepted() && AllValid(batch)
  {
    [RECEIVER_TEMPLATE, REPORT_TEMPLATE, Set(RECEIVER_SET, ReceiverContent(s)), Set(REPORT_SET, ReportContent(batch))]
  }

  // A message as sent.
  function Body(s: Station, batch: seq<Report>): seq<byte>
    requires s.Accepted() && AllValid(batch) && |ReceiverContent(s)| < 60000 && |ReportContent(batch)| < 60000
  {
    TEMPLATES + EncodeSet(Set(RECEIVER_SET, ReceiverContent(s))) + EncodeSet(Set(REPORT_SET, ReportContent(batch)))
  }

  predicate Encodable(s: Station, batch: seq<Report>)
  {
    && s.Accepted() && AllValid(batch)
    && |ReceiverContent(s)| < 60000 && |ReportContent(batch)| < 60000
    && 16 + |Body(s, batch)| < 0x1_0000
  }

  function MessageBytes(s: Station, batch: seq<Report>, time: uint32, sequence: uint32, domain: uint32): seq<byte>
    requires Encodable(s, batch)
  {
    EncodeHeader(16 + |Body(s, batch)|, time, sequence, domain) + Body(s, batch)
  }

  // Main result: the reader consumes a message exactly and finds its four sets ...
  lemma MessageReads(s: Station, batch: seq<Report>, time: uint32, sequence: uint32, domain: uint32)
    requires Encodable(s, batch)
    ensures ReadMessage(MessageBytes(s, batch, time, sequence, domain))
         == Some(Message(time, sequence, domain, MessageSets(s, batch)))
  {
    TemplatesAreSets();
    hide ReceiverContent, ReportContent, EncodeSet, ReadMessage, EncodeHeader;
    FourSetMessage(RECEIVER_TEMPLATE, REPORT_TEMPLATE, Set(RECEIVER_SET, ReceiverContent(s)),
      Set(REPORT_SET, ReportContent(batch)),
      Body(s, batch), time, sequence, domain);
  }

  lemma FourSetMessage(a: Set, b: Set, c: Set, d: Set, body: seq<byte>, time: uint32, sequence: uint32, domain: uint32)
    requires a.Fits() && b.Fits() && c.Fits() && d.Fits()
    requires body == EncodeSet(a) + EncodeSet(b) + EncodeSet(c) + EncodeSet(d) && 16 + |body| < 0x1_0000
    ensures ReadMessage(EncodeHeader(16 + |body|, time, sequence, domain) + body)
         == Some(Message(time, sequence, domain, [a, b, c, d]))
  {
    hide ReadSets, EncodeSet, EncodeHeader, ReadMessage;
    FourSets(a, b, c, d);
    ReadMessageOf(time, sequence, domain, body);
  }

  // Byte by byte: version 10, the length, the time, the sequence number and the domain.
  lemma HeaderPlaces(s: Station, batch: seq<Report>, time: uint32, sequence: uint32, domain: uint32)
    requires Encodable(s, batch)
    ensures var m := MessageBytes(s, batch, time, sequence, domain);
      && |m| >= 16 && m[0..4] == [0, 10, |m| / 256, |m| % 256]
      && BigEndian(m[4..8], time) && BigEndian(m[8..12], sequence) && BigEndian(m[12..16], domain)
  {
    hide ReceiverContent, ReportContent, Body, EncodeHeader, BigEndian;
    var header := EncodeHeader(16 + |Body(s, batch)|, time, sequence, domain);
    HeaderBytes(16 + |Body(s, batch)|, time, sequence, domain);
    StartOfMessage(header, Body(s, batch));
  }

  lemma HeaderBytes(length: uint16, time: uint32, sequence: uint32, domain: uint32)
    ensures var h := EncodeHeader(length, time, sequence, domain);
      && |h| == 16 && h[0..4] == [0, 10, length / 256, length % 256]
      && BigEndian(h[4..8], time) && BigEndian(h[8..12], sequence) && BigEndian(h[12..16], domain)
  {
    hide BigEndian, U32;
    NetworkOrder(time);
    NetworkOrder(sequence);
    NetworkOrder(domain);
    assert U16(10) + U16(length) == [0, 10, length / 256, length % 256];
    hide U16;
    FiveParts(U16(10), U16(length), U32(time), U32(sequence), U32(domain));
  }

  lemma NetworkOrder(v: uint32)
    ensures BigEndian(U32(v), v)
  {
    U32Places(v);
    hide U32;
  }

  lemma FiveParts(a: seq<byte>, b: seq<byte>, c: seq<byte>, d: seq<byte>, e: seq<byte>)
    requires |a| == |b| == 2 && |c| == |d| == |e| == 4
    ensures var h := a + b + c + d + e;
      |h| == 16 && h[0..4] == a + b && h[4..8] == c && h[8..12] == d && h[12..16] == e
  {
  }

  lemma StartOfMessage(h: seq<byte>, body: seq<byte>)
    requires |h| == 16
    ensures var m := h + body;
      m[0..4] == h[0..4] && m[4..8] == h[4..8] && m[8..12] == h[8..12] && m[12..16] == h[12..16]
  {
  }

  // ... and its length is a multiple of four, as is that of each data set.
  lemma MessageIsWhole(s: Station, batch: seq<Report>, time: uint32, sequence: uint32, domain: uint32)
    requires Encodable(s, batch)
    ensures |MessageBytes(s, batch, time, sequence, domain)| % 4 == 0
  {
    hide ReceiverContent, ReportContent, MessageBytes, Body;
    FilledLength(s, batch);
    MessageLength(s, batch, time, sequence, domain);
    SumOfFours(|ReceiverContent(s)|, |ReportContent(batch)|);
  }

  lemma MessageLength(s: Station, batch: seq<Report>, time: uint32, sequence: uint32, domain: uint32)
    requires Encodable(s, batch)
    ensures |MessageBytes(s, batch, time, sequence, domain)| == 128 + |ReceiverContent(s)| + |ReportContent(batch)|
  {
    TemplatesAreSets();
    hide ReceiverContent, ReportContent, EncodeSet;
    EncodedLength(Set(RECEIVER_SET, ReceiverContent(s)));
    EncodedLength(Set(REPORT_SET, ReportContent(batch)));
  }

  lemma SumOfFours(a: nat, b: nat)
    requires a % 4 == 0 && b % 4 == 0
    ensures (128 + a + b) % 4 == 0
  {
    var i, j := a / 4, b / 4;
    assert 128 + a + b == 4 * (32 + i + j);
  }

  lemma EncodedLength(s: Set)
    requires s.Fits()
    ensures |EncodeSet(s)| == 4 + |s.content|
  {
  }

  lemma FourSets(a: Set, b: Set, c: Set, d: Set)
    requires a.Fits() && b.Fits() && c.Fits() && d.Fits()
    ensures ReadSets(EncodeSet(a) + EncodeSet(b) + EncodeSet(c) + EncodeSet(d)) == Some([a, b, c, d])
  {
    NoSets();
    hide ReadSets, EncodeSet;
    var cd := EncodeSet(c) + EncodeSet(d);
    ReadSetsStep(d, []);
    assert EncodeSet(d) + [] == EncodeSet(d);
    ReadSetsStep(c, EncodeSet(d));
    ReadSetsStep(b, cd);
    ReadSetsStep(a, EncodeSet(b) + cd);
    assert EncodeSet(a) + EncodeSet(b) + EncodeSet(c) + EncodeSet(d) == EncodeSet(a) + (EncodeSet(b) + cd);
    assert [a] + ([b] + ([c] + ([d] + []))) == [a, b, c, d];
  }

  lemma NoSets()
    ensures ReadSets([]) == Some([])
  {
  }

  lemma FilledLength(s: Station, batch: seq<Report>)
    requires s.Accepted() && AllValid(batch)
    ensures |ReceiverContent(s)| % 4 == 0 && |ReportContent(batch)| % 4 == 0
  {
    hide EncodeRecord, EncodeRecords;
    ReceiverHolds(s);
    AllValuesHold(batch);
    FilledIsWhole(EncodeRecord(RECEIVER_FIELDS, ReceiverValues(s)));
    FilledIsWhole(EncodeRecords(REPORT_FIELDS, AllValues(batch)));
  }

  lemma FilledIsWhole(content: seq<byte>)
    ensures |Filled(content)| % 4 == 0
  {
  }

  // In the data sets it finds the station's record and the batch's, with padding
  // shorter than any record.
  lemma RecordsRead(s: Station, batch: seq<Report>)
    requires s.Accepted() && AllValid(batch)
    ensures MinRecord(RECEIVER_FIELDS) == 4 && MinRecord(REPORT_FIELDS) == 13
    ensures var r := ReadRecords(RECEIVER_FIELDS, ReceiverContent(s));
      r.Some? && r.value.0 == [ReceiverValues(s)] && |r.value.1| <= 3
    ensures var r := ReadRecords(REPORT_FIELDS, ReportContent(batch));
      r.Some? && r.value.0 == AllValues(batch) && |r.value.1| <= 3
  {
    MinSizes();
    hide ReadRecords, MinRecord, EncodeRecord, EncodeRecords;
    ReceiverHolds(s);
    AllValuesHold(batch);
    OneRecord(RECEIVER_FIELDS, ReceiverValues(s));
    ReadEncodedRecords(RECEIVER_FIELDS, [ReceiverValues(s)],
      Zeros(Padding(|EncodeRecord(RECEIVER_FIELDS, ReceiverValues(s))|)));
    ReadEncodedRecords(REPORT_FIELDS, AllValues(batch),
      Zeros(Padding(|EncodeRecords(REPORT_FIELDS, AllValues(batch))|)));
  }

  lemma OneRecord(fields: seq<FieldLength>, values: seq<seq<byte>>)
    requires RecordHolds(fields, values)
    ensures EncodeRecords(fields, [values]) == EncodeRecord(fields, values)
  {
    assert [values][1..] == [];
  }

  lemma MinSizes()
    ensures MinRecord(RECEIVER_FIELDS) == 4 && MinRecord(REPORT_FIELDS) == 13
  {
    MinRecordStep(RECEIVER_FIELDS); MinRecordStep(RECEIVER_FIELDS[1..]);
    MinRecordStep(RECEIVER_FIELDS[1..][1..]); MinRecordStep(RECEIVER_FIELDS[1..][1..][1..]);
    var f := REPORT_FIELDS;
    MinRecordStep(f); MinRecordStep(f[1..]); MinRecordStep(f[1..][1..]); MinRecordStep(f[1..][1..][1..]);
    MinRecordStep(f[1..][1..][1..][1..]); MinRecordStep(f[1..][1..][1..][1..][1..]);
    MinRecordStep(f[1..][1..][1..][1..][1..][1..]);
  }

  lemma MinRecordStep(fields: seq<FieldLength>)
    requires fields != []
    ensures MinRecord(fields) == fields[0].MinSize() + MinRecord(fields[1..])
  {
  }

  // --- A collector that knows no constants -------------------------------------------------

  // The fields of the data sets `id`, as a template set of this kind in the same message
  // declares them. An options template has a scope count between its field count and its
  // specifiers.
  function TemplateFor(sets: seq<Set>, kind: uint16, id: uint16): Option<seq<FieldLength>>
  {
    if sets == [] then None else
    var c, head := sets[0].content, if kind == OPTIONS_TEMPLATE_SET then 6 else 4;
    if sets[0].id == kind && |c| >= head && Get16(c) == id then Declared(c[head..], Get16(c[2..]))
    else TemplateFor(sets[1..], kind, id)
  }

  function SetRecords(all: seq<Set>, kind: uint16, s: Set): seq<seq<seq<byte>>>
  {
    match TemplateFor(all, kind, s.id)
    case None => []
    case Some(fields) =>
      if MinRecord(fields) == 0 then [] else
      match ReadRecords(fields, s.content)
      case None => []
      case Some((records, _)) => records
  }

  // The records of all data sets that a template of this kind describes.
  function DataRecords(all: seq<Set>, kind: uint16, sets: seq<Set>): seq<seq<seq<byte>>>
  {
    if sets == [] then [] else DataRecords(all, kind, sets[..|sets|-1]) + SetRecords(all, kind, sets[|sets|-1])
  }

  lemma TemplateStep(s: Set, rest: seq<Set>, kind: uint16, id: uint16)
    ensures var head := if kind == OPTIONS_TEMPLATE_SET then 6 else 4;
      TemplateFor([s] + rest, kind, id) ==
        if s.id == kind && |s.content| >= head && Get16(s.content) == id
        then Declared(s.content[head..], Get16(s.content[2..]))
        else TemplateFor(rest, kind, id)
  {
    hide Declared, Get16;
    assert ([s] + rest)[1..] == rest;
  }

  // What the two templates say when they are read back.
  lemma TemplateHeads()
    ensures |RECEIVER_TEMPLATE.content| >= 6 && |REPORT_TEMPLATE.content| >= 4
    ensures Get16(RECEIVER_TEMPLATE.content) == RECEIVER_SET && Get16(REPORT_TEMPLATE.content) == REPORT_SET
    ensures Declared(RECEIVER_TEMPLATE.content[6..], Get16(RECEIVER_TEMPLATE.content[2..])) == Some(RECEIVER_FIELDS)
    ensures Declared(REPORT_TEMPLATE.content[4..], Get16(REPORT_TEMPLATE.content[2..])) == Some(REPORT_FIELDS)
  {
    ReceiverTemplateDeclares();
    ReportTemplateDeclares();
    hide Declared, OPTIONS_SPECIFIERS, DATA_SPECIFIERS;
    assert RECEIVER_TEMPLATE.content[6..] == OPTIONS_SPECIFIERS && REPORT_TEMPLATE.content[4..] == DATA_SPECIFIERS;
  }

  lemma TemplatesFound(c: Set, d: Set, id: uint16)
    requires c.id >= 256 && d.id >= 256
    ensures var sets := [RECEIVER_TEMPLATE, REPORT_TEMPLATE, c, d];
      && TemplateFor(sets, OPTIONS_TEMPLATE_SET, id) == (if id == RECEIVER_SET then Some(RECEIVER_FIELDS) else None)
      && TemplateFor(sets, TEMPLATE_SET, id) == (if id == REPORT_SET then Some(REPORT_FIELDS) else None)
  {
    TemplateHeads();
    hide Declared, Get16, TemplateFor;
    NoTemplate(OPTIONS_TEMPLATE_SET, id);
    NoTemplate(TEMPLATE_SET, id);
    StepAll(RECEIVER_TEMPLATE, REPORT_TEMPLATE, c, d, OPTIONS_TEMPLATE_SET, id);
    StepAll(RECEIVER_TEMPLATE, REPORT_TEMPLATE, c, d, TEMPLATE_SET, id);
  }

  lemma NoTemplate(kind: uint16, id: uint16)
    ensures TemplateFor([], kind, id) == None
  {
  }

  lemma StepAll(a: Set, b: Set, c: Set, d: Set, kind: uint16, id: uint16)
    requires c.id != kind && d.id != kind
    ensures var head, rest := if kind == OPTIONS_TEMPLATE_SET then 6 else 4, TemplateFor([], kind, id);
      TemplateFor([a, b, c, d], kind, id) ==
        if a.id == kind && |a.content| >= head && Get16(a.content) == id
        then Declared(a.content[head..], Get16(a.content[2..]))
        else if b.id == kind && |b.content| >= head && Get16(b.content) == id
        then Declared(b.content[head..], Get16(b.content[2..]))
        else rest
  {
    hide Declared, Get16, TemplateFor;
    assert [a, b, c, d] == [a] + [b, c, d] && [b, c, d] == [b] + [c, d] && [c, d] == [c] + [d] && [d] == [d] + [];
    TemplateStep(a, [b, c, d], kind, id);
    TemplateStep(b, [c, d], kind, id);
    TemplateStep(c, [d], kind, id);
    TemplateStep(d, [], kind, id);
  }

  // Main result: with nothing but the templates in the message a collector finds the station's
  // record and the batch's.
  lemma CollectorReads(s: Station, batch: seq<Report>)
    requires s.Accepted() && AllValid(batch)
    ensures var sets := MessageSets(s, batch);
      && DataRecords(sets, OPTIONS_TEMPLATE_SET, sets) == [ReceiverValues(s)]
      && DataRecords(sets, TEMPLATE_SET, sets) == AllValues(batch)
  {
    hide ReadRecords, MinRecord, ReceiverContent, ReportContent, AllValues, ReceiverValues, DataRecords;
    RecordsRead(s, batch);
    CollectorFinds(Set(RECEIVER_SET, ReceiverContent(s)), Set(REPORT_SET, ReportContent(batch)));
  }

  lemma CollectorFinds(c: Set, d: Set)
    requires c.id == RECEIVER_SET && d.id == REPORT_SET
    requires MinRecord(RECEIVER_FIELDS) >= 1 && ReadRecords(RECEIVER_FIELDS, c.content).Some?
    requires MinRecord(REPORT_FIELDS) >= 1 && ReadRecords(REPORT_FIELDS, d.content).Some?
    ensures var sets := [RECEIVER_TEMPLATE, REPORT_TEMPLATE, c, d];
      && DataRecords(sets, OPTIONS_TEMPLATE_SET, sets) == ReadRecords(RECEIVER_FIELDS, c.content).value.0
      && DataRecords(sets, TEMPLATE_SET, sets) == ReadRecords(REPORT_FIELDS, d.content).value.0
  {
    hide TemplateFor, ReadRecords, MinRecord, DataRecords, RECEIVER_FIELDS, REPORT_FIELDS;
    TemplatesFound(c, d, OPTIONS_TEMPLATE_SET);
    TemplatesFound(c, d, TEMPLATE_SET);
    TemplatesFound(c, d, RECEIVER_SET);
    TemplatesFound(c, d, REPORT_SET);
    OneDescribed([RECEIVER_TEMPLATE, REPORT_TEMPLATE, c, d], OPTIONS_TEMPLATE_SET, 2, RECEIVER_FIELDS);
    OneDescribed([RECEIVER_TEMPLATE, REPORT_TEMPLATE, c, d], TEMPLATE_SET, 3, REPORT_FIELDS);
  }

  // Of four sets only one of the last two is described.
  lemma OneDescribed(sets: seq<Set>, kind: uint16, i: nat, fields: seq<FieldLength>)
    requires |sets| == 4 && 2 <= i < 4
    requires forall j :: 0 <= j < 4 && j != i ==> TemplateFor(sets, kind, sets[j].id) == None
    requires TemplateFor(sets, kind, sets[i].id) == Some(fields) && MinRecord(fields) >= 1
    requires ReadRecords(fields, sets[i].content).Some?
    ensures DataRecords(sets, kind, sets) == ReadRecords(fields, sets[i].content).value.0
  {
    hide TemplateFor, ReadRecords, MinRecord, SetRecords, DataRecords;
    forall j | 0 <= j < 4 && j != i
      ensures SetRecords(sets, kind, sets[j]) == []
    {
      NoRecordsOf(sets, kind, sets[j]);
    }
    SomeRecordsOf(sets, kind, sets[i], fields);
    FourRecords(sets, kind);
  }

  lemma NoRecordsOf(all: seq<Set>, kind: uint16, s: Set)
    requires TemplateFor(all, kind, s.id) == None
    ensures SetRecords(all, kind, s) == []
  {
    hide TemplateFor;
  }

  lemma SomeRecordsOf(all: seq<Set>, kind: uint16, s: Set, fields: seq<FieldLength>)
    requires TemplateFor(all, kind, s.id) == Some(fields) && MinRecord(fields) >= 1
      && ReadRecords(fields, s.content).Some?
    ensures SetRecords(all, kind, s) == ReadRecords(fields, s.content).value.0
  {
    hide TemplateFor, MinRecord, ReadRecords;
  }

  lemma FourRecords(sets: seq<Set>, kind: uint16)
    requires |sets| == 4
    ensures DataRecords(sets, kind, sets) == SetRecords(sets, kind, sets[0]) + SetRecords(sets, kind, sets[1])
      + SetRecords(sets, kind, sets[2]) + SetRecords(sets, kind, sets[3])
  {
    hide SetRecords;
    var all := sets;
    assert sets[..3][..2] == sets[..2] && sets[..2][..1] == sets[..1] && sets[..1][..0] == [];
    assert DataRecords(all, kind, sets[..1]) == [] + SetRecords(all, kind, sets[0]);
    assert DataRecords(all, kind, sets[..2]) == DataRecords(all, kind, sets[..1]) + SetRecords(all, kind, sets[1]);
    assert DataRecords(all, kind, sets[..3]) == DataRecords(all, kind, sets[..2]) + SetRecords(all, kind, sets[2]);
  }

  // --- Batches --------------------------------------------------------------------------

  function BatchCount(n: nat): nat { (n + 9) / 10 }

  lemma BatchCountIs(n: nat, k: nat)
    ensures k < BatchCount(n) <==> 10 * k < n
  {
  }

  // Ten reports to a message, what is left in the last.
  function Batch(reports: seq<Report>, k: nat): (b: seq<Report>)
    requires 10 * k < |reports|
    ensures 1 <= |b| <= 10
  {
    reports[10 * k..if 10 * k + 10 <= |reports| then 10 * k + 10 else |reports|]
  }

  function BatchesUpTo(reports: seq<Report>, k: nat): seq<Report>
    requires k == 0 || 10 * (k - 1) < |reports|
  {
    if k == 0 then [] else BatchesUpTo(reports, k - 1) + Batch(reports, k - 1)
  }

  // Every report goes out once, in order.
  lemma {:induction false} BatchesCover(reports: seq<Report>, k: nat)
    requires k == 0 || 10 * (k - 1) < |reports|
    ensures BatchesUpTo(reports, k) == reports[..if 10 * k <= |reports| then 10 * k else |reports|]
    ensures k == BatchCount(|reports|) ==> BatchesUpTo(reports, k) == reports
  {
    if k > 0 {
      BatchesCover(reports, k - 1);
    }
    BatchCountIs(|reports|, k);
  }

  // The data records of the first k messages: a station and a batch each.
  function RecordsBefore(reports: seq<Report>, k: nat): nat
    requires k == 0 || 10 * (k - 1) < |reports|
  {
    if k == 0 then 0 else RecordsBefore(reports, k - 1) + 1 + |Batch(reports, k - 1)|
  }

  // All messages but the last hold eleven.
  lemma {:induction false} RecordsBeforeIs(reports: seq<Report>, k: nat)
    requires 10 * k < |reports|
    ensures RecordsBefore(reports, k) == 11 * k
  {
    if k == 0 {
    } else {
      RecordsBeforeIs(reports, k - 1);
    }
  }

  // Counting messages and counting records agree modulo 2^32 only every 2^31 messages.
  lemma CountsAgree(k: nat)
    ensures Pattern32(k) == Pattern32(11 * k) <==> k % 0x8000_0000 == 0
  {
    var m, h := 0x1_0000_0000, 0x8000_0000;
    var q, r := k / h, k % h;
    if r == 0 {
      UniqueDivMod(10 * k, m, 5 * q, 0);
      UniqueDivMod(11 * k, m, k / m + 5 * q, k % m);
    }
    if Pattern32(k) == Pattern32(11 * k) {
      var d := 11 * k / m - k / m;
      assert 10 * k == d * m;
      assert 5 * k == d * h;
      UniqueDivMod(5 * k, h, d, 0);
      FiveTimes(k, h);
    }
  }

  lemma FiveTimes(k: nat, h: nat)
    requires h == 0x8000_0000 && 5 * k % h == 0
    ensures k % h == 0
  {
    var q, r := k / h, k % h;
    var p := 5 * r / h;
    assert 5 * k == 5 * q * h + 5 * r;
    UniqueDivMod(5 * k, h, 5 * q + p, 5 * r - p * h);
    assert 5 * r == p * h;
  }

  // --- Room in the buffer ---------------------------------------------------------------

  const BUFFER_SIZE: nat := 512

  // Bytes of a report on the wire, and of several.
  function RecordSize(r: Report): nat { 16 + |r.call| + |r.grid| }

  function RecordsSize(batch: seq<Report>): nat
  {
    if batch == [] then 0 else RecordsSize(batch[..|batch| - 1]) + RecordSize(batch[|batch| - 1])
  }

  function Whole(n: nat): (w: nat)
    ensures n <= w <= n + 3 && w % 4 == 0
  {
    n + Padding(n)
  }

  function MessageSize(s: Station, batch: seq<Report>): nat
  {
    128 + Whole(26 + s.Length()) + Whole(RecordsSize(batch))
  }

  predicate FitsBuffer(s: Station, batch: seq<Report>) { MessageSize(s, batch) <= BUFFER_SIZE }

  ghost predicate AllFit(s: Station, reports: seq<Report>)
  {
    forall k: nat :: 10 * k < |reports| ==> FitsBuffer(s, Batch(reports, k))
  }

  lemma WholeMonotone(a: nat, b: nat)
    requires a <= b
    ensures Whole(a) <= Whole(b)
  {
    var i, j := Whole(a) / 4, Whole(b) / 4;
    assert Whole(a) == 4 * i && Whole(b) == 4 * j;
  }

  lemma {:induction false} RecordsSizePrefix(a: seq<Report>, b: seq<Report>)
    requires a <= b
    ensures RecordsSize(a) <= RecordsSize(b)
    decreases |b|
  {
    if |a| < |b| {
      RecordsSizePrefix(a, b[..|b| - 1]);
    } else {
      assert a == b;
    }
  }

  // A part of a batch that fits, fits.
  lemma PartFits(s: Station, all: seq<Report>, part: seq<Report>, k: nat)
    requires AllFit(s, all) && part <= all && 10 * k < |part| <= 10 * k + 10
    ensures FitsBuffer(s, part[10 * k..])
  {
    assert FitsBuffer(s, Batch(all, k));
    assert part[10 * k..] <= Batch(all, k);
    RecordsSizePrefix(part[10 * k..], Batch(all, k));
    WholeMonotone(RecordsSize(part[10 * k..]), RecordsSize(Batch(all, k)));
  }

  lemma {:induction false} RecordsSizeBound(batch: seq<Report>)
    requires AllValid(batch)
    ensures RecordsSize(batch) <= 33 * |batch|
    decreases |batch|
  {
    if batch == [] {
    } else {
      RecordsSizeBound(batch[..|batch| - 1]);
    }
  }

  lemma {:induction false} LongestRecords(r: Report, n: nat)
    requires RecordSize(r) == 33
    ensures RecordsSize(seq(n, _ => r)) == 33 * n
  {
    if n == 0 {
    } else {
      var all := seq(n, _ => r);
      assert all[..n - 1] == seq(n - 1, _ => r);
      LongestRecords(r, n - 1);
    }
  }

  // The letter A, n times.
  function Letters(n: nat): (s: Text) { seq(n, _ => 65) }

  // Twenty-seven letters and ten reports of full length are four bytes too many.
  lemma TenLongReports()
    ensures var s, batch := Station(Letters(16), Letters(6), Letters(5)),
        seq(10, _ => Report(Letters(13), Letters(4), 0, 0, 0));
      s.Accepted() && AllValid(batch) && MessageSize(s, batch) == 516
  {
    LongestRecords(Report(Letters(13), Letters(4), 0, 0, 0), 10);
  }

  // Main result: every message fits whatever is reported exactly when the station's
  // three strings have at most 26 bytes together. The program accepts up to 86.
  lemma RoomForAnyBatch(s: Station)
    ensures s.Length() <= 26 <==> forall batch :: AllValid(batch) && |batch| <= 10 ==> FitsBuffer(s, batch)
  {
    if s.Length() <= 26 {
      WholeMonotone(26 + s.Length(), 52);
      forall batch | AllValid(batch) && |batch| <= 10
        ensures FitsBuffer(s, batch)
      {
        RecordsSizeBound(batch);
        WholeMonotone(RecordsSize(batch), 330);
      }
    } else {
      var r := Report(Letters(13), Letters(4), 0, 0, 0);
      var batch := seq(10, _ => r);
      LongestRecords(r, 10);
      WholeMonotone(53, 26 + s.Length());
      assert !FitsBuffer(s, batch) && AllValid(batch) && |batch| <= 10;
    }
  }
}

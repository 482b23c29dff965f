// The whole cache file (candidatecache.go): what bytes a snapshot has, what
// snapshot bytes have, the two round trips between them, and the migration of
// files older than version 4.
module CacheCodec {
  import opened Proxies
  import opened CatalogModel
  import opened Wire
  import opened CacheFormat

  // ----------------------------------------------- items of each table, as rows

  function TextEnc(): string -> Row { (s: string) => TextRow(s) }
  function TextDec(): Row -> Option<string> { (row: Row) => if RowFits(TextShape(), row) then TextOfRow(row); Some(row[0].s) else None }
  function TextGood(): string -> bool { (s: string) => ShortText(s) }

  function RefEnc(): nat -> Row { (n: nat) => RefRow(n) }
  function RefDec(): Row -> Option<nat> { (row: Row) => if RowFits(RefShape(), row) then RefOfRow(row); Some(row[0].n) else None }
  function RefGood(): nat -> bool { (n: nat) => n < TWO_32 }

  function CredentialEnc(): Credential -> Row { (c: Credential) => CredentialRow(c) }
  function CredentialDec(): Row -> Option<Credential> {
    (row: Row) => if RowFits(CredentialShape(), row) then CredentialOfRow(row); Some(Credential(row[0].s, row[1].s)) else None
  }
  function CredentialGood(): Credential -> bool { (c: Credential) => CredentialTyped(c) && CredentialShort(c) }

  function RecordEnc(version: nat): Record -> Row { (r: Record) => RecordRow(version, r) }
  function RecordDec(version: nat): Row -> Option<Record> {
    (row: Row) => if RowFits(RecordShape(version), row) then RecordOf(version, row) else None
  }
  function RecordGood(version: nat): Record -> bool { (r: Record) => RecordTyped(r) && RecordShort(r) && Aged(version, r) == r }

  function FailureEnc(): Failure -> Row { (f: Failure) => FailureRow(f) }
  function FailureDec(): Row -> Option<Failure> { (row: Row) => if RowFits(FailureShape(), row) then FailureOf(row) else None }
  function FailureGood(): Failure -> bool { (f: Failure) => FailureTyped(f) && FailureShort(f) }

  lemma TextInverse()
    ensures Inverse(TextShape(), TextEnc(), TextDec(), TextGood())
  {
    forall s | TextGood()(s) ensures RowFits(TextShape(), TextEnc()(s)) && TextDec()(TextEnc()(s)) == Some(s) { TextRowFits(s); }
    forall row | RowFits(TextShape(), row) && TextDec()(row).Some?
      ensures TextGood()(TextDec()(row).value) && TextEnc()(TextDec()(row).value) == row
    {
      TextOfRow(row);
    }
  }

  lemma RefInverse()
    ensures Inverse(RefShape(), RefEnc(), RefDec(), RefGood())
  {
    forall n: nat | RefGood()(n) ensures RowFits(RefShape(), RefEnc()(n)) && RefDec()(RefEnc()(n)) == Some(n) { RefRowFits(n); }
    forall row | RowFits(RefShape(), row) && RefDec()(row).Some?
      ensures RefGood()(RefDec()(row).value) && RefEnc()(RefDec()(row).value) == row
    {
      RefOfRow(row);
    }
  }

  lemma CredentialInverse()
    ensures Inverse(CredentialShape(), CredentialEnc(), CredentialDec(), CredentialGood())
  {
    forall c | CredentialGood()(c)
      ensures RowFits(CredentialShape(), CredentialEnc()(c)) && CredentialDec()(CredentialEnc()(c)) == Some(c)
    {
      CredentialRowFits(c);
    }
    forall row | RowFits(CredentialShape(), row) && CredentialDec()(row).Some?
      ensures CredentialGood()(CredentialDec()(row).value) && CredentialEnc()(CredentialDec()(row).value) == row
    {
      CredentialOfRow(row);
    }
  }

  lemma RecordInverse(version: nat)
    ensures Inverse(RecordShape(version), RecordEnc(version), RecordDec(version), RecordGood(version))
  {
    forall r | RecordGood(version)(r)
      ensures RowFits(RecordShape(version), RecordEnc(version)(r)) && RecordDec(version)(RecordEnc(version)(r)) == Some(r)
    {
      RecordOfRow(version, r);
    }
    forall row | RowFits(RecordShape(version), row) && RecordDec(version)(row).Some?
      ensures RecordGood(version)(RecordDec(version)(row).value) && RecordEnc(version)(RecordDec(version)(row).value) == row
    {
      RowOfRecord(version, row);
    }
  }

  lemma FailureInverse()
    ensures Inverse(FailureShape(), FailureEnc(), FailureDec(), FailureGood())
  {
    forall f | FailureGood()(f)
      ensures RowFits(FailureShape(), FailureEnc()(f)) && FailureDec()(FailureEnc()(f)) == Some(f)
    {
      FailureOfRow(f);
    }
    forall row | RowFits(FailureShape(), row) && FailureDec()(row).Some?
      ensures FailureGood()(FailureDec()(row).value) && FailureEnc()(FailureDec()(row).value) == row
    {
      RowOfFailure(row);
    }
  }

  // How items become rows and back, as values: the laws of the file need only
  // that they are inverse.
  datatype Codecs = Codecs(
    textEnc: string -> Row, textDec: Row -> Option<string>,
    refEnc: nat -> Row, refDec: Row -> Option<nat>,
    recordEnc: Record -> Row, recordDec: Row -> Option<Record>,
    credentialEnc: Credential -> Row, credentialDec: Row -> Option<Credential>,
    failureEnc: Failure -> Row, failureDec: Row -> Option<Failure>)

  function CodecsOf(version: nat): Codecs {
    Codecs(TextEnc(), TextDec(), RefEnc(), RefDec(), RecordEnc(version), RecordDec(version),
           CredentialEnc(), CredentialDec(), FailureEnc(), FailureDec())
  }

  ghost predicate CodecsInvert(c: Codecs, version: nat) {
    && Inverse(TextShape(), c.textEnc, c.textDec, TextGood())
    && Inverse(RefShape(), c.refEnc, c.refDec, RefGood())
    && Inverse(RecordShape(version), c.recordEnc, c.recordDec, RecordGood(version))
    && Inverse(CredentialShape(), c.credentialEnc, c.credentialDec, CredentialGood())
    && Inverse(FailureShape(), c.failureEnc, c.failureDec, FailureGood())
  }

  lemma CodecsOfInvert(version: nat)
    ensures CodecsInvert(CodecsOf(version), version)
  {
    TextInverse();
    RefInverse();
    RecordInverse(version);
    CredentialInverse();
    FailureInverse();
  }

  // ------------------------------------------------------------- the tables

  function DictionarySheets(): seq<Sheet> {
    [Sheet(MAX_SOURCES, TextShape()), Sheet(MAX_SOURCES, TextShape()), Sheet(MAX_PROTOCOLS, TextShape()),
     Sheet(MAX_COUNTRIES, TextShape()), Sheet(MAX_CITIES, TextShape())]
  }

  function ItemSheets(version: nat): seq<Sheet> {
    [Sheet(MAX_SOURCE_REFS, RefShape()), Sheet(MAX_RECORDS, RecordShape(version))]
    + if version >= 3 then [Sheet(MAX_CREDENTIALS, CredentialShape())] else []
  }

  function FileSheets(version: nat): seq<Sheet> { DictionarySheets() + ItemSheets(version) }

  function DictionaryTables(k: Codecs, t: Tables): seq<seq<Row>> {
    [RowsFrom(k.textEnc, t.sourceKeys), RowsFrom(k.textEnc, t.sources), RowsFrom(k.textEnc, t.protocols),
     RowsFrom(k.textEnc, t.countries), RowsFrom(k.textEnc, t.cities)]
  }

  function ItemTables(k: Codecs, s: Snapshot): seq<seq<Row>> {
    [RowsFrom(k.refEnc, s.tables.sourceRefs), RowsFrom(k.recordEnc, s.records), RowsFrom(k.credentialEnc, s.alternates)]
  }

  function FileTables(k: Codecs, s: Snapshot): seq<seq<Row>> { DictionaryTables(k, s.tables) + ItemTables(k, s) }

  function FailureRows(k: Codecs, s: Snapshot): seq<Row> { RowsFrom(k.failureEnc, s.failed) }

  // What the table rows hold, if every row holds an item.
  function SnapshotFrom(k: Codecs, version: nat, m: Meta, tables: seq<seq<Row>>, failures: seq<Row>): Option<Snapshot>
    requires |tables| == |FileSheets(version)|
  {
    var keys, sources := ItemsFrom(k.textDec, tables[0]), ItemsFrom(k.textDec, tables[1]);
    var protocols, countries, cities := ItemsFrom(k.textDec, tables[2]), ItemsFrom(k.textDec, tables[3]), ItemsFrom(k.textDec, tables[4]);
    var refs, records := ItemsFrom(k.refDec, tables[5]), ItemsFrom(k.recordDec, tables[6]);
    var alternates := if version >= 3 then ItemsFrom(k.credentialDec, tables[7]) else Some([]);
    var failed := ItemsFrom(k.failureDec, failures);
    if keys.None? || sources.None? || protocols.None? || countries.None? || cities.None? || refs.None? || records.None?
       || alternates.None? || failed.None? then None
    else Some(Snapshot(records.value, failed.value, alternates.value,
                       Tables(refs.value, keys.value, sources.value, protocols.value, countries.value, cities.value), m))
  }

  // ---------------------------------------------------- what can be written

  predicate ByteTexts(xs: seq<string>) { forall x | x in xs :: ByteText(x) }

  predicate ShortTexts(xs: seq<string>) { forall x | x in xs :: |x| <= MAX_TEXT }

  // The widths of the Go types.
  predicate Typed(s: Snapshot) {
    && MetaTyped(s.meta)
    && ByteTexts(s.tables.sourceKeys) && ByteTexts(s.tables.sources) && ByteTexts(s.tables.protocols)
    && ByteTexts(s.tables.countries) && ByteTexts(s.tables.cities)
    && (forall n | n in s.tables.sourceRefs :: n < TWO_32)
    && (forall r | r in s.records :: RecordTyped(r))
    && (forall c | c in s.alternates :: CredentialTyped(c))
    && (forall f | f in s.failed :: FailureTyped(f))
  }

  // The string limits the encoder checks.
  predicate Short(s: Snapshot) {
    && MetaShort(s.meta)
    && ShortTexts(s.tables.sourceKeys) && ShortTexts(s.tables.sources) && ShortTexts(s.tables.protocols)
    && ShortTexts(s.tables.countries) && ShortTexts(s.tables.cities)
    && (forall r | r in s.records :: RecordShort(r))
    && (forall c | c in s.alternates :: CredentialShort(c))
    && (forall f | f in s.failed :: FailureShort(f))
  }

  // The counts the validator checks before the encoder runs.
  predicate Counted(s: Snapshot) {
    && |s.tables.sourceKeys| <= MAX_SOURCES && |s.tables.sources| <= MAX_SOURCES && |s.tables.protocols| <= MAX_PROTOCOLS
    && |s.tables.countries| <= MAX_COUNTRIES && |s.tables.cities| <= MAX_CITIES && |s.tables.sourceRefs| <= MAX_SOURCE_REFS
    && |s.alternates| <= MAX_CREDENTIALS && |s.records| + |s.failed| <= MAX_RECORDS
  }

  predicate Passes(s: Snapshot) { Typed(s) && Short(s) && Counted(s) }

  function StringCost(s: Snapshot): nat {
    RowCost(HeaderRow(VERSION, s.meta)) + BodyCost(CodecsOf(VERSION), s)
  }

  function BodyCost(k: Codecs, s: Snapshot): nat { SheetsCost(FileTables(k, s)) + RowsCost(FailureRows(k, s)) }

  lemma TextsFit(k: Codecs, limit: nat, xs: seq<string>)
    requires Inverse(TextShape(), k.textEnc, k.textDec, TextGood()) && ByteTexts(xs) && ShortTexts(xs) && |xs| <= limit < TWO_32
    ensures SheetFits(Sheet(limit, TextShape()), RowsFrom(k.textEnc, xs)) && ItemsFrom(k.textDec, RowsFrom(k.textEnc, xs)) == Some(xs)
  {
    ItemsBack(TextShape(), k.textEnc, k.textDec, TextGood(), xs);
  }

  // The rows of each table fit its sheet, and hold what they were made from.
  ghost predicate Holds<T(!new)>(sheet: Sheet, enc: T -> Row, dec: Row -> Option<T>, xs: seq<T>) {
    SheetFits(sheet, RowsFrom(enc, xs)) && ItemsFrom(dec, RowsFrom(enc, xs)) == Some(xs)
  }

  ghost predicate DictionariesHold(k: Codecs, t: Tables) {
    && Holds(Sheet(MAX_SOURCES, TextShape()), k.textEnc, k.textDec, t.sourceKeys)
    && Holds(Sheet(MAX_SOURCES, TextShape()), k.textEnc, k.textDec, t.sources)
    && Holds(Sheet(MAX_PROTOCOLS, TextShape()), k.textEnc, k.textDec, t.protocols)
    && Holds(Sheet(MAX_COUNTRIES, TextShape()), k.textEnc, k.textDec, t.countries)
    && Holds(Sheet(MAX_CITIES, TextShape()), k.textEnc, k.textDec, t.cities)
  }

  ghost predicate ItemsHold(k: Codecs, s: Snapshot) {
    && Holds(Sheet(MAX_SOURCE_REFS, RefShape()), k.refEnc, k.refDec, s.tables.sourceRefs)
    && Holds(Sheet(MAX_RECORDS, RecordShape(VERSION)), k.recordEnc, k.recordDec, s.records)
    && Holds(Sheet(MAX_CREDENTIALS, CredentialShape()), k.credentialEnc, k.credentialDec, s.alternates)
    && Holds(Sheet(MAX_RECORDS, FailureShape()), k.failureEnc, k.failureDec, s.failed)
  }

  lemma DictionariesFit(k: Codecs, s: Snapshot)
    requires CodecsInvert(k, VERSION) && Passes(s)
    ensures DictionariesHold(k, s.tables)
  {
    TextsFit(k, MAX_SOURCES, s.tables.sourceKeys);
    TextsFit(k, MAX_SOURCES, s.tables.sources);
    TextsFit(k, MAX_PROTOCOLS, s.tables.protocols);
    TextsFit(k, MAX_COUNTRIES, s.tables.countries);
    TextsFit(k, MAX_CITIES, s.tables.cities);
  }

  lemma ItemsFit(k: Codecs, s: Snapshot)
    requires CodecsInvert(k, VERSION) && Passes(s)
    ensures ItemsHold(k, s)
  {
    ItemsBack(RefShape(), k.refEnc, k.refDec, RefGood(), s.tables.sourceRefs);
    ItemsBack(RecordShape(VERSION), k.recordEnc, k.recordDec, RecordGood(VERSION), s.records);
    ItemsBack(CredentialShape(), k.credentialEnc, k.credentialDec, CredentialGood(), s.alternates);
    ItemsBack(FailureShape(), k.failureEnc, k.failureDec, FailureGood(), s.failed);
  }

  lemma DictionariesFitSheets(k: Codecs, t: Tables)
    requires DictionariesHold(k, t)
    ensures SheetsFit(DictionarySheets(), DictionaryTables(k, t))
  {
    var sheets, tables := DictionarySheets(), DictionaryTables(k, t);
    assert SheetFits(sheets[0], tables[0]) && SheetFits(sheets[1], tables[1]) && SheetFits(sheets[2], tables[2]);
    assert SheetFits(sheets[3], tables[3]) && SheetFits(sheets[4], tables[4]);
    SheetsFitFrom(sheets, tables);
  }

  lemma ItemsFitSheets(k: Codecs, s: Snapshot)
    requires ItemsHold(k, s)
    ensures SheetsFit(ItemSheets(VERSION), ItemTables(k, s))
  {
    var sheets, tables := ItemSheets(VERSION), ItemTables(k, s);
    assert SheetFits(sheets[0], tables[0]) && SheetFits(sheets[1], tables[1]) && SheetFits(sheets[2], tables[2]);
    SheetsFitFrom(sheets, tables);
  }

  lemma TablesFit(k: Codecs, s: Snapshot)
    requires DictionariesHold(k, s.tables) && ItemsHold(k, s)
    ensures SheetsFit(FileSheets(VERSION), FileTables(k, s)) && RowsFit(FailureShape(), FailureRows(k, s))
  {
    DictionariesFitSheets(k, s.tables);
    ItemsFitSheets(k, s);
    SheetsFitJoin(DictionarySheets(), ItemSheets(VERSION), DictionaryTables(k, s.tables), ItemTables(k, s));
  }

  lemma {:induction false} SheetsFitJoin(a: seq<Sheet>, b: seq<Sheet>, x: seq<seq<Row>>, y: seq<seq<Row>>)
    requires |a| == |x|
    ensures SheetsFit(a + b, x + y) <==> SheetsFit(a, x) && SheetsFit(b, y)
  {
    if a == [] {
      assert a + b == b && x + y == y;
    } else {
      assert (a + b)[1..] == a[1..] + b && (x + y)[1..] == x[1..] + y;
      SheetsFitJoin(a[1..], b, x[1..], y);
    }
  }

  lemma {:induction false} SheetsFitFrom(sheets: seq<Sheet>, tables: seq<seq<Row>>)
    requires |sheets| == |tables| && forall i | 0 <= i < |sheets| :: SheetFits(sheets[i], tables[i])
    ensures SheetsFit(sheets, tables)
  {
    if tables != [] {
      forall i | 0 <= i < |sheets[1..]| ensures SheetFits(sheets[1..][i], tables[1..][i]) { assert SheetFits(sheets[i + 1], tables[i + 1]); }
      SheetsFitFrom(sheets[1..], tables[1..]);
    }
  }

  lemma {:induction false} SheetsFitAt(sheets: seq<Sheet>, tables: seq<seq<Row>>, i: nat)
    requires SheetsFit(sheets, tables) && i < |tables|
    ensures SheetFits(sheets[i], tables[i])
  {
    if i > 0 { SheetsFitAt(sheets[1..], tables[1..], i - 1); }
  }

  // The rows of a snapshot hold that snapshot.
  lemma SnapshotBack(k: Codecs, s: Snapshot, m: Meta)
    requires DictionariesHold(k, s.tables) && ItemsHold(k, s)
    ensures SnapshotFrom(k, VERSION, m, FileTables(k, s), FailureRows(k, s)) == Some(s.(meta := m))
  {
  }

  // --------------------------------------------------------------- the file

  // The bytes of a file around those of its tables.
  function Framed(m: Meta, body: seq<Byte>): seq<Byte>
    requires MetaTyped(m) && MetaShort(m)
  {
    HeaderRowFits(VERSION, m);
    Bytes(MAGIC) + (WriteRow(HeaderShape(), HeaderRow(VERSION, m)) + body)
  }

  function Body(sheets: seq<Sheet>, tables: seq<seq<Row>>, rows: seq<Row>): seq<Byte>
    requires SheetsFit(sheets, tables) && RowsFit(FailureShape(), rows)
  {
    WriteSheets(sheets, tables) + WriteTable(FailureShape(), rows)
  }

  function FileBytes(s: Snapshot): seq<Byte>
    requires Passes(s)
  {
    var k := CodecsOf(VERSION);
    BodyFits(k, s);
    Framed(s.meta, Body(FileSheets(VERSION), FileTables(k, s), FailureRows(k, s)))
  }

  lemma BodyFits(k: Codecs, s: Snapshot)
    requires Passes(s) && k == CodecsOf(VERSION)
    ensures DictionariesHold(k, s.tables) && ItemsHold(k, s)
    ensures SheetsFit(FileSheets(VERSION), FileTables(k, s)) && RowsFit(FailureShape(), FailureRows(k, s))
  {
    CodecsOfInvert(VERSION);
    DictionariesFit(k, s);
    ItemsFit(k, s);
    TablesFit(k, s);
  }

  function ReadMagic(d: Input): Read<()> {
    if |d.bytes| < 8 || d.bytes[..8] != Bytes(MAGIC) then Stop else Got((), d.(bytes := d.bytes[8..]))
  }

  // Version and metadata; other versions and any flag are refused.
  function HeaderFrom(h: Row): Option<(nat, Meta)> {
    if !RowFits(HeaderShape(), h) then None
    else
      HeaderAre(h);
      if h[0].n < 1 || h[0].n > VERSION || h[1].n != 0 then None else Some((h[0].n, MetaOf(h)))
  }

  // The tables of one version, and from version 4 on the failures, which share
  // the record limit with the pending records.
  function ReadBody(k: Codecs, table: TableReader, sheets: seq<Sheet>, version: nat, m: Meta, d: Input): Read<Snapshot>
    requires |sheets| == |FileSheets(version)|
  {
    var tables := ReadSheets(table, sheets, d);
    if tables.Stop? then Stop else Assembled(k, version, m, tables.value, ReadFailures(table, version, |tables.value[6]|, tables.rest))
  }

  function FailureSheet(pending: nat): Sheet { Sheet(if pending <= MAX_RECORDS then MAX_RECORDS - pending else 0, FailureShape()) }

  function ReadFailures(table: TableReader, version: nat, pending: nat, d: Input): Read<seq<Row>> {
    if version >= 4 then table(FailureSheet(pending), d) else Got([], d)
  }

  function Assembled(k: Codecs, version: nat, m: Meta, tables: seq<seq<Row>>, failures: Read<seq<Row>>): Read<Snapshot>
    requires |tables| == |FileSheets(version)|
  {
    if failures.Stop? then Stop
    else
      var s := SnapshotFrom(k, version, m, tables, failures.value);
      if s.None? then Stop else Got(s.value, failures.rest)
  }

  // decode, before an old file's failures are moved over.
  function DecodeWith(row: RowReader, table: TableReader, d: Input): Read<(nat, Snapshot)> {
    var magic := ReadMagic(d);
    if magic.Stop? then Stop
    else
      var h := row(HeaderShape(), magic.rest);
      if h.Stop? || HeaderFrom(h.value).None? then Stop
      else
        var (version, m) := HeaderFrom(h.value).value;
        var body := ReadBody(CodecsOf(version), table, FileSheets(version), version, m, h.rest);
        if body.Stop? then Stop else Got((version, body.value), body.rest)
  }

  function DecodeRaw(d: Input): Read<(nat, Snapshot)> { DecodeWith(RowByRow(), TableByTable(), d) }

  function Decode(d: Input): Read<Snapshot> {
    var r := DecodeRaw(d);
    if r.Stop? then Stop else Got(if r.value.0 < 4 then Migrated(r.value.1) else r.value.1, r.rest)
  }

  // -------------------------------------------------------------- migration

  function FailureOfStatus(s: Status): Option<FailureKind> {
    match s case CheckedFailed => Some(Unreachable) case PolicyFiltered => Some(PolicyRejected) case _ => None
  }

  function StillPending(rs: seq<Record>): seq<Record> {
    if rs == [] then []
    else StillPending(rs[..|rs|-1]) + if FailureOfStatus(rs[|rs|-1].status).Some? then [] else [rs[|rs|-1]]
  }

  function NowFailed(rs: seq<Record>): seq<Failure> {
    if rs == [] then []
    else
      var r := rs[|rs|-1];
      NowFailed(rs[..|rs|-1])
      + if FailureOfStatus(r.status).Some? then [Failure(r.(status := Deferred), FailureOfStatus(r.status).value, "")] else []
  }

  // migrateLegacyCandidateFailures
  function Migrated(s: Snapshot): Snapshot { s.(records := StillPending(s.records), failed := s.failed + NowFailed(s.records)) }

  // ------------------------------------------------------------- round trips

  lemma ReadMagicBack(tail: seq<Byte>, used: nat)
    ensures ReadMagic(Input(Bytes(MAGIC) + tail, used)) == Got((), Input(tail, used))
  {
    var bs := Bytes(MAGIC) + tail;
    assert bs[..8] == Bytes(MAGIC) && bs[8..] == tail;
  }

  lemma FailuresBack(table: TableReader, pending: nat, rows: seq<Row>, tail: seq<Byte>, used: nat)
    requires TablesBack(table) && RowsFit(FailureShape(), rows) && pending + |rows| <= MAX_RECORDS && used <= MAX_STRING_BYTES
    ensures ReadFailures(table, VERSION, pending, Input(WriteTable(FailureShape(), rows) + tail, used)) == RowsBack(rows, tail, used)
  {
    var sheet := FailureSheet(pending);
    assert SheetFits(sheet, rows) && sheet.shape == FailureShape();
  }

  lemma RecordTableLength(k: Codecs, s: Snapshot)
    ensures |FileTables(k, s)[6]| == |s.records| && |FailureRows(k, s)| == |s.failed|
  {
    assert FileTables(k, s)[6] == ItemTables(k, s)[1];
  }

  lemma AssembledBack(k: Codecs, version: nat, m: Meta, tables: seq<seq<Row>>, rows: seq<Row>, t: Snapshot, tail: seq<Byte>, used: nat)
    requires |tables| == |FileSheets(version)| && SnapshotFrom(k, version, m, tables, rows) == Some(t)
    ensures Assembled(k, version, m, tables, RowsBack(rows, tail, used))
            == if used + RowsCost(rows) <= MAX_STRING_BYTES then Got(t, Input(tail, used + RowsCost(rows))) else Stop
  {
  }

  lemma BodySteps(k: Codecs, table: TableReader, sheets: seq<Sheet>, version: nat, m: Meta, d: Input,
                  first: Read<seq<seq<Row>>>, failures: Read<seq<Row>>)
    requires |sheets| == |FileSheets(version)| && first == ReadSheets(table, sheets, d)
    requires first.Got? ==> failures == ReadFailures(table, version, |first.value[6]|, first.rest)
    ensures ReadBody(k, table, sheets, version, m, d) == if first.Stop? then Stop else Assembled(k, version, m, first.value, failures)
  {
  }

  lemma ReadBodyBack(k: Codecs, table: TableReader, sheets: seq<Sheet>, tables: seq<seq<Row>>, rows: seq<Row>, m: Meta, t: Snapshot,
                     tail: seq<Byte>, used: nat)
    requires TablesBack(table) && used <= MAX_STRING_BYTES
    requires SheetsFit(sheets, tables) && RowsFit(FailureShape(), rows)
    requires |sheets| == |FileSheets(VERSION)| && |tables[6]| + |rows| <= MAX_RECORDS
    requires SnapshotFrom(k, VERSION, m, tables, rows) == Some(t)
    ensures ReadBody(k, table, sheets, VERSION, m, Input(Body(sheets, tables, rows) + tail, used))
            == if used + SheetsCost(tables) + RowsCost(rows) <= MAX_STRING_BYTES
               then Got(t, Input(tail, used + SheetsCost(tables) + RowsCost(rows))) else Stop
  {
    var more := WriteTable(FailureShape(), rows) + tail;
    Regroup(WriteSheets(sheets, tables), WriteTable(FailureShape(), rows), tail);
    var d := Input(WriteSheets(sheets, tables) + more, used);
    ReadSheetsBack(table, sheets, tables, more, used);
    if used + SheetsCost(tables) <= MAX_STRING_BYTES {
      var after := used + SheetsCost(tables);
      FailuresBack(table, |tables[6]|, rows, tail, after);
      AssembledBack(k, VERSION, m, tables, rows, t, tail, after);
      BodySteps(k, table, sheets, VERSION, m, d, Got(tables, Input(more, after)), RowsBack(rows, tail, after));
    } else {
      BodySteps(k, table, sheets, VERSION, m, d, Stop, Stop);
    }
  }

  lemma HeaderBack(m: Meta)
    requires MetaTyped(m) && MetaShort(m)
    ensures RowFits(HeaderShape(), HeaderRow(VERSION, m)) && HeaderFrom(HeaderRow(VERSION, m)) == Some((VERSION, SettledMeta(m)))
  {
    MetaOfRow(VERSION, m);
  }

  // The steps of decoding, one after the other.
  lemma DecodeSteps(row: RowReader, table: TableReader, d: Input, d1: Input, h: Read<Row>, body: Read<Snapshot>)
    requires ReadMagic(d) == Got((), d1) && h == row(HeaderShape(), d1)
    requires h.Got? && HeaderFrom(h.value).Some? ==>
               var (version, m) := HeaderFrom(h.value).value;
               body == ReadBody(CodecsOf(version), table, FileSheets(version), version, m, h.rest)
    ensures DecodeWith(row, table, d) == if h.Stop? || HeaderFrom(h.value).None? || body.Stop? then Stop
                                         else Got((HeaderFrom(h.value).value.0, body.value), body.rest)
  {
  }

  lemma Regroup(a: seq<Byte>, b: seq<Byte>, c: seq<Byte>)
    ensures (a + b) + c == a + (b + c)
  {
  }

  lemma FramedAre(m: Meta, body: seq<Byte>, tail: seq<Byte>)
    requires MetaTyped(m) && MetaShort(m)
    ensures RowFits(HeaderShape(), HeaderRow(VERSION, m))
    ensures Framed(m, body) + tail == Bytes(MAGIC) + (WriteRow(HeaderShape(), HeaderRow(VERSION, m)) + (body + tail))
  {
    HeaderRowFits(VERSION, m);
    Regroup(Bytes(MAGIC), WriteRow(HeaderShape(), HeaderRow(VERSION, m)) + body, tail);
    Regroup(WriteRow(HeaderShape(), HeaderRow(VERSION, m)), body, tail);
  }

  // Decoding a frame is decoding its body, whatever that gives.
  lemma DecodeFramed(read: RowReader, table: TableReader, m: Meta, body: seq<Byte>, tail: seq<Byte>, r: Read<Snapshot>)
    requires MetaTyped(m) && MetaShort(m) && RowsReadBack(read)
    requires r == ReadBody(CodecsOf(VERSION), table, FileSheets(VERSION), VERSION, SettledMeta(m), Input(body + tail, RowCost(HeaderRow(VERSION, m))))
    ensures DecodeWith(read, table, Input(Framed(m, body) + tail, 0)) == if r.Stop? then Stop else Got((VERSION, r.value), r.rest)
  {
    var row := HeaderRow(VERSION, m);
    FramedAre(m, body, tail);
    HeaderBack(m);
    PhaseCost(m);
    var d1 := Input(WriteRow(HeaderShape(), row) + (body + tail), 0);
    assert read(HeaderShape(), d1) == RowBack(row, body + tail, 0);
    ReadMagicBack(d1.bytes, 0);
    DecodeSteps(read, table, Input(Framed(m, body) + tail, 0), d1, RowBack(row, body + tail, 0), r);
  }

  lemma BodyReadBack(k: Codecs, table: TableReader, sheets: seq<Sheet>, s: Snapshot, m: Meta, tail: seq<Byte>, used: nat)
    requires Passes(s) && used <= MAX_STRING_BYTES && TablesBack(table) && k == CodecsOf(VERSION) && sheets == FileSheets(VERSION)
    ensures SheetsFit(sheets, FileTables(k, s)) && RowsFit(FailureShape(), FailureRows(k, s))
    ensures ReadBody(k, table, sheets, VERSION, m, Input(Body(sheets, FileTables(k, s), FailureRows(k, s)) + tail, used))
            == if used + BodyCost(k, s) <= MAX_STRING_BYTES then Got(s.(meta := m), Input(tail, used + BodyCost(k, s))) else Stop
  {
    hide Passes, RowsFit, FileTables, FailureRows, ReadBody, TablesBack;
    var tables, rows := FileTables(k, s), FailureRows(k, s);
    BodyFacts(k, s, m, tables, rows);
    ReadBodyBack(k, table, sheets, tables, rows, m, s.(meta := m), tail, used);
  }

  lemma BodyFacts(k: Codecs, s: Snapshot, m: Meta, tables: seq<seq<Row>>, rows: seq<Row>)
    requires Passes(s) && k == CodecsOf(VERSION) && tables == FileTables(k, s) && rows == FailureRows(k, s)
    ensures SheetsFit(FileSheets(VERSION), tables) && RowsFit(FailureShape(), rows)
    ensures |tables[6]| + |rows| <= MAX_RECORDS && SnapshotFrom(k, VERSION, m, tables, rows) == Some(s.(meta := m))
  {
    BodyFits(k, s);
    RecordTableLength(k, s);
    SnapshotBack(k, s, m);
  }

  lemma DecodeWithBack(read: RowReader, table: TableReader, k: Codecs, sheets: seq<Sheet>, s: Snapshot, tail: seq<Byte>)
    requires Passes(s) && RowsReadBack(read) && TablesBack(table) && k == CodecsOf(VERSION) && sheets == FileSheets(VERSION)
    ensures DecodeWith(read, table, Input(FileBytes(s) + tail, 0))
            == if StringCost(s) <= MAX_STRING_BYTES then Got((VERSION, s.(meta := SettledMeta(s.meta))), Input(tail, StringCost(s))) else Stop
  {
    var m, cost := SettledMeta(s.meta), RowCost(HeaderRow(VERSION, s.meta));
    PhaseCost(s.meta);
    BodyReadBack(k, table, sheets, s, m, tail, cost);
    DecodeFramed(read, table, s.meta, Body(sheets, FileTables(k, s), FailureRows(k, s)), tail,
                 if cost + BodyCost(k, s) <= MAX_STRING_BYTES then Got(s.(meta := m), Input(tail, cost + BodyCost(k, s))) else Stop);
  }

  // Round trip: the bytes of a snapshot, followed by anything, decode to its
  // persisted fields and leave exactly that tail; reader and writer agree on the
  // string budget, so beyond it the reader refuses what the writer refuses.
  lemma DecodeOfEncode(s: Snapshot, tail: seq<Byte>)
    requires Passes(s)
    ensures DecodeRaw(Input(FileBytes(s) + tail, 0))
            == if StringCost(s) <= MAX_STRING_BYTES then Got((VERSION, s.(meta := SettledMeta(s.meta))), Input(tail, StringCost(s))) else Stop
  {
    RowsInvert();
    TablesReadBack();
    DecodeWithBack(RowByRow(), TableByTable(), CodecsOf(VERSION), FileSheets(VERSION), s, tail);
  }

  lemma PhaseCost(m: Meta)
    requires MetaTyped(m) && MetaShort(m)
    ensures RowCost(HeaderRow(VERSION, m)) == |m.phase| <= MAX_STRING_BYTES
  {
    var row := HeaderRow(VERSION, m);
    assert row == row[..4] + ([Str(m.phase)] + row[5..]);
    NumbersCostNothing(row[..4]);
    NumbersCostNothing(row[5..]);
    RowCostJoin(row[..4], [Str(m.phase)] + row[5..]);
    RowCostJoin([Str(m.phase)], row[5..]);
    assert [Str(m.phase)][1..] == [];
  }

  // Within the budget, decoding gives the snapshot itself iff no recorded time is
  // the epoch, which the file cannot tell from a time that was never set.
  lemma EpochExact(s: Snapshot, tail: seq<Byte>)
    requires Passes(s) && StringCost(s) <= MAX_STRING_BYTES
    ensures DecodeRaw(Input(FileBytes(s) + tail, 0)) == Got((VERSION, s), Input(tail, StringCost(s)))
            <==> s.meta.seenAt != Some(0) && s.meta.refreshAttempt != Some(0) && s.meta.completedAt != Some(0)
  {
    hide DecodeRaw, FileBytes, Passes, StringCost;
    DecodeOfEncode(s, tail);
    assert s.(meta := SettledMeta(s.meta)) == s <==> SettledMeta(s.meta) == s.meta;
  }

  // ------------------------------------------------- only what was written

  // The decoded items are good and would be written as these rows.
  ghost predicate Made<T(!new)>(enc: T -> Row, dec: Row -> Option<T>, good: T -> bool, rows: seq<Row>) {
    var xs := ItemsFrom(dec, rows);
    xs.Some? ==> RowsFrom(enc, xs.value) == rows && |xs.value| == |rows| && forall x | x in xs.value :: good(x)
  }

  lemma MadeFrom<T(!new)>(shape: Shape, enc: T -> Row, dec: Row -> Option<T>, good: T -> bool, rows: seq<Row>)
    requires Inverse(shape, enc, dec, good) && RowsFit(shape, rows)
    ensures Made(enc, dec, good, rows)
  {
    if ItemsFrom(dec, rows).Some? { ItemsOnly(shape, enc, dec, good, rows); }
  }

  ghost predicate AllMade(k: Codecs, tables: seq<seq<Row>>, rows: seq<Row>)
    requires |tables| == 8
  {
    && Made(k.textEnc, k.textDec, TextGood(), tables[0])
    && Made(k.textEnc, k.textDec, TextGood(), tables[1])
    && Made(k.textEnc, k.textDec, TextGood(), tables[2])
    && Made(k.textEnc, k.textDec, TextGood(), tables[3])
    && Made(k.textEnc, k.textDec, TextGood(), tables[4])
    && Made(k.refEnc, k.refDec, RefGood(), tables[5])
    && Made(k.recordEnc, k.recordDec, RecordGood(VERSION), tables[6])
    && Made(k.credentialEnc, k.credentialDec, CredentialGood(), tables[7])
    && Made(k.failureEnc, k.failureDec, FailureGood(), rows)
  }

  ghost predicate Sized(tables: seq<seq<Row>>)
  {
    && |tables| == 8
    && |tables[0]| <= MAX_SOURCES && |tables[1]| <= MAX_SOURCES && |tables[2]| <= MAX_PROTOCOLS && |tables[3]| <= MAX_COUNTRIES
    && |tables[4]| <= MAX_CITIES && |tables[5]| <= MAX_SOURCE_REFS && |tables[6]| <= MAX_RECORDS && |tables[7]| <= MAX_CREDENTIALS
  }

  lemma FitsSized(tables: seq<seq<Row>>)
    requires SheetsFit(FileSheets(VERSION), tables)
    ensures Sized(tables)
  {
    var sheets := FileSheets(VERSION);
    SheetsFitAt(sheets, tables, 0);
    SheetsFitAt(sheets, tables, 1);
    SheetsFitAt(sheets, tables, 2);
    SheetsFitAt(sheets, tables, 3);
    SheetsFitAt(sheets, tables, 4);
    SheetsFitAt(sheets, tables, 5);
    SheetsFitAt(sheets, tables, 6);
    SheetsFitAt(sheets, tables, 7);
  }

  lemma FitsMade(k: Codecs, sheets: seq<Sheet>, tables: seq<seq<Row>>, rows: seq<Row>)
    requires CodecsInvert(k, VERSION) && sheets == FileSheets(VERSION) && SheetsFit(sheets, tables) && RowsFit(FailureShape(), rows)
    ensures |tables| == 8 && AllMade(k, tables, rows)
  {
    TextMade(k, sheets, tables, 0);
    TextMade(k, sheets, tables, 1);
    TextMade(k, sheets, tables, 2);
    TextMade(k, sheets, tables, 3);
    TextMade(k, sheets, tables, 4);
    SheetsFitAt(sheets, tables, 5);
    MadeFrom(RefShape(), k.refEnc, k.refDec, RefGood(), tables[5]);
    SheetsFitAt(sheets, tables, 6);
    MadeFrom(RecordShape(VERSION), k.recordEnc, k.recordDec, RecordGood(VERSION), tables[6]);
    SheetsFitAt(sheets, tables, 7);
    MadeFrom(CredentialShape(), k.credentialEnc, k.credentialDec, CredentialGood(), tables[7]);
    MadeFrom(FailureShape(), k.failureEnc, k.failureDec, FailureGood(), rows);
  }

  lemma TextMade(k: Codecs, sheets: seq<Sheet>, tables: seq<seq<Row>>, i: nat)
    requires CodecsInvert(k, VERSION) && sheets == FileSheets(VERSION) && SheetsFit(sheets, tables) && i < 5
    ensures |tables| == 8 && Made(k.textEnc, k.textDec, TextGood(), tables[i])
  {
    SheetsFitAt(sheets, tables, i);
    MadeFrom(TextShape(), k.textEnc, k.textDec, TextGood(), tables[i]);
  }

  // A snapshot found in fitting tables passes, and has these tables.
  lemma SnapshotOnly(k: Codecs, m: Meta, tables: seq<seq<Row>>, rows: seq<Row>)
    requires Sized(tables) && AllMade(k, tables, rows) && |tables[6]| + |rows| <= MAX_RECORDS
    requires MetaTyped(m) && MetaShort(m) && SnapshotFrom(k, VERSION, m, tables, rows).Some?
    ensures var s := SnapshotFrom(k, VERSION, m, tables, rows).value;
            Passes(s) && s.meta == m && FileTables(k, s) == tables && FailureRows(k, s) == rows
  {
    SnapshotPasses(k, m, tables, rows);
    SnapshotTables(k, m, tables, rows);
  }

  lemma SnapshotTables(k: Codecs, m: Meta, tables: seq<seq<Row>>, rows: seq<Row>)
    requires |tables| == 8 && AllMade(k, tables, rows) && SnapshotFrom(k, VERSION, m, tables, rows).Some?
    ensures var s := SnapshotFrom(k, VERSION, m, tables, rows).value; FileTables(k, s) == tables && FailureRows(k, s) == rows
  {
    var s := SnapshotFrom(k, VERSION, m, tables, rows).value;
    assert DictionaryTables(k, s.tables) == tables[..5];
    assert ItemTables(k, s) == tables[5..];
    assert tables == tables[..5] + tables[5..];
  }

  lemma SnapshotPasses(k: Codecs, m: Meta, tables: seq<seq<Row>>, rows: seq<Row>)
    requires Sized(tables) && AllMade(k, tables, rows) && |tables[6]| + |rows| <= MAX_RECORDS
    requires MetaTyped(m) && MetaShort(m) && SnapshotFrom(k, VERSION, m, tables, rows).Some?
    ensures Passes(SnapshotFrom(k, VERSION, m, tables, rows).value)
  {
    var s := SnapshotFrom(k, VERSION, m, tables, rows).value;
    GoodTexts(s.tables.sourceKeys);
    GoodTexts(s.tables.sources);
    GoodTexts(s.tables.protocols);
    GoodTexts(s.tables.countries);
    GoodTexts(s.tables.cities);
  }

  lemma GoodTexts(xs: seq<string>)
    requires forall x | x in xs :: TextGood()(x)
    ensures ByteTexts(xs) && ShortTexts(xs)
  {
  }

  lemma FileSheetsLimited(version: nat)
    ensures AllSheetsLimited(FileSheets(version))
  {
    RecordShapeLimited(version);
    forall s | s in DictionarySheets() ensures SheetLimited(s) { assert Limited(S(MAX_TEXT)); }
    forall s | s in ItemSheets(version) ensures SheetLimited(s) {
      assert Limited(S(MAX_TEXT)) && Limited(N(W32));
    }
  }

  lemma RecordShapeLimited(version: nat)
    ensures forall i | 0 <= i < |RecordShape(version)| :: Limited(RecordShape(version)[i])
    ensures forall i | 0 <= i < |FailureShape()| :: Limited(FailureShape()[i])
  {
    AllNamesLimited(version);
    AllNamesLimited(VERSION);
  }

  lemma AllNamesLimited(version: nat)
    ensures forall i | 0 <= i < |NameShape(version)| :: Limited(NameShape(version)[i])
    ensures forall i | 0 <= i < |NumberShape()| :: Limited(NumberShape()[i])
    ensures forall i | 0 <= i < |AlternateShape(version)| :: Limited(AlternateShape(version)[i])
  {
  }

  lemma FailuresReadOnly(table: TableReader, pending: nat, d: Input)
    requires TablesOnly(table) && d.used <= MAX_STRING_BYTES && pending <= MAX_RECORDS
    requires ReadFailures(table, VERSION, pending, d).Got?
    ensures var r := ReadFailures(table, VERSION, pending, d);
            && RowsFit(FailureShape(), r.value) && pending + |r.value| <= MAX_RECORDS
            && d.bytes == WriteTable(FailureShape(), r.value) + r.rest.bytes
            && r.rest.used == d.used + RowsCost(r.value) <= MAX_STRING_BYTES
  {
    RecordShapeLimited(VERSION);
    assert SheetLimited(FailureSheet(pending));
    assert TableWritten(FailureSheet(pending).limit, FailureSheet(pending).shape, d, table(FailureSheet(pending), d));
  }

  // A version 4 body that was read is what the writer writes for it.
  lemma ReadBodyOnly(k: Codecs, table: TableReader, sheets: seq<Sheet>, m: Meta, d: Input)
    requires TablesOnly(table) && d.used <= MAX_STRING_BYTES && MetaTyped(m) && MetaShort(m)
    requires k == CodecsOf(VERSION) && sheets == FileSheets(VERSION)
    requires ReadBody(k, table, sheets, VERSION, m, d).Got?
    ensures var r := ReadBody(k, table, sheets, VERSION, m, d); var s := r.value;
            && Passes(s) && s.meta == m
            && SheetsFit(sheets, FileTables(k, s)) && RowsFit(FailureShape(), FailureRows(k, s))
            && d.bytes == Body(sheets, FileTables(k, s), FailureRows(k, s)) + r.rest.bytes
            && r.rest.used == d.used + BodyCost(k, s) <= MAX_STRING_BYTES
  {
    var first := ReadSheets(table, sheets, d);
    FileSheetsLimited(VERSION);
    ReadSheetsOnly(table, sheets, d);
    FitsSized(first.value);
    var failures := ReadFailures(table, VERSION, |first.value[6]|, first.rest);
    BodySteps(k, table, sheets, VERSION, m, d, first, failures);
    FailuresReadOnly(table, |first.value[6]|, first.rest);
    CodecsOfInvert(VERSION);
    FitsMade(k, sheets, first.value, failures.value);
    SnapshotOnly(k, m, first.value, failures.value);
    Regroup(WriteSheets(sheets, first.value), WriteTable(FailureShape(), failures.value), failures.rest.bytes);
  }

  // What decodes is a frame around a body that decodes.
  lemma DecodeWithOnly(read: RowReader, table: TableReader, d: Input) returns (m: Meta, d2: Input)
    requires RowsReadOnly(read) && d.used == 0 && DecodeWith(read, table, d).Got? && DecodeWith(read, table, d).value.0 == VERSION
    ensures MetaTyped(m) && MetaShort(m) && SettledMeta(m) == m
    ensures d2.used == RowCost(HeaderRow(VERSION, m)) <= MAX_STRING_BYTES && d.bytes == Framed(m, d2.bytes)
    ensures var r, body := DecodeWith(read, table, d), ReadBody(CodecsOf(VERSION), table, FileSheets(VERSION), VERSION, m, d2);
            body.Got? && r.value.1 == body.value && r.rest == body.rest
  {
    var d1 := ReadMagic(d).rest;
    var h := read(HeaderShape(), d1);
    HeaderLimited();
    assert RowWritten(HeaderShape(), d1, h);
    var version;
    version, m, d2 := HeaderFrom(h.value).value.0, HeaderFrom(h.value).value.1, h.rest;
    HeaderOnly(h.value);
    DecodeSteps(read, table, d, d1, h, ReadBody(CodecsOf(version), table, FileSheets(version), version, m, h.rest));
    assert d.bytes == d.bytes[..8] + d.bytes[8..];
  }

  lemma DecodeOnly(read: RowReader, table: TableReader, k: Codecs, sheets: seq<Sheet>, d: Input)
    requires RowsReadOnly(read) && TablesOnly(table) && k == CodecsOf(VERSION) && sheets == FileSheets(VERSION)
    requires d.used == 0 && DecodeWith(read, table, d).Got? && DecodeWith(read, table, d).value.0 == VERSION
    ensures var r := DecodeWith(read, table, d); var s := r.value.1;
            && Passes(s) && SettledMeta(s.meta) == s.meta
            && d.bytes == FileBytes(s) + r.rest.bytes && r.rest.used == StringCost(s) <= MAX_STRING_BYTES
  {
    hide RowsReadOnly, TablesOnly, FileTables, FailureRows, ReadBody, SheetsFit;
    var m, d2 := DecodeWithOnly(read, table, d);
    ReadBodyOnly(k, table, sheets, m, d2);
    var body := ReadBody(k, table, sheets, VERSION, m, d2);
    FramedAre(m, Body(sheets, FileTables(k, body.value), FailureRows(k, body.value)), body.rest.bytes);
  }

  // Nothing but an encoding decodes: a version 4 file that is read at all is,
  // byte for byte, what the encoder writes for the snapshot it gave, and that
  // snapshot is one the encoder accepts.
  lemma EncodeOfDecode(d: Input)
    requires d.used == 0 && DecodeRaw(d).Got? && DecodeRaw(d).value.0 == VERSION
    ensures var r := DecodeRaw(d); var s := r.value.1;
            && Passes(s) && SettledMeta(s.meta) == s.meta
            && d.bytes == FileBytes(s) + r.rest.bytes && r.rest.used == StringCost(s) <= MAX_STRING_BYTES
  {
    RowsInvert();
    TablesReadOnly();
    DecodeOnly(RowByRow(), TableByTable(), CodecsOf(VERSION), FileSheets(VERSION), d);
  }

  lemma HeaderLimited()
    ensures AllLimited(HeaderShape())
  {
    forall f | f in HeaderShape() ensures Limited(f) { }
  }

  lemma HeaderOnly(h: Row)
    requires RowFits(HeaderShape(), h) && HeaderFrom(h).Some?
    ensures var (version, m) := HeaderFrom(h).value;
            MetaTyped(m) && MetaShort(m) && SettledMeta(m) == m && HeaderRow(version, m) == h
  {
    HeaderAre(h);
    RowOfMeta(h);
  }
}

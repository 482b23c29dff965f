// candidateCacheEncoder and candidateCacheDecoder (candidatecache.go): the
// objects that advance a byte stream and a string counter, proved to compute
// the functions of CacheCodec.
module CacheStream {
  import opened Proxies
  import opened CatalogModel
  import opened Wire
  import opened CacheFormat
  import opened CacheCodec

  // ------------------------------------------------------------ row prefixes

  predicate FieldTyped(f: Field, v: Value) {
    match f
    case N(w) => v.Num? && InWidth(w, v.n)
    case S(limit) => v.Str? && ByteText(v.s) && limit < TWO_32
  }

  predicate RowTyped(shape: Shape, row: Row) { |row| == |shape| && forall i | 0 <= i < |row| :: FieldTyped(shape[i], row[i]) }

  // A prefix of a row and the field after it.
  lemma PrefixStep(shape: Shape, row: Row, i: nat)
    requires |row| == |shape| && i < |row| && RowFits(shape[..i], row[..i])
    ensures RowFits(shape[..i + 1], row[..i + 1]) <==> FieldFits(shape[i], row[i])
    ensures FieldFits(shape[i], row[i]) ==>
              WriteRow(shape[..i + 1], row[..i + 1]) == WriteRow(shape[..i], row[..i]) + WriteField(shape[i], row[i])
    ensures RowCost(row[..i + 1]) == RowCost(row[..i]) + CostOf(row[i])
  {
    assert shape[..i + 1] == shape[..i] + [shape[i]] && row[..i + 1] == row[..i] + [row[i]];
    var f, v := [shape[i]], [row[i]];
    assert f[1..] == [] && v[1..] == [];
    assert RowFits(f, v) <==> FieldFits(shape[i], row[i]);
    RowFitsJoin(shape[..i], f, row[..i], v);
    RowCostJoin(row[..i], v);
    if FieldFits(shape[i], row[i]) {
      WriteRowJoin(shape[..i], f, row[..i], v);
      assert WriteRow(f, v) == WriteField(shape[i], row[i]) + [];
    }
  }

  lemma PrefixCost(row: Row, i: nat)
    requires i < |row|
    ensures RowCost(row[..i]) + CostOf(row[i]) <= RowCost(row)
  {
    assert row == row[..i] + ([row[i]] + row[i + 1..]);
    RowCostJoin(row[..i], [row[i]] + row[i + 1..]);
    RowCostJoin([row[i]], row[i + 1..]);
    assert [row[i]][1..] == [];
  }

  // ------------------------------------------------------------ table prefixes

  lemma {:induction false} RowsCostPrefix(rows: seq<Row>, i: nat)
    requires i <= |rows|
    ensures RowsCost(rows[..i]) <= RowsCost(rows)
    ensures i < |rows| ==> RowsCost(rows[..i]) + RowCost(rows[i]) <= RowsCost(rows)
  {
    if i < |rows| {
      var front := rows[..|rows|-1];
      if i == |rows| - 1 {
      } else {
        RowsCostPrefix(front, i);
        assert front[..i] == rows[..i];
      }
    } else {
      assert rows[..i] == rows;
    }
  }

  lemma {:induction false} RowsFitAt(shape: Shape, rows: seq<Row>, i: nat)
    requires RowsFit(shape, rows) && i < |rows|
    ensures RowFits(shape, rows[i])
  {
    if i < |rows| - 1 { RowsFitAt(shape, rows[..|rows|-1], i); }
  }

  lemma TablePrefixStep(shape: Shape, rows: seq<Row>, i: nat)
    requires i < |rows| && RowsFit(shape, rows[..i])
    ensures RowsFit(shape, rows[..i + 1]) <==> RowFits(shape, rows[i])
    ensures RowFits(shape, rows[i]) ==> WriteRows(shape, rows[..i + 1]) == WriteRows(shape, rows[..i]) + WriteRow(shape, rows[i])
    ensures RowsCost(rows[..i + 1]) == RowsCost(rows[..i]) + RowCost(rows[i])
  {
    var more := rows[..i + 1];
    assert more[..|more|-1] == rows[..i] && more[|more|-1] == rows[i];
  }

  ghost predicate TableTyped(shape: Shape, rows: seq<Row>) { forall i | 0 <= i < |rows| :: RowTyped(shape, rows[i]) }

  // ----------------------------------------------------------- sheet prefixes

  lemma {:induction false} WriteSheetsJoin(a: seq<Sheet>, b: seq<Sheet>, x: seq<seq<Row>>, y: seq<seq<Row>>)
    requires |a| == |x| && SheetsFit(a, x) && SheetsFit(b, y)
    ensures SheetsFit(a + b, x + y) && WriteSheets(a + b, x + y) == WriteSheets(a, x) + WriteSheets(b, y)
  {
    hide WriteTable, RowsFit;
    SheetsFitJoin(a, b, x, y);
    if a == [] {
      assert a + b == b && x + y == y;
    } else {
      assert (a + b)[1..] == a[1..] + b && (x + y)[1..] == x[1..] + y;
      WriteSheetsJoin(a[1..], b, x[1..], y);
      var first := WriteTable(a[0].shape, x[0]);
      SheetsConsWritten(a + b, x + y, first, WriteSheets(a[1..] + b, x[1..] + y));
      SheetsConsWritten(a, x, first, WriteSheets(a[1..], x[1..]));
      Regroup(first, WriteSheets(a[1..], x[1..]), WriteSheets(b, y));
    }
  }

  lemma SheetsConsWritten(sheets: seq<Sheet>, tables: seq<seq<Row>>, first: seq<Byte>, rest: seq<Byte>)
    requires SheetsFit(sheets, tables) && tables != [] && first == WriteTable(sheets[0].shape, tables[0])
    requires rest == WriteSheets(sheets[1..], tables[1..])
    ensures WriteSheets(sheets, tables) == first + rest
  {
  }

  lemma {:induction false} SheetsCostJoin(a: seq<seq<Row>>, b: seq<seq<Row>>)
    ensures SheetsCost(a + b) == SheetsCost(a) + SheetsCost(b)
  {
    if a == [] {
      assert a + b == b;
    } else {
      assert (a + b)[1..] == a[1..] + b;
      SheetsCostJoin(a[1..], b);
    }
  }

  lemma OneSheet(sheet: Sheet, rows: seq<Row>)
    ensures SheetsFit([sheet], [rows]) <==> SheetFits(sheet, rows)
    ensures SheetFits(sheet, rows) ==> WriteSheets([sheet], [rows]) == WriteTable(sheet.shape, rows)
    ensures SheetsCost([rows]) == RowsCost(rows)
  {
    assert [sheet][1..] == [] && [rows][1..] == [];
    assert SheetsFit([], []);
    if SheetFits(sheet, rows) { assert WriteSheets([sheet], [rows]) == WriteTable(sheet.shape, rows) + []; }
  }

  lemma SheetPrefixStep(sheets: seq<Sheet>, tables: seq<seq<Row>>, i: nat)
    requires |tables| == |sheets| && i < |tables| && SheetsFit(sheets[..i], tables[..i])
    ensures SheetsFit(sheets[..i + 1], tables[..i + 1]) <==> SheetFits(sheets[i], tables[i])
    ensures SheetFits(sheets[i], tables[i]) ==>
              WriteSheets(sheets[..i + 1], tables[..i + 1]) == WriteSheets(sheets[..i], tables[..i]) + WriteTable(sheets[i].shape, tables[i])
    ensures SheetsCost(tables[..i + 1]) == SheetsCost(tables[..i]) + RowsCost(tables[i])
  {
    assert sheets[..i + 1] == sheets[..i] + [sheets[i]] && tables[..i + 1] == tables[..i] + [tables[i]];
    OneSheet(sheets[i], tables[i]);
    SheetsFitJoin(sheets[..i], [sheets[i]], tables[..i], [tables[i]]);
    SheetsCostJoin(tables[..i], [tables[i]]);
    if SheetFits(sheets[i], tables[i]) { WriteSheetsJoin(sheets[..i], [sheets[i]], tables[..i], [tables[i]]); }
  }

  lemma SheetPrefixCost(tables: seq<seq<Row>>, i: nat)
    requires i < |tables|
    ensures SheetsCost(tables[..i]) + RowsCost(tables[i]) <= SheetsCost(tables)
  {
    assert tables == tables[..i] + ([tables[i]] + tables[i + 1..]);
    SheetsCostJoin(tables[..i], [tables[i]] + tables[i + 1..]);
    SheetsCostJoin([tables[i]], tables[i + 1..]);
    assert [tables[i]][1..] == [];
  }

  // --------------------------------------------- rows of typed snapshots

  lemma RowTypedJoin(a: Shape, b: Shape, x: Row, y: Row)
    requires RowTyped(a, x) && RowTyped(b, y)
    ensures RowTyped(a + b, x + y)
  {
    forall i | 0 <= i < |x + y| ensures FieldTyped((a + b)[i], (x + y)[i]) {
      if i >= |x| { assert FieldTyped(b[i - |x|], y[i - |x|]); }
    }
  }

  lemma NumbersTyped(r: Record)
    requires RecordTyped(r)
    ensures RowTyped(NumberShape(), NumberPart(r))
  {
    NumberPartFits(r);
    forall i | 0 <= i < 10 ensures FieldTyped(NumberShape()[i], NumberPart(r)[i]) { RowFitsAt(NumberShape(), NumberPart(r), i); }
  }

  lemma AlternatesTyped(r: Record)
    requires RecordTyped(r)
    ensures RowTyped(AlternateShape(VERSION), AlternatePart(VERSION, r))
  {
    AlternatePartFits(VERSION, r);
    forall i | 0 <= i < 2 ensures FieldTyped(AlternateShape(VERSION)[i], AlternatePart(VERSION, r)[i]) {
      RowFitsAt(AlternateShape(VERSION), AlternatePart(VERSION, r), i);
    }
  }

  lemma RecordRowTyped(r: Record)
    requires RecordTyped(r)
    ensures RowTyped(RecordShape(VERSION), RecordRow(VERSION, r))
  {
    NumbersTyped(r);
    AlternatesTyped(r);
    RowTypedJoin(NumberShape(), AlternateShape(VERSION), NumberPart(r), AlternatePart(VERSION, r));
    assert RowTyped(NameShape(VERSION), NamePart(VERSION, r));
    RowTypedJoin(NameShape(VERSION), NumberShape() + AlternateShape(VERSION), NamePart(VERSION, r), NumberPart(r) + AlternatePart(VERSION, r));
  }

  lemma FailureRowTyped(f: Failure)
    requires FailureTyped(f)
    ensures RowTyped(FailureShape(), FailureRow(f))
  {
    RecordRowTyped(f.record);
    Widths(KindCode(f.kind));
    assert RowTyped(VerdictShape(), [Num(KindCode(f.kind)), Str(f.lastError)]);
    RowTypedJoin(RecordShape(VERSION), VerdictShape(), RecordRow(VERSION, f.record), [Num(KindCode(f.kind)), Str(f.lastError)]);
  }

  lemma RecordRowShort(r: Record)
    requires RecordTyped(r) && RowFits(RecordShape(VERSION), RecordRow(VERSION, r))
    ensures RecordShort(r)
  {
    RowFitsAt(RecordShape(VERSION), RecordRow(VERSION, r), 0);
    RowFitsAt(RecordShape(VERSION), RecordRow(VERSION, r), 1);
    RowFitsAt(RecordShape(VERSION), RecordRow(VERSION, r), 2);
  }

  lemma FailureRowShort(f: Failure)
    requires FailureTyped(f) && RowFits(FailureShape(), FailureRow(f))
    ensures FailureShort(f)
  {
    RecordRowTyped(f.record);
    RowFitsJoin(RecordShape(VERSION), VerdictShape(), RecordRow(VERSION, f.record), [Num(KindCode(f.kind)), Str(f.lastError)]);
    RecordRowShort(f.record);
    VerdictRowFits(f);
  }

  // A way of writing items: their rows have the shape's types, and fit only if
  // the item is short.
  ghost predicate Writes<T(!new)>(shape: Shape, enc: T -> Row, typed: T -> bool, brief: T -> bool) {
    forall x | typed(x) :: RowTyped(shape, enc(x)) && (RowFits(shape, enc(x)) ==> brief(x))
  }

  lemma {:induction false} ItemsWrite<T(!new)>(shape: Shape, enc: T -> Row, typed: T -> bool, brief: T -> bool, xs: seq<T>)
    requires Writes(shape, enc, typed, brief) && forall x | x in xs :: typed(x)
    ensures TableTyped(shape, RowsFrom(enc, xs))
    ensures RowsFit(shape, RowsFrom(enc, xs)) ==> forall x | x in xs :: brief(x)
  {
    if xs != [] {
      var front, last, rows := xs[..|xs|-1], xs[|xs|-1], RowsFrom(enc, xs);
      assert last in xs && forall x | x in front :: x in xs;
      ItemsWrite(shape, enc, typed, brief, front);
      assert rows[..|rows|-1] == RowsFrom(enc, front) && rows[|rows|-1] == enc(last);
      assert xs == front + [last];
    }
  }

  function TextTyped(): string -> bool { (x: string) => ByteText(x) }
  function TextBrief(): string -> bool { (x: string) => |x| <= MAX_TEXT }
  function RefTyped(): nat -> bool { (n: nat) => n < TWO_32 }
  function RefBrief(): nat -> bool { (n: nat) => true }
  function RecordIsTyped(): Record -> bool { (r: Record) => RecordTyped(r) }
  function RecordBrief(): Record -> bool { (r: Record) => RecordShort(r) }
  function CredentialIsTyped(): Credential -> bool { (c: Credential) => CredentialTyped(c) }
  function CredentialBrief(): Credential -> bool { (c: Credential) => CredentialShort(c) }
  function FailureIsTyped(): Failure -> bool { (f: Failure) => FailureTyped(f) }
  function FailureBrief(): Failure -> bool { (f: Failure) => FailureShort(f) }

  ghost predicate CodecsWrite(k: Codecs) {
    && Writes(TextShape(), k.textEnc, TextTyped(), TextBrief())
    && Writes(RefShape(), k.refEnc, RefTyped(), RefBrief())
    && Writes(RecordShape(VERSION), k.recordEnc, RecordIsTyped(), RecordBrief())
    && Writes(CredentialShape(), k.credentialEnc, CredentialIsTyped(), CredentialBrief())
    && Writes(FailureShape(), k.failureEnc, FailureIsTyped(), FailureBrief())
  }

  lemma CodecsOfWrite()
    ensures CodecsWrite(CodecsOf(VERSION))
  {
    forall x | TextTyped()(x) ensures RowTyped(TextShape(), TextEnc()(x)) && (RowFits(TextShape(), TextEnc()(x)) ==> TextBrief()(x)) {
      TextRowFits(x);
    }
    forall n: nat | RefTyped()(n) ensures RowTyped(RefShape(), RefEnc()(n)) { Widths(n); }
    forall r | RecordIsTyped()(r)
      ensures RowTyped(RecordShape(VERSION), RecordEnc(VERSION)(r)) && (RowFits(RecordShape(VERSION), RecordEnc(VERSION)(r)) ==> RecordBrief()(r))
    {
      RecordRowTyped(r);
      if RowFits(RecordShape(VERSION), RecordRow(VERSION, r)) { RecordRowShort(r); }
    }
    forall c | CredentialIsTyped()(c)
      ensures RowTyped(CredentialShape(), CredentialEnc()(c)) && (RowFits(CredentialShape(), CredentialEnc()(c)) ==> CredentialBrief()(c))
    {
      CredentialRowFits(c);
    }
    forall f | FailureIsTyped()(f)
      ensures RowTyped(FailureShape(), FailureEnc()(f)) && (RowFits(FailureShape(), FailureEnc()(f)) ==> FailureBrief()(f))
    {
      FailureRowTyped(f);
      if RowFits(FailureShape(), FailureRow(f)) { FailureRowShort(f); }
    }
  }

  // The tables of a typed snapshot can be written, and fit only if it is short.
  ghost predicate TablesTyped(sheets: seq<Sheet>, tables: seq<seq<Row>>) {
    |tables| == |sheets| && forall i | 0 <= i < |tables| :: |tables[i]| <= sheets[i].limit < TWO_32 && TableTyped(sheets[i].shape, tables[i])
  }

  lemma FileTablesTyped(k: Codecs, s: Snapshot, sheets: seq<Sheet>, tables: seq<seq<Row>>)
    requires CodecsWrite(k) && Typed(s) && Counted(s) && sheets == FileSheets(VERSION) && tables == FileTables(k, s)
    ensures TablesTyped(sheets, tables) && TableTyped(FailureShape(), FailureRows(k, s))
  {
    var t := s.tables;
    TextsTyped(k, t.sourceKeys);
    TextsTyped(k, t.sources);
    TextsTyped(k, t.protocols);
    TextsTyped(k, t.countries);
    TextsTyped(k, t.cities);
    ItemsWrite(RefShape(), k.refEnc, RefTyped(), RefBrief(), t.sourceRefs);
    ItemsWrite(RecordShape(VERSION), k.recordEnc, RecordIsTyped(), RecordBrief(), s.records);
    ItemsWrite(CredentialShape(), k.credentialEnc, CredentialIsTyped(), CredentialBrief(), s.alternates);
    ItemsWrite(FailureShape(), k.failureEnc, FailureIsTyped(), FailureBrief(), s.failed);
    assert tables[..5] == DictionaryTables(k, t) && tables[5..] == ItemTables(k, s);
  }

  lemma TextsTyped(k: Codecs, xs: seq<string>)
    requires CodecsWrite(k) && ByteTexts(xs)
    ensures TableTyped(TextShape(), RowsFrom(k.textEnc, xs))
    ensures RowsFit(TextShape(), RowsFrom(k.textEnc, xs)) ==> ShortTexts(xs)
  {
    ItemsWrite(TextShape(), k.textEnc, TextTyped(), TextBrief(), xs);
  }

  // The text table at place i, which the dictionary d was written to.
  lemma DictionaryShort(k: Codecs, sheets: seq<Sheet>, tables: seq<seq<Row>>, i: nat, d: seq<string>)
    requires CodecsWrite(k) && sheets == FileSheets(VERSION) && SheetsFit(sheets, tables) && i < 5 && |tables| == 8
    requires tables[i] == RowsFrom(k.textEnc, d) && ByteTexts(d)
    ensures ShortTexts(d)
  {
    SheetsFitAt(sheets, tables, i);
    TextsTyped(k, d);
  }

  lemma DictionariesShort(k: Codecs, t: Tables, sheets: seq<Sheet>, tables: seq<seq<Row>>)
    requires CodecsWrite(k) && sheets == FileSheets(VERSION) && SheetsFit(sheets, tables)
    requires |tables| == 8 && tables[..5] == DictionaryTables(k, t)
    requires ByteTexts(t.sourceKeys) && ByteTexts(t.sources) && ByteTexts(t.protocols) && ByteTexts(t.countries) && ByteTexts(t.cities)
    ensures ShortTexts(t.sourceKeys) && ShortTexts(t.sources) && ShortTexts(t.protocols) && ShortTexts(t.countries) && ShortTexts(t.cities)
  {
    var ds := tables[..5];
    assert tables[0] == ds[0] && tables[1] == ds[1] && tables[2] == ds[2] && tables[3] == ds[3] && tables[4] == ds[4];
    DictionaryShort(k, sheets, tables, 0, t.sourceKeys);
    DictionaryShort(k, sheets, tables, 1, t.sources);
    DictionaryShort(k, sheets, tables, 2, t.protocols);
    DictionaryShort(k, sheets, tables, 3, t.countries);
    DictionaryShort(k, sheets, tables, 4, t.cities);
  }

  lemma ItemsShort(k: Codecs, s: Snapshot, sheets: seq<Sheet>, tables: seq<seq<Row>>)
    requires CodecsWrite(k) && sheets == FileSheets(VERSION) && SheetsFit(sheets, tables) && RowsFit(FailureShape(), FailureRows(k, s))
    requires |tables| == 8 && tables[5..] == ItemTables(k, s)
    requires (forall r | r in s.records :: RecordTyped(r)) && (forall c | c in s.alternates :: CredentialTyped(c)) && (forall f | f in s.failed :: FailureTyped(f))
    ensures (forall r | r in s.records :: RecordShort(r)) && (forall c | c in s.alternates :: CredentialShort(c)) && (forall f | f in s.failed :: FailureShort(f))
  {
    var ts := tables[5..];
    assert tables[6] == ts[1] && tables[7] == ts[2];
    SheetsFitAt(sheets, tables, 6);
    ItemsWrite(RecordShape(VERSION), k.recordEnc, RecordIsTyped(), RecordBrief(), s.records);
    SheetsFitAt(sheets, tables, 7);
    ItemsWrite(CredentialShape(), k.credentialEnc, CredentialIsTyped(), CredentialBrief(), s.alternates);
    ItemsWrite(FailureShape(), k.failureEnc, FailureIsTyped(), FailureBrief(), s.failed);
    assert forall r | r in s.records :: RecordBrief()(r);
    assert forall c | c in s.alternates :: CredentialBrief()(c);
    assert forall f | f in s.failed :: FailureBrief()(f);
  }

  lemma FileTablesShort(k: Codecs, s: Snapshot, sheets: seq<Sheet>, tables: seq<seq<Row>>)
    requires CodecsWrite(k) && Typed(s) && sheets == FileSheets(VERSION) && tables == FileTables(k, s) && MetaShort(s.meta)
    requires SheetsFit(sheets, tables) && RowsFit(FailureShape(), FailureRows(k, s))
    ensures Short(s)
  {
    assert tables[..5] == DictionaryTables(k, s.tables) && tables[5..] == ItemTables(k, s);
    DictionariesShort(k, s.tables, sheets, tables);
    ItemsShort(k, s, sheets, tables);
  }

  lemma HeaderTyped(m: Meta)
    requires MetaTyped(m)
    ensures RowTyped(HeaderShape(), HeaderRow(VERSION, m))
  {
    var shape, row := HeaderShape(), HeaderRow(VERSION, m);
    Widths(VERSION);
    Widths(0);
    Widths(m.generation);
    Widths(m.revision);
    Widths(m.sourceErrors);
    Widths(row[6].n);
    Widths(row[7].n);
    Widths(row[8].n);
  }

  // The rows of a snapshot fit exactly when it is short, and spell its bytes.
  lemma EncodeMeans(k: Codecs, s: Snapshot, sheets: seq<Sheet>, tables: seq<seq<Row>>, rows: seq<Row>)
    requires Typed(s) && Counted(s) && k == CodecsOf(VERSION) && sheets == FileSheets(VERSION)
    requires tables == FileTables(k, s) && rows == FailureRows(k, s)
    ensures Short(s) <==> RowFits(HeaderShape(), HeaderRow(VERSION, s.meta)) && SheetsFit(sheets, tables) && RowsFit(FailureShape(), rows)
  {
    HeaderRowFits(VERSION, s.meta);
    if Short(s) {
      BodyFits(k, s);
    } else if RowFits(HeaderShape(), HeaderRow(VERSION, s.meta)) && SheetsFit(sheets, tables) && RowsFit(FailureShape(), rows) {
      CodecsOfWrite();
      FileTablesShort(k, s, sheets, tables);
    }
  }

  lemma EncodeReady(k: Codecs, s: Snapshot, sheets: seq<Sheet>, tables: seq<seq<Row>>, rows: seq<Row>)
    requires Typed(s) && Counted(s) && k == CodecsOf(VERSION) && sheets == FileSheets(VERSION)
    requires tables == FileTables(k, s) && rows == FailureRows(k, s)
    ensures RowTyped(HeaderShape(), HeaderRow(VERSION, s.meta)) && TablesTyped(sheets, tables)
    ensures TableTyped(FailureShape(), rows) && |rows| < TWO_32
    ensures StringCost(s) == RowCost(HeaderRow(VERSION, s.meta)) + (SheetsCost(tables) + RowsCost(rows))
  {
    CodecsOfWrite();
    FileTablesTyped(k, s, sheets, tables);
    HeaderTyped(s.meta);
  }

  lemma EncodeSpells(k: Codecs, s: Snapshot, sheets: seq<Sheet>, tables: seq<seq<Row>>, rows: seq<Row>, body: seq<Byte>)
    requires Passes(s) && k == CodecsOf(VERSION) && sheets == FileSheets(VERSION)
    requires tables == FileTables(k, s) && rows == FailureRows(k, s)
    requires SheetsFit(sheets, tables) && RowsFit(FailureShape(), rows) && body == Body(sheets, tables, rows)
    ensures FileBytes(s) == Framed(s.meta, body)
  {
  }

  lemma Grouped(a: seq<Byte>, b: seq<Byte>, c: seq<Byte>, d: seq<Byte>, e: seq<Byte>)
    ensures (((a + b) + c) + d) + e == a + (b + (c + (d + e)))
  {
    Regroup(c, d, e);
    Regroup(b, c, d + e);
    Regroup(a, b, c + (d + e));
    Regroup(a + b, c, d + e);
    Regroup((a + b) + c, d, e);
  }

  class CacheEncoder {
    var out: seq<Byte>
    var stringBytes: nat

    constructor ()
      ensures out == [] && stringBytes == 0
    {
      out, stringBytes := [], 0;
    }

    method UInt(w: Width, v: nat)
      modifies this`out
      ensures out == old(out) + WriteNum(w, v)
    {
      out := out + WriteNum(w, v);
    }

    // A string over its limit or over the budget is an error.
    method String(value: string, limit: nat) returns (ok: bool)
      requires ByteText(value) && limit < TWO_32
      modifies this
      ensures ok <==> |value| <= limit && old(stringBytes) + |value| <= MAX_STRING_BYTES
      ensures ok ==> out == old(out) + WriteText(value) && stringBytes == old(stringBytes) + |value|
    {
      if |value| > limit { return false; }
      stringBytes := stringBytes + |value|;
      if stringBytes > MAX_STRING_BYTES { return false; }
      UInt(W32, |value|);
      ghost var prefix := out;
      out := out + Bytes(value);
      ok := true;
    }

    method Field(f: Field, v: Value) returns (ok: bool)
      requires FieldTyped(f, v) && stringBytes <= MAX_STRING_BYTES
      modifies this
      ensures ok <==> FieldFits(f, v) && old(stringBytes) + CostOf(v) <= MAX_STRING_BYTES
      ensures ok ==> out == old(out) + WriteField(f, v) && stringBytes == old(stringBytes) + CostOf(v)
    {
      match f
      case N(w) =>
        UInt(w, v.n);
        ok := true;
      case S(limit) =>
        ok := String(v.s, limit);
    }

    // The first i fields of a row are written.
    ghost predicate WroteFields(shape: Shape, row: Row, i: nat, start: seq<Byte>, used: nat)
      reads this
    {
      && i <= |row| == |shape| && RowFits(shape[..i], row[..i])
      && out == start + WriteRow(shape[..i], row[..i])
      && stringBytes == used + RowCost(row[..i]) <= MAX_STRING_BYTES
    }

    method NextField(shape: Shape, row: Row, i: nat, ghost start: seq<Byte>, ghost used: nat) returns (ok: bool)
      requires RowTyped(shape, row) && i < |row| && WroteFields(shape, row, i, start, used)
      modifies this
      ensures ok ==> WroteFields(shape, row, i + 1, start, used)
      ensures !ok ==> !(RowFits(shape, row) && used + RowCost(row) <= MAX_STRING_BYTES)
    {
      PrefixStep(shape, row, i);
      PrefixCost(row, i);
      ghost var written := WriteRow(shape[..i], row[..i]);
      ok := Field(shape[i], row[i]);
      if !ok {
        if RowFits(shape, row) { RowFitsAt(shape, row, i); }
        return;
      }
      Regroup(start, written, WriteField(shape[i], row[i]));
    }

    // The fields of one record, one after the other.
    method Fields(shape: Shape, row: Row) returns (ok: bool)
      requires RowTyped(shape, row) && stringBytes <= MAX_STRING_BYTES
      modifies this
      ensures ok <==> RowFits(shape, row) && old(stringBytes) + RowCost(row) <= MAX_STRING_BYTES
      ensures ok ==> out == old(out) + WriteRow(shape, row) && stringBytes == old(stringBytes) + RowCost(row)
    {
      for i := 0 to |row|
        invariant WroteFields(shape, row, i, old(out), old(stringBytes))
      {
        ok := NextField(shape, row, i, old(out), old(stringBytes));
        if !ok { return; }
      }
      assert shape[..|row|] == shape && row[..|row|] == row;
      ok := true;
    }

    // The first i rows of a table are written.
    ghost predicate WroteRows(shape: Shape, rows: seq<Row>, i: nat, start: seq<Byte>, used: nat)
      reads this
    {
      && i <= |rows| && RowsFit(shape, rows[..i])
      && out == start + WriteRows(shape, rows[..i])
      && stringBytes == used + RowsCost(rows[..i]) <= MAX_STRING_BYTES
    }

    method NextRow(shape: Shape, rows: seq<Row>, i: nat, ghost start: seq<Byte>, ghost used: nat) returns (ok: bool)
      requires i < |rows| && RowTyped(shape, rows[i]) && WroteRows(shape, rows, i, start, used)
      modifies this
      ensures ok ==> WroteRows(shape, rows, i + 1, start, used)
      ensures !ok ==> !(RowsFit(shape, rows) && used + RowsCost(rows) <= MAX_STRING_BYTES)
    {
      TablePrefixStep(shape, rows, i);
      RowsCostPrefix(rows, i);
      ghost var written := WriteRows(shape, rows[..i]);
      ok := Fields(shape, rows[i]);
      if !ok {
        if RowsFit(shape, rows) { RowsFitAt(shape, rows, i); }
        return;
      }
      Regroup(start, written, WriteRow(shape, rows[i]));
    }

    // A counted table, row by row.
    method Table(shape: Shape, rows: seq<Row>) returns (ok: bool)
      requires |rows| < TWO_32 && stringBytes <= MAX_STRING_BYTES && forall i | 0 <= i < |rows| :: RowTyped(shape, rows[i])
      modifies this
      ensures ok <==> RowsFit(shape, rows) && old(stringBytes) + RowsCost(rows) <= MAX_STRING_BYTES
      ensures ok ==> out == old(out) + WriteTable(shape, rows) && stringBytes == old(stringBytes) + RowsCost(rows)
    {
      UInt(W32, |rows|);
      ghost var start := out;
      for i := 0 to |rows|
        invariant WroteRows(shape, rows, i, start, old(stringBytes))
      {
        ok := NextRow(shape, rows, i, start, old(stringBytes));
        if !ok { return; }
      }
      assert rows[..|rows|] == rows;
      Regroup(old(out), WriteNum(W32, |rows|), WriteRows(shape, rows));
      ok := true;
    }

    // The first i tables are written.
    ghost predicate WroteTables(sheets: seq<Sheet>, tables: seq<seq<Row>>, i: nat, start: seq<Byte>, used: nat)
      reads this
    {
      && i <= |tables| == |sheets| && SheetsFit(sheets[..i], tables[..i])
      && out == start + WriteSheets(sheets[..i], tables[..i])
      && stringBytes == used + SheetsCost(tables[..i]) <= MAX_STRING_BYTES
    }

    method NextTable(sheets: seq<Sheet>, tables: seq<seq<Row>>, i: nat, ghost start: seq<Byte>, ghost used: nat) returns (ok: bool)
      requires i < |tables| && WroteTables(sheets, tables, i, start, used)
      requires |tables[i]| <= sheets[i].limit < TWO_32 && TableTyped(sheets[i].shape, tables[i])
      modifies this
      ensures ok ==> WroteTables(sheets, tables, i + 1, start, used)
      ensures !ok ==> !(SheetsFit(sheets, tables) && used + SheetsCost(tables) <= MAX_STRING_BYTES)
    {
      SheetPrefixStep(sheets, tables, i);
      SheetPrefixCost(tables, i);
      ghost var written := WriteSheets(sheets[..i], tables[..i]);
      ok := Table(sheets[i].shape, tables[i]);
      if !ok {
        if SheetsFit(sheets, tables) { SheetsFitAt(sheets, tables, i); }
        return;
      }
      Regroup(start, written, WriteTable(sheets[i].shape, tables[i]));
    }

    method WriteTables(sheets: seq<Sheet>, tables: seq<seq<Row>>) returns (ok: bool)
      requires |tables| == |sheets| && stringBytes <= MAX_STRING_BYTES
      requires forall i | 0 <= i < |tables| :: |tables[i]| <= sheets[i].limit < TWO_32 && TableTyped(sheets[i].shape, tables[i])
      modifies this
      ensures ok <==> SheetsFit(sheets, tables) && old(stringBytes) + SheetsCost(tables) <= MAX_STRING_BYTES
      ensures ok ==> out == old(out) + WriteSheets(sheets, tables) && stringBytes == old(stringBytes) + SheetsCost(tables)
    {
      for i := 0 to |tables|
        invariant WroteTables(sheets, tables, i, old(out), old(stringBytes))
      {
        ok := NextTable(sheets, tables, i, old(out), old(stringBytes));
        if !ok { return; }
      }
      assert sheets[..|tables|] == sheets && tables[..|tables|] == tables;
      ok := true;
    }

    // The rows of a file in their order: magic, header, tables, failures.
    method EncodeRows(h: Row, sheets: seq<Sheet>, tables: seq<seq<Row>>, rows: seq<Row>) returns (ok: bool)
      requires stringBytes == 0 && RowTyped(HeaderShape(), h) && TablesTyped(sheets, tables)
      requires TableTyped(FailureShape(), rows) && |rows| < TWO_32
      modifies this
      ensures ok <==> && RowFits(HeaderShape(), h) && SheetsFit(sheets, tables) && RowsFit(FailureShape(), rows)
                      && RowCost(h) + (SheetsCost(tables) + RowsCost(rows)) <= MAX_STRING_BYTES
      ensures ok ==> out == old(out) + (Bytes(MAGIC) + (WriteRow(HeaderShape(), h) + Body(sheets, tables, rows)))
      ensures ok ==> stringBytes == RowCost(h) + (SheetsCost(tables) + RowsCost(rows))
    {
      ghost var start := out;
      out := out + Bytes(MAGIC);
      ok := Fields(HeaderShape(), h);
      if !ok { return; }
      ok := WriteTables(sheets, tables);
      if !ok { return; }
      ok := Table(FailureShape(), rows);
      if !ok { return; }
      Grouped(start, Bytes(MAGIC), WriteRow(HeaderShape(), h), WriteSheets(sheets, tables), WriteTable(FailureShape(), rows));
    }

    // encode: on a typed snapshot within the validator's counts it fails exactly
    // when a string is over its limit or all of them are over the budget.
    method Encode(s: Snapshot) returns (ok: bool)
      requires Typed(s) && Counted(s) && stringBytes == 0
      modifies this
      ensures ok <==> Short(s) && StringCost(s) <= MAX_STRING_BYTES
      ensures ok ==> out == old(out) + FileBytes(s) && stringBytes == StringCost(s)
    {
      var k, sheets := CodecsOf(VERSION), FileSheets(VERSION);
      var tables, rows := FileTables(k, s), FailureRows(k, s);
      EncodeReady(k, s, sheets, tables, rows);
      EncodeMeans(k, s, sheets, tables, rows);
      var h := HeaderRow(VERSION, s.meta);
      ok := EncodeRows(h, sheets, tables, rows);
      if ok { EncodeSpells(k, s, sheets, tables, rows, Body(sheets, tables, rows)); }
    }
  }

  // ------------------------------------------------------------- reading on

  // A row whose first fields are read, and the reading of the others.
  function Prepend(row: Row, rest: Read<Row>): Read<Row> { if rest.Stop? then Stop else Got(row + rest.value, rest.rest) }

  lemma ReadOn(read: FieldReader, shape: Shape, i: nat, row: Row, d: Input)
    requires i < |shape|
    ensures var first := read(shape[i], d);
            Prepend(row, ReadRow(read, shape[i..], d))
            == if first.Stop? then Stop else Prepend(row + [first.value], ReadRow(read, shape[i + 1..], first.rest))
  {
    var rest := shape[i..];
    assert rest[0] == shape[i] && rest[1..] == shape[i + 1..];
    var first := read(shape[i], d);
    if first.Got? {
      var more := ReadRow(read, shape[i + 1..], first.rest);
      if more.Got? { assert row + ([first.value] + more.value) == (row + [first.value]) + more.value; }
    }
  }

  function PrependTables(tables: seq<seq<Row>>, rest: Read<seq<seq<Row>>>): Read<seq<seq<Row>>> {
    if rest.Stop? then Stop else Got(tables + rest.value, rest.rest)
  }

  lemma ReadTablesOn(table: TableReader, sheets: seq<Sheet>, i: nat, tables: seq<seq<Row>>, d: Input)
    requires i < |sheets|
    ensures var first := table(sheets[i], d);
            PrependTables(tables, ReadSheets(table, sheets[i..], d))
            == if first.Stop? then Stop else PrependTables(tables + [first.value], ReadSheets(table, sheets[i + 1..], first.rest))
  {
    var rest := sheets[i..];
    assert rest[0] == sheets[i] && rest[1..] == sheets[i + 1..];
    var first := table(sheets[i], d);
    if first.Got? {
      var more := ReadSheets(table, sheets[i + 1..], first.rest);
      if more.Got? { assert tables + ([first.value] + more.value) == (tables + [first.value]) + more.value; }
    }
  }

  lemma {:induction false} StopStays(read: RowReader, shape: Shape, i: nat, n: nat, d: Input)
    requires i <= n && ReadRows(read, shape, i, d).Stop?
    ensures ReadRows(read, shape, n, d).Stop?
  {
    if i < n { StopStays(read, shape, i, n - 1, d); }
  }

  class CacheDecoder {
    var input: seq<Byte>
    var stringBytes: nat

    constructor (bytes: seq<Byte>)
      ensures State() == Input(bytes, 0)
    {
      input, stringBytes := bytes, 0;
    }

    function State(): Input
      reads this
    {
      Input(input, stringBytes)
    }

    method UInt(w: Width) returns (ok: bool, v: nat)
      modifies this`input
      ensures var r := ReadNum(w, old(State()));
              ok == r.Got? && (ok ==> v == r.value && State() == r.rest)
    {
      if |input| < Size(w) { return false, 0; }
      v := FromLittle(input[..Size(w)]);
      input := input[Size(w)..];
      ok := true;
    }

    method Count(limit: nat) returns (ok: bool, n: nat)
      modifies this`input
      ensures var r := ReadCount(limit, old(State()));
              ok == r.Got? && (ok ==> n == r.value && State() == r.rest)
    {
      ok, n := UInt(W32);
      if ok && n > limit { ok := false; }
    }

    method String(limit: nat) returns (ok: bool, text: string)
      modifies this
      ensures var r := ReadText(limit, old(State()));
              ok == r.Got? && (ok ==> text == r.value && State() == r.rest)
    {
      var length;
      ok, length := Count(limit);
      if !ok { return false, ""; }
      stringBytes := stringBytes + length;
      if stringBytes > MAX_STRING_BYTES || |input| < length { return false, ""; }
      text := Text(input[..length]);
      input := input[length..];
    }

    method Field(f: Field) returns (ok: bool, v: Value)
      modifies this
      ensures var r := FieldByField()(f, old(State()));
              ok == r.Got? && (ok ==> v == r.value && State() == r.rest)
    {
      match f
      case N(w) =>
        var n;
        ok, n := UInt(w);
        v := Num(n);
      case S(limit) =>
        var text;
        ok, text := String(limit);
        v := Str(text);
    }

    method NextField(shape: Shape, i: nat, row: Row, ghost read: FieldReader) returns (ok: bool, row': Row)
      requires i < |shape| && read == FieldByField()
      modifies this
      ensures old(Prepend(row, ReadRow(read, shape[i..], State())))
              == if ok then Prepend(row', ReadRow(read, shape[i + 1..], State())) else Stop
    {
      ReadOn(read, shape, i, row, State());
      var v;
      ok, v := Field(shape[i]);
      row' := row + [v];
    }

    // The fields of one record, one after the other.
    method Fields(shape: Shape) returns (ok: bool, row: Row)
      modifies this
      ensures var r := RowByRow()(shape, old(State()));
              ok == r.Got? && (ok ==> row == r.value && State() == r.rest)
    {
      ghost var read := FieldByField();
      ghost var all := ReadRow(read, shape, State());
      row := [];
      assert shape[0..] == shape && (all.Got? ==> [] + all.value == all.value);
      for i := 0 to |shape|
        invariant all == Prepend(row, ReadRow(read, shape[i..], State()))
      {
        ok, row := NextField(shape, i, row, read);
        if !ok { return; }
      }
      assert shape[|shape|..] == [] && row + [] == row;
      ok := true;
    }

    // A counted table, row by row.
    method Table(sheet: Sheet) returns (ok: bool, rows: seq<Row>)
      modifies this
      ensures var r := TableByTable()(sheet, old(State()));
              ok == r.Got? && (ok ==> rows == r.value && State() == r.rest)
    {
      ghost var read := RowByRow();
      rows := [];
      var n;
      ok, n := Count(sheet.limit);
      if !ok { return; }
      ok, rows := ReadAll(sheet.shape, n, read);
    }

    method ReadAll(shape: Shape, n: nat, ghost read: RowReader) returns (ok: bool, rows: seq<Row>)
      requires read == RowByRow()
      modifies this
      ensures var r := ReadRows(read, shape, n, old(State()));
              ok == r.Got? && (ok ==> rows == r.value && State() == r.rest)
    {
      ghost var d := State();
      rows := [];
      for i := 0 to n
        invariant ReadRows(read, shape, i, d) == Got(rows, State())
      {
        var row;
        ok, row := Fields(shape);
        if !ok {
          StopStays(read, shape, i + 1, n, d);
          return;
        }
        rows := rows + [row];
      }
      ok := true;
    }

    method NextTable(sheets: seq<Sheet>, i: nat, tables: seq<seq<Row>>, ghost table: TableReader) returns (ok: bool, tables': seq<seq<Row>>)
      requires i < |sheets| && table == TableByTable()
      modifies this
      ensures old(PrependTables(tables, ReadSheets(table, sheets[i..], State())))
              == if ok then PrependTables(tables', ReadSheets(table, sheets[i + 1..], State())) else Stop
    {
      ReadTablesOn(table, sheets, i, tables, State());
      var rows;
      ok, rows := Table(sheets[i]);
      tables' := tables + [rows];
    }

    method Tables(sheets: seq<Sheet>, ghost table: TableReader) returns (ok: bool, tables: seq<seq<Row>>)
      requires table == TableByTable()
      modifies this
      ensures var r := ReadSheets(table, sheets, old(State()));
              ok == r.Got? && (ok ==> tables == r.value && State() == r.rest)
    {
      ghost var all := ReadSheets(table, sheets, State());
      tables := [];
      assert sheets[0..] == sheets && (all.Got? ==> [] + all.value == all.value);
      for i := 0 to |sheets|
        invariant all == PrependTables(tables, ReadSheets(table, sheets[i..], State()))
      {
        ok, tables := NextTable(sheets, i, tables, table);
        if !ok { return; }
      }
      assert sheets[|sheets|..] == [] && tables + [] == tables;
      ok := true;
    }

    // The tables of one version and, from version 4 on, the failures.
    method BodyOf(version: nat, m: Meta, ghost table: TableReader) returns (ok: bool, s: Option<Snapshot>)
      requires table == TableByTable()
      modifies this
      ensures var r := ReadBody(CodecsOf(version), table, FileSheets(version), version, m, old(State()));
              ok == r.Got? && (ok ==> s == Some(r.value) && State() == r.rest)
    {
      s := None;
      var tables;
      ok, tables := Tables(FileSheets(version), table);
      if !ok { return; }
      var failures: seq<Row> := [];
      if version >= 4 {
        ok, failures := Table(FailureSheet(|tables[6]|));
        if !ok { return; }
      }
      s := SnapshotFrom(CodecsOf(version), version, m, tables, failures);
      ok := s.Some?;
    }

    // decode: magic, header, tables; files older than version 4 have their
    // failures moved out of the pending records.
    method Decode() returns (s: Option<Snapshot>)
      modifies this
      ensures var r := CacheCodec.Decode(old(State()));
              s == (if r.Stop? then None else Some(r.value)) && (s.Some? ==> State() == r.rest)
    {
      if |input| < 8 || input[..8] != Bytes(MAGIC) { return None; }
      input := input[8..];
      var ok, h := Fields(HeaderShape());
      if !ok || HeaderFrom(h).None? { return None; }
      var (version, m) := HeaderFrom(h).value;
      ok, s := BodyOf(version, m, TableByTable());
      if !ok { return None; }
      if version < 4 { s := Some(Migrated(s.value)); }
    }
  }
}

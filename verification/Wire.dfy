// The primitives of the catalog cache format (candidatecache.go): little-endian
// numbers, length-prefixed strings under one running byte budget, rows of such
// fields and counted tables of rows, each with its reader, its writer and the
// laws that make them inverse.
module Wire {
  import opened Proxies

  type Byte = x: int | 0 <= x < 256

  // The bytes still to read, and the string bytes read so far.
  datatype Input = Input(bytes: seq<Byte>, used: nat)

  datatype Read<T> = Stop | Got(value: T, rest: Input)

  // maxCandidateCacheStringBytes
  const MAX_STRING_BYTES := 96 * 1024 * 1024

  // ----------------------------------------------------------------- numbers

  // How many bytes a number takes.
  datatype Width = W8 | W16 | W32 | W64

  function Size(w: Width): nat {
    match w case W8 => 1 case W16 => 2 case W32 => 4 case W64 => 8
  }

  function Pow256(n: nat): (p: nat)
    ensures p > 0
  {
    if n == 0 then 1 else 256 * Pow256(n - 1)
  }

  function Little(n: nat, v: nat): (bs: seq<Byte>)
    ensures |bs| == n
  {
    if n == 0 then [] else [v % 256] + Little(n - 1, v / 256)
  }

  function FromLittle(bs: seq<Byte>): nat {
    if bs == [] then 0 else bs[0] + 256 * FromLittle(bs[1..])
  }

  lemma {:induction false} FromLittleBack(n: nat, v: nat)
    requires v < Pow256(n)
    ensures FromLittle(Little(n, v)) == v
  {
    if n > 0 {
      assert v / 256 < Pow256(n - 1);
      FromLittleBack(n - 1, v / 256);
      assert Little(n, v)[1..] == Little(n - 1, v / 256);
    }
  }

  lemma {:induction false} LittleBack(bs: seq<Byte>)
    ensures FromLittle(bs) < Pow256(|bs|) && Little(|bs|, FromLittle(bs)) == bs
  {
    if bs != [] {
      LittleBack(bs[1..]);
      var v := FromLittle(bs);
      assert v / 256 == FromLittle(bs[1..]) && v % 256 == bs[0];
      assert bs == [bs[0]] + bs[1..];
    }
  }

  // The numbers of one width.
  predicate InWidth(w: Width, v: nat) { v < Pow256(Size(w)) }

  function WriteNum(w: Width, v: nat): (bs: seq<Byte>)
    ensures |bs| == Size(w)
  {
    Little(Size(w), v)
  }

  function ReadNum(w: Width, d: Input): Read<nat> {
    if |d.bytes| < Size(w) then Stop else Got(FromLittle(d.bytes[..Size(w)]), d.(bytes := d.bytes[Size(w)..]))
  }

  lemma ReadNumBack(w: Width, v: nat, tail: seq<Byte>, used: nat)
    requires InWidth(w, v)
    ensures ReadNum(w, Input(WriteNum(w, v) + tail, used)) == Got(v, Input(tail, used))
  {
    FromLittleBack(Size(w), v);
    var bs := WriteNum(w, v) + tail;
    assert bs[..Size(w)] == WriteNum(w, v) && bs[Size(w)..] == tail;
  }

  lemma ReadNumOnly(w: Width, d: Input)
    requires ReadNum(w, d).Got?
    ensures var r := ReadNum(w, d);
            InWidth(w, r.value) && d.bytes == WriteNum(w, r.value) + r.rest.bytes && r.rest.used == d.used
  {
    LittleBack(d.bytes[..Size(w)]);
    assert d.bytes == d.bytes[..Size(w)] + d.bytes[Size(w)..];
  }

  // int64 through uint64: two's complement.
  const TWO_32 := 0x1_0000_0000
  const TWO_63 := 0x8000_0000_0000_0000
  const TWO_64 := 0x1_0000_0000_0000_0000

  predicate Int64(x: int) { -TWO_63 <= x < TWO_63 }

  function ToUnsigned(x: int): (v: nat)
    ensures v < TWO_64
  {
    x % TWO_64
  }

  function ToSigned(v: nat): (x: int)
    requires v < TWO_64
    ensures Int64(x)
  {
    if v >= TWO_63 then v - TWO_64 else v
  }

  lemma SignedRoundTrip(x: int, v: nat)
    ensures Int64(x) ==> ToSigned(ToUnsigned(x)) == x
    ensures v < TWO_64 ==> ToUnsigned(ToSigned(v)) == v
  {
  }

  lemma Widths(v: nat)
    ensures InWidth(W8, v) <==> v < 256
    ensures InWidth(W16, v) <==> v < 65536
    ensures InWidth(W32, v) <==> v < TWO_32
    ensures InWidth(W64, v) <==> v < TWO_64
  {
    assert Pow256(2) == 256 * Pow256(1);
    assert Pow256(3) == 256 * Pow256(2);
    assert Pow256(4) == 256 * Pow256(3);
    assert Pow256(5) == 256 * Pow256(4);
    assert Pow256(6) == 256 * Pow256(5);
    assert Pow256(7) == 256 * Pow256(6);
    assert Pow256(8) == 256 * Pow256(7);
  }

  // ----------------------------------------------------------------- strings

  // A Go string: a sequence of bytes.
  predicate ByteText(s: string) { forall i | 0 <= i < |s| :: s[i] as int < 256 }

  function Bytes(s: string): (bs: seq<Byte>)
    requires ByteText(s)
    ensures |bs| == |s|
  {
    seq(|s|, i requires 0 <= i < |s| => s[i] as int)
  }

  function Text(bs: seq<Byte>): (s: string)
    ensures |s| == |bs| && ByteText(s)
  {
    seq(|bs|, i requires 0 <= i < |bs| => bs[i] as char)
  }

  lemma TextRoundTrip(s: string, bs: seq<Byte>)
    ensures ByteText(s) ==> Text(Bytes(s)) == s
    ensures Bytes(Text(bs)) == bs
  {
  }

  function WriteText(s: string): seq<Byte>
    requires ByteText(s)
  {
    WriteNum(W32, |s|) + Bytes(s)
  }

  // A count no larger than the limit.
  function ReadCount(limit: nat, d: Input): Read<nat> {
    match ReadNum(W32, d)
    case Stop => Stop
    case Got(n, d1) => if n > limit then Stop else Got(n, d1)
  }

  function ReadText(limit: nat, d: Input): Read<string> {
    match ReadCount(limit, d)
    case Stop => Stop
    case Got(n, d1) =>
      var used := d1.used + n;
      if used > MAX_STRING_BYTES || |d1.bytes| < n then Stop
      else Got(Text(d1.bytes[..n]), Input(d1.bytes[n..], used))
  }

  // Reader and writer agree on the string budget: the text comes back, with the
  // counter moved on by its length, exactly when that keeps within the budget.
  lemma ReadTextBack(limit: nat, s: string, tail: seq<Byte>, used: nat)
    requires ByteText(s) && |s| <= limit < TWO_32
    ensures ReadText(limit, Input(WriteText(s) + tail, used))
            == if used + |s| <= MAX_STRING_BYTES then Got(s, Input(tail, used + |s|)) else Stop
  {
    Widths(|s|);
    ReadNumBack(W32, |s|, Bytes(s) + tail, used);
    assert WriteText(s) + tail == WriteNum(W32, |s|) + (Bytes(s) + tail);
    assert (Bytes(s) + tail)[..|s|] == Bytes(s) && (Bytes(s) + tail)[|s|..] == tail;
    TextRoundTrip(s, []);
  }

  lemma ReadTextOnly(limit: nat, d: Input)
    requires ReadText(limit, d).Got?
    ensures var r := ReadText(limit, d);
            && ByteText(r.value) && |r.value| <= limit
            && d.bytes == WriteText(r.value) + r.rest.bytes
            && r.rest.used == d.used + |r.value| <= MAX_STRING_BYTES
  {
    ReadNumOnly(W32, d);
    var n := ReadNum(W32, d).value;
    var d1 := ReadNum(W32, d).rest;
    TextRoundTrip("", d1.bytes[..n]);
    assert d1.bytes == d1.bytes[..n] + d1.bytes[n..];
    assert d.bytes == (WriteNum(W32, n) + Bytes(Text(d1.bytes[..n]))) + d1.bytes[n..];
  }

  // -------------------------------------------------------------------- rows

  datatype Value = Num(n: nat) | Str(s: string)

  datatype Field = N(width: Width) | S(limit: nat)

  type Row = seq<Value>

  type Shape = seq<Field>

  predicate FieldFits(f: Field, v: Value) {
    match f
    case N(w) => v.Num? && InWidth(w, v.n)
    case S(limit) => v.Str? && ByteText(v.s) && |v.s| <= limit < TWO_32
  }

  predicate RowFits(shape: Shape, row: Row) {
    |row| == |shape| && (row != [] ==> FieldFits(shape[0], row[0]) && RowFits(shape[1..], row[1..]))
  }

  lemma {:induction false} RowFitsAt(shape: Shape, row: Row, i: nat)
    requires RowFits(shape, row) && i < |row|
    ensures FieldFits(shape[i], row[i])
  {
    if i > 0 { RowFitsAt(shape[1..], row[1..], i - 1); }
  }

  // Rows fit side by side iff each fits.
  lemma {:induction false} RowFitsJoin(a: Shape, b: Shape, x: Row, y: Row)
    requires |a| == |x|
    ensures RowFits(a + b, x + y) <==> RowFits(a, x) && RowFits(b, y)
  {
    if a == [] {
      assert a + b == b && x + y == y;
    } else {
      assert (a + b)[1..] == a[1..] + b && (x + y)[1..] == x[1..] + y;
      RowFitsJoin(a[1..], b, x[1..], y);
    }
  }

  lemma {:induction false} RowFitsFrom(shape: Shape, row: Row)
    requires |row| == |shape| && forall i | 0 <= i < |row| :: FieldFits(shape[i], row[i])
    ensures RowFits(shape, row)
  {
    if row != [] {
      forall i | 0 <= i < |row[1..]| ensures FieldFits(shape[1..][i], row[1..][i]) { assert FieldFits(shape[i + 1], row[i + 1]); }
      RowFitsFrom(shape[1..], row[1..]);
    }
  }

  function WriteField(f: Field, v: Value): seq<Byte>
    requires FieldFits(f, v)
  {
    match f case N(w) => WriteNum(w, v.n) case S(_) => WriteText(v.s)
  }

  lemma {:induction false} WriteRowJoin(a: Shape, b: Shape, x: Row, y: Row)
    requires |a| == |x| && RowFits(a, x) && RowFits(b, y)
    ensures RowFits(a + b, x + y) && WriteRow(a + b, x + y) == WriteRow(a, x) + WriteRow(b, y)
  {
    RowFitsJoin(a, b, x, y);
    if a == [] {
      assert a + b == b && x + y == y;
    } else {
      assert (a + b)[1..] == a[1..] + b && (x + y)[1..] == x[1..] + y;
      WriteRowJoin(a[1..], b, x[1..], y);
    }
  }

  function CostOf(v: Value): nat { if v.Str? then |v.s| else 0 }

  function WriteRow(shape: Shape, row: Row): seq<Byte>
    requires RowFits(shape, row)
  {
    if row == [] then [] else WriteField(shape[0], row[0]) + WriteRow(shape[1..], row[1..])
  }

  function RowCost(row: Row): nat { if row == [] then 0 else CostOf(row[0]) + RowCost(row[1..]) }

  function ReadField(f: Field, d: Input): Read<Value> {
    match f
    case N(w) => (match ReadNum(w, d) case Stop => Stop case Got(n, d1) => Got(Num(n), d1))
    case S(limit) => (match ReadText(limit, d) case Stop => Stop case Got(s, d1) => Got(Str(s), d1))
  }

  // How one field is read, as a value: the laws of rows and tables need only
  // that it undoes WriteField.
  type FieldReader = (Field, Input) -> Read<Value>

  function FieldByField(): FieldReader { (f: Field, d: Input) => ReadField(f, d) }

  function Cons(v: Value, rest: Read<Row>): Read<Row> { if rest.Stop? then Stop else Got([v] + rest.value, rest.rest) }

  function ReadRow(read: FieldReader, shape: Shape, d: Input): Read<Row> {
    if shape == [] then Got([], d)
    else
      var first := read(shape[0], d);
      if first.Stop? then Stop else Cons(first.value, ReadRow(read, shape[1..], first.rest))
  }

  function FieldBack(v: Value, tail: seq<Byte>, used: nat): Read<Value> {
    if v.Num? || used + CostOf(v) <= MAX_STRING_BYTES then Got(v, Input(tail, used + CostOf(v))) else Stop
  }

  lemma {:induction false} RowCostJoin(a: Row, b: Row)
    ensures RowCost(a + b) == RowCost(a) + RowCost(b)
  {
    if a == [] {
      assert a + b == b;
    } else {
      assert (a + b)[1..] == a[1..] + b;
      RowCostJoin(a[1..], b);
    }
  }

  lemma {:induction false} NumbersCostNothing(row: Row)
    requires forall v | v in row :: v.Num?
    ensures RowCost(row) == 0
  {
    if row != [] {
      assert row[0] in row && forall v | v in row[1..] :: v in row;
      NumbersCostNothing(row[1..]);
    }
  }

  lemma ReadFieldBack(f: Field, v: Value, tail: seq<Byte>, used: nat)
    requires FieldFits(f, v)
    ensures ReadField(f, Input(WriteField(f, v) + tail, used)) == FieldBack(v, tail, used)
  {
    match f
    case N(w) => ReadNumBack(w, v.n, tail, used);
    case S(limit) => ReadTextBack(limit, v.s, tail, used);
  }

  ghost predicate ReadsBack(read: FieldReader) {
    forall f, v, tail, used | FieldFits(f, v) :: read(f, Input(WriteField(f, v) + tail, used)) == FieldBack(v, tail, used)
  }

  lemma FieldsReadBack()
    ensures ReadsBack(FieldByField())
  {
    forall f, v, tail, used | FieldFits(f, v) ensures FieldByField()(f, Input(WriteField(f, v) + tail, used)) == FieldBack(v, tail, used) {
      ReadFieldBack(f, v, tail, used);
    }
  }

  // What reading a written row gives.
  function RowBack(row: Row, tail: seq<Byte>, used: nat): Read<Row> {
    if used + RowCost(row) <= MAX_STRING_BYTES then Got(row, Input(tail, used + RowCost(row))) else Stop
  }

  lemma RowBackCons(row: Row, tail: seq<Byte>, used: nat)
    requires row != [] && used <= MAX_STRING_BYTES
    ensures RowBack(row, tail, used)
            == if used + CostOf(row[0]) > MAX_STRING_BYTES then Stop else Cons(row[0], RowBack(row[1..], tail, used + CostOf(row[0])))
  {
    assert row == [row[0]] + row[1..];
  }

  lemma WriteRowCons(shape: Shape, row: Row, tail: seq<Byte>)
    requires RowFits(shape, row) && row != []
    ensures WriteRow(shape, row) + tail == WriteField(shape[0], row[0]) + (WriteRow(shape[1..], row[1..]) + tail)
  {
  }

  // Within the budget a row comes back whole, beyond it the reader stops too.
  lemma {:induction false} ReadRowBack(read: FieldReader, shape: Shape, row: Row, tail: seq<Byte>, used: nat)
    requires ReadsBack(read) && RowFits(shape, row) && used <= MAX_STRING_BYTES
    ensures ReadRow(read, shape, Input(WriteRow(shape, row) + tail, used)) == RowBack(row, tail, used)
  {
    if row == [] {
      assert WriteRow(shape, row) + tail == tail;
    } else {
      WriteRowCons(shape, row, tail);
      RowBackCons(row, tail, used);
      var more := WriteRow(shape[1..], row[1..]) + tail;
      assert read(shape[0], Input(WriteField(shape[0], row[0]) + more, used)) == FieldBack(row[0], more, used);
      if used + CostOf(row[0]) <= MAX_STRING_BYTES { ReadRowBack(read, shape[1..], row[1..], tail, used + CostOf(row[0])); }
    }
  }

  // A field that was read is what the writer writes for it.
  ghost predicate Written(f: Field, d: Input, r: Read<Value>) {
    r.Got? ==>
      && FieldFits(f, r.value) && d.bytes == WriteField(f, r.value) + r.rest.bytes
      && r.rest.used == d.used + CostOf(r.value) && (d.used <= MAX_STRING_BYTES ==> r.rest.used <= MAX_STRING_BYTES)
  }

  predicate Limited(f: Field) { f.S? ==> f.limit < TWO_32 }

  lemma ReadFieldOnly(f: Field, d: Input)
    requires Limited(f)
    ensures Written(f, d, ReadField(f, d))
  {
    if ReadField(f, d).Got? {
      match f
      case N(w) => ReadNumOnly(w, d);
      case S(limit) => ReadTextOnly(limit, d);
    }
  }

  ghost predicate ReadsOnly(read: FieldReader) { forall f, d | Limited(f) :: Written(f, d, read(f, d)) }

  lemma FieldsReadOnly()
    ensures ReadsOnly(FieldByField())
  {
    forall f, d | Limited(f) ensures Written(f, d, FieldByField()(f, d)) { ReadFieldOnly(f, d); }
  }

  ghost predicate AllLimited(shape: Shape) { forall f | f in shape :: Limited(f) }

  ghost predicate RowWritten(shape: Shape, d: Input, r: Read<Row>) {
    r.Got? ==>
      && RowFits(shape, r.value) && d.bytes == WriteRow(shape, r.value) + r.rest.bytes
      && r.rest.used == d.used + RowCost(r.value) <= MAX_STRING_BYTES
  }

  // A row that was read is what the writer writes for it.
  lemma {:induction false} ReadRowOnly(read: FieldReader, shape: Shape, d: Input)
    requires ReadsOnly(read) && AllLimited(shape) && d.used <= MAX_STRING_BYTES
    ensures RowWritten(shape, d, ReadRow(read, shape, d))
  {
    if shape != [] {
      var first := read(shape[0], d);
      assert Written(shape[0], d, first);
      if first.Got? {
        ReadRowOnly(read, shape[1..], first.rest);
        RowWrittenCons(shape, d, first, ReadRow(read, shape[1..], first.rest));
      }
    }
  }

  lemma RowWrittenCons(shape: Shape, d: Input, first: Read<Value>, rest: Read<Row>)
    requires shape != [] && first.Got? && Written(shape[0], d, first) && RowWritten(shape[1..], first.rest, rest)
    ensures RowWritten(shape, d, Cons(first.value, rest))
  {
    if rest.Got? {
      var row := [first.value] + rest.value;
      assert row[1..] == rest.value;
      assert d.bytes == WriteField(shape[0], first.value) + (WriteRow(shape[1..], rest.value) + rest.rest.bytes);
    }
  }

  // ------------------------------------------------------------------ tables

  predicate RowsFit(shape: Shape, rows: seq<Row>) {
    rows != [] ==> RowsFit(shape, rows[..|rows|-1]) && RowFits(shape, rows[|rows|-1])
  }

  function WriteRows(shape: Shape, rows: seq<Row>): seq<Byte>
    requires RowsFit(shape, rows)
  {
    if rows == [] then [] else WriteRows(shape, rows[..|rows|-1]) + WriteRow(shape, rows[|rows|-1])
  }

  function RowsCost(rows: seq<Row>): nat {
    if rows == [] then 0 else RowsCost(rows[..|rows|-1]) + RowCost(rows[|rows|-1])
  }

  // How one row is read, as a value.
  type RowReader = (Shape, Input) -> Read<Row>

  function RowByRow(): RowReader { (shape: Shape, d: Input) => ReadRow(FieldByField(), shape, d) }

  ghost predicate RowsReadBack(read: RowReader) {
    forall shape, row, tail, used: nat | RowFits(shape, row) && used <= MAX_STRING_BYTES ::
      read(shape, Input(WriteRow(shape, row) + tail, used)) == RowBack(row, tail, used)
  }

  lemma RowsInvert()
    ensures RowsReadBack(RowByRow()) && RowsReadOnly(RowByRow())
  {
    FieldsReadBack();
    FieldsReadOnly();
    forall shape, row, tail, used: nat | RowFits(shape, row) && used <= MAX_STRING_BYTES
      ensures RowByRow()(shape, Input(WriteRow(shape, row) + tail, used)) == RowBack(row, tail, used)
    {
      ReadRowBack(FieldByField(), shape, row, tail, used);
    }
    forall shape, d: Input | AllLimited(shape) && d.used <= MAX_STRING_BYTES ensures RowWritten(shape, d, RowByRow()(shape, d)) {
      ReadRowOnly(FieldByField(), shape, d);
    }
  }

  ghost predicate RowsReadOnly(read: RowReader) {
    forall shape, d: Input | AllLimited(shape) && d.used <= MAX_STRING_BYTES :: RowWritten(shape, d, read(shape, d))
  }

  function Snoc(rows: Read<seq<Row>>, last: Read<Row>): Read<seq<Row>> {
    if rows.Stop? || last.Stop? then Stop else Got(rows.value + [last.value], last.rest)
  }

  function ReadRows(read: RowReader, shape: Shape, n: nat, d: Input): Read<seq<Row>> {
    if n == 0 then Got([], d)
    else
      var rows := ReadRows(read, shape, n - 1, d);
      if rows.Stop? then Stop else Snoc(rows, read(shape, rows.rest))
  }

  function RowsBack(rows: seq<Row>, tail: seq<Byte>, used: nat): Read<seq<Row>> {
    if used + RowsCost(rows) <= MAX_STRING_BYTES then Got(rows, Input(tail, used + RowsCost(rows))) else Stop
  }

  lemma RowsBackSnoc(rows: seq<Row>, more: seq<Byte>, tail: seq<Byte>, used: nat)
    requires rows != []
    ensures var front, last := rows[..|rows|-1], rows[|rows|-1];
            RowsBack(rows, tail, used)
            == if used + RowsCost(front) > MAX_STRING_BYTES then Stop
               else Snoc(RowsBack(front, more, used), RowBack(last, tail, used + RowsCost(front)))
  {
    assert rows == rows[..|rows|-1] + [rows[|rows|-1]];
  }

  lemma WriteRowsSnoc(shape: Shape, rows: seq<Row>, tail: seq<Byte>)
    requires RowsFit(shape, rows) && rows != []
    ensures WriteRows(shape, rows) + tail == WriteRows(shape, rows[..|rows|-1]) + (WriteRow(shape, rows[|rows|-1]) + tail)
  {
  }

  lemma {:induction false} ReadRowsBack(read: RowReader, shape: Shape, rows: seq<Row>, tail: seq<Byte>, used: nat)
    requires RowsReadBack(read) && RowsFit(shape, rows) && used <= MAX_STRING_BYTES
    ensures ReadRows(read, shape, |rows|, Input(WriteRows(shape, rows) + tail, used)) == RowsBack(rows, tail, used)
  {
    if rows == [] {
      assert WriteRows(shape, rows) + tail == tail;
    } else {
      var front, last := rows[..|rows|-1], rows[|rows|-1];
      var more := WriteRow(shape, last) + tail;
      WriteRowsSnoc(shape, rows, tail);
      RowsBackSnoc(rows, more, tail, used);
      ReadRowsBack(read, shape, front, more, used);
      if used + RowsCost(front) <= MAX_STRING_BYTES {
        assert read(shape, Input(more, used + RowsCost(front))) == RowBack(last, tail, used + RowsCost(front));
      }
    }
  }

  ghost predicate RowsWritten(shape: Shape, n: nat, d: Input, r: Read<seq<Row>>) {
    r.Got? ==>
      && |r.value| == n && RowsFit(shape, r.value) && d.bytes == WriteRows(shape, r.value) + r.rest.bytes
      && r.rest.used == d.used + RowsCost(r.value) <= MAX_STRING_BYTES
  }

  lemma RowsWrittenSnoc(shape: Shape, n: nat, d: Input, rows: Read<seq<Row>>, last: Read<Row>)
    requires rows.Got? && RowsWritten(shape, n, d, rows) && RowWritten(shape, rows.rest, last)
    ensures RowsWritten(shape, n + 1, d, Snoc(rows, last))
  {
    if last.Got? {
      var all := rows.value + [last.value];
      assert all[..|all|-1] == rows.value && all[|all|-1] == last.value;
      assert d.bytes == (WriteRows(shape, rows.value) + WriteRow(shape, last.value)) + last.rest.bytes;
    }
  }

  lemma {:induction false} ReadRowsOnly(read: RowReader, shape: Shape, n: nat, d: Input)
    requires RowsReadOnly(read) && AllLimited(shape) && d.used <= MAX_STRING_BYTES
    ensures RowsWritten(shape, n, d, ReadRows(read, shape, n, d))
  {
    if n > 0 {
      ReadRowsOnly(read, shape, n - 1, d);
      var rows := ReadRows(read, shape, n - 1, d);
      if rows.Got? {
        RowsWrittenSnoc(shape, n - 1, d, rows, read(shape, rows.rest));
      }
    }
  }

  // A counted table.
  function WriteTable(shape: Shape, rows: seq<Row>): seq<Byte>
    requires RowsFit(shape, rows)
  {
    WriteNum(W32, |rows|) + WriteRows(shape, rows)
  }

  function ReadTable(read: RowReader, limit: nat, shape: Shape, d: Input): Read<seq<Row>> {
    match ReadCount(limit, d) case Stop => Stop case Got(n, d1) => ReadRows(read, shape, n, d1)
  }

  lemma ReadCountBack(limit: nat, n: nat, tail: seq<Byte>, used: nat)
    requires n < TWO_32
    ensures ReadCount(limit, Input(WriteNum(W32, n) + tail, used)) == if n <= limit then Got(n, Input(tail, used)) else Stop
  {
    Widths(n);
    ReadNumBack(W32, n, tail, used);
  }

  // Reader and writer of a table agree, budget included: the reader stops
  // exactly when the count passes its limit or the strings pass the budget.
  lemma ReadTableBack(read: RowReader, limit: nat, shape: Shape, rows: seq<Row>, tail: seq<Byte>, used: nat)
    requires RowsReadBack(read) && RowsFit(shape, rows) && |rows| < TWO_32 && used <= MAX_STRING_BYTES
    ensures ReadTable(read, limit, shape, Input(WriteTable(shape, rows) + tail, used))
            == if |rows| <= limit then RowsBack(rows, tail, used) else Stop
  {
    var more := WriteRows(shape, rows) + tail;
    ReadCountBack(limit, |rows|, more, used);
    assert WriteTable(shape, rows) + tail == WriteNum(W32, |rows|) + more;
    ReadRowsBack(read, shape, rows, tail, used);
  }

  ghost predicate TableWritten(limit: nat, shape: Shape, d: Input, r: Read<seq<Row>>) {
    r.Got? ==>
      && |r.value| <= limit && |r.value| < TWO_32
      && RowsFit(shape, r.value) && d.bytes == WriteTable(shape, r.value) + r.rest.bytes
      && r.rest.used == d.used + RowsCost(r.value) <= MAX_STRING_BYTES
  }

  lemma ReadTableOnly(read: RowReader, limit: nat, shape: Shape, d: Input)
    requires RowsReadOnly(read) && AllLimited(shape) && d.used <= MAX_STRING_BYTES
    ensures TableWritten(limit, shape, d, ReadTable(read, limit, shape, d))
  {
    var count := ReadNum(W32, d);
    if count.Got? && count.value <= limit {
      ReadNumOnly(W32, d);
      Widths(count.value);
      ReadRowsOnly(read, shape, count.value, count.rest);
      TableWrittenFrom(shape, d, count.rest, count.value, ReadRows(read, shape, count.value, count.rest), limit);
    }
  }

  lemma TableWrittenFrom(shape: Shape, d: Input, d1: Input, n: nat, r: Read<seq<Row>>, limit: nat)
    requires d.bytes == WriteNum(W32, n) + d1.bytes && d1.used == d.used && n <= limit && n < TWO_32 && RowsWritten(shape, n, d1, r)
    ensures TableWritten(limit, shape, d, r)
  {
    if r.Got? { assert d.bytes == WriteNum(W32, n) + (WriteRows(shape, r.value) + r.rest.bytes); }
  }

  // ------------------------------------------------------- several tables

  datatype Sheet = Sheet(limit: nat, shape: Shape)

  predicate SheetsFit(sheets: seq<Sheet>, tables: seq<seq<Row>>) {
    |tables| == |sheets| && (tables != [] ==>
      SheetFits(sheets[0], tables[0]) && SheetsFit(sheets[1..], tables[1..]))
  }

  function WriteSheets(sheets: seq<Sheet>, tables: seq<seq<Row>>): seq<Byte>
    requires SheetsFit(sheets, tables)
  {
    if tables == [] then [] else WriteTable(sheets[0].shape, tables[0]) + WriteSheets(sheets[1..], tables[1..])
  }

  function SheetsCost(tables: seq<seq<Row>>): nat { if tables == [] then 0 else RowsCost(tables[0]) + SheetsCost(tables[1..]) }

  function ConsTable(rows: seq<Row>, rest: Read<seq<seq<Row>>>): Read<seq<seq<Row>>> {
    if rest.Stop? then Stop else Got([rows] + rest.value, rest.rest)
  }

  // How one table is read, as a value.
  type TableReader = (Sheet, Input) -> Read<seq<Row>>

  function TableByTable(): TableReader { (s: Sheet, d: Input) => ReadTable(RowByRow(), s.limit, s.shape, d) }

  predicate SheetFits(s: Sheet, rows: seq<Row>) { RowsFit(s.shape, rows) && |rows| <= s.limit < TWO_32 }

  ghost predicate TablesBack(table: TableReader) {
    forall s: Sheet, rows, tail, used: nat | SheetFits(s, rows) && used <= MAX_STRING_BYTES ::
      table(s, Input(WriteTable(s.shape, rows) + tail, used)) == RowsBack(rows, tail, used)
  }

  lemma TablesReadBack()
    ensures TablesBack(TableByTable())
  {
    RowsInvert();
    forall s: Sheet, rows, tail, used: nat | SheetFits(s, rows) && used <= MAX_STRING_BYTES
      ensures TableByTable()(s, Input(WriteTable(s.shape, rows) + tail, used)) == RowsBack(rows, tail, used)
    {
      ReadTableBack(RowByRow(), s.limit, s.shape, rows, tail, used);
    }
  }

  predicate SheetLimited(s: Sheet) { s.limit < TWO_32 && forall i | 0 <= i < |s.shape| :: Limited(s.shape[i]) }

  ghost predicate TablesOnly(table: TableReader) {
    forall s: Sheet, d: Input | SheetLimited(s) && d.used <= MAX_STRING_BYTES :: TableWritten(s.limit, s.shape, d, table(s, d))
  }

  lemma TablesReadOnly()
    ensures TablesOnly(TableByTable())
  {
    RowsInvert();
    forall s: Sheet, d: Input | SheetLimited(s) && d.used <= MAX_STRING_BYTES ensures TableWritten(s.limit, s.shape, d, TableByTable()(s, d)) {
      ReadTableOnly(RowByRow(), s.limit, s.shape, d);
    }
  }

  function ReadSheets(table: TableReader, sheets: seq<Sheet>, d: Input): (r: Read<seq<seq<Row>>>)
    ensures r.Got? ==> |r.value| == |sheets|
  {
    if sheets == [] then Got([], d)
    else
      var first := table(sheets[0], d);
      if first.Stop? then Stop else ConsTable(first.value, ReadSheets(table, sheets[1..], first.rest))
  }

  function SheetsBack(tables: seq<seq<Row>>, tail: seq<Byte>, used: nat): Read<seq<seq<Row>>> {
    if used + SheetsCost(tables) <= MAX_STRING_BYTES then Got(tables, Input(tail, used + SheetsCost(tables))) else Stop
  }

  lemma SheetsBackCons(tables: seq<seq<Row>>, tail: seq<Byte>, used: nat)
    requires tables != []
    ensures SheetsBack(tables, tail, used)
            == if used + RowsCost(tables[0]) > MAX_STRING_BYTES then Stop
               else ConsTable(tables[0], SheetsBack(tables[1..], tail, used + RowsCost(tables[0])))
  {
    assert tables == [tables[0]] + tables[1..];
  }

  lemma WriteSheetsCons(sheets: seq<Sheet>, tables: seq<seq<Row>>, tail: seq<Byte>)
    requires SheetsFit(sheets, tables) && tables != []
    ensures WriteSheets(sheets, tables) + tail == WriteTable(sheets[0].shape, tables[0]) + (WriteSheets(sheets[1..], tables[1..]) + tail)
  {
  }

  lemma {:induction false} ReadSheetsBack(table: TableReader, sheets: seq<Sheet>, tables: seq<seq<Row>>, tail: seq<Byte>, used: nat)
    requires TablesBack(table) && SheetsFit(sheets, tables) && used <= MAX_STRING_BYTES
    ensures ReadSheets(table, sheets, Input(WriteSheets(sheets, tables) + tail, used)) == SheetsBack(tables, tail, used)
  {
    if tables == [] {
      assert WriteSheets(sheets, tables) + tail == tail;
    } else {
      WriteSheetsCons(sheets, tables, tail);
      SheetsBackCons(tables, tail, used);
      var more := WriteSheets(sheets[1..], tables[1..]) + tail;
      assert table(sheets[0], Input(WriteTable(sheets[0].shape, tables[0]) + more, used)) == RowsBack(tables[0], more, used);
      if used + RowsCost(tables[0]) <= MAX_STRING_BYTES { ReadSheetsBack(table, sheets[1..], tables[1..], tail, used + RowsCost(tables[0])); }
    }
  }

  ghost predicate AllSheetsLimited(sheets: seq<Sheet>) { forall s | s in sheets :: SheetLimited(s) }

  ghost predicate SheetsWritten(sheets: seq<Sheet>, d: Input, r: Read<seq<seq<Row>>>) {
    r.Got? ==>
      && SheetsFit(sheets, r.value) && d.bytes == WriteSheets(sheets, r.value) + r.rest.bytes
      && r.rest.used == d.used + SheetsCost(r.value) <= MAX_STRING_BYTES
  }

  lemma SheetsWrittenCons(sheets: seq<Sheet>, d: Input, first: Read<seq<Row>>, rest: Read<seq<seq<Row>>>)
    requires sheets != [] && sheets[0].limit < TWO_32 && first.Got?
    requires TableWritten(sheets[0].limit, sheets[0].shape, d, first) && SheetsWritten(sheets[1..], first.rest, rest)
    ensures SheetsWritten(sheets, d, ConsTable(first.value, rest))
  {
    if rest.Got? {
      var all := [first.value] + rest.value;
      assert all[1..] == rest.value;
      assert d.bytes == WriteTable(sheets[0].shape, first.value) + (WriteSheets(sheets[1..], rest.value) + rest.rest.bytes);
    }
  }

  lemma {:induction false} ReadSheetsOnly(table: TableReader, sheets: seq<Sheet>, d: Input)
    requires TablesOnly(table) && AllSheetsLimited(sheets) && d.used <= MAX_STRING_BYTES
    ensures SheetsWritten(sheets, d, ReadSheets(table, sheets, d))
  {
    if sheets != [] {
      assert sheets[0] in sheets && forall s | s in sheets[1..] :: s in sheets;
      var first := table(sheets[0], d);
      assert TableWritten(sheets[0].limit, sheets[0].shape, d, first);
      if first.Got? {
        ReadSheetsOnly(table, sheets[1..], first.rest);
        SheetsWrittenCons(sheets, d, first, ReadSheets(table, sheets[1..], first.rest));
      }
    }
  }

  // ------------------------------------------------------- items and rows

  // enc and dec are inverse between the good items and the rows dec accepts.
  ghost predicate Inverse<T(!new)>(shape: Shape, enc: T -> Row, dec: Row -> Option<T>, good: T -> bool) {
    && (forall x | good(x) :: RowFits(shape, enc(x)) && dec(enc(x)) == Some(x))
    && (forall row | RowFits(shape, row) && dec(row).Some? :: good(dec(row).value) && enc(dec(row).value) == row)
  }

  function RowsFrom<T>(enc: T -> Row, xs: seq<T>): (rows: seq<Row>)
    ensures |rows| == |xs|
  {
    if xs == [] then [] else RowsFrom(enc, xs[..|xs|-1]) + [enc(xs[|xs|-1])]
  }

  function ItemsFrom<T>(dec: Row -> Option<T>, rows: seq<Row>): Option<seq<T>> {
    if rows == [] then Some([])
    else
      var front, last := ItemsFrom(dec, rows[..|rows|-1]), dec(rows[|rows|-1]);
      if front.None? || last.None? then None else Some(front.value + [last.value])
  }

  lemma {:induction false} ItemsBack<T(!new)>(shape: Shape, enc: T -> Row, dec: Row -> Option<T>, good: T -> bool, xs: seq<T>)
    requires Inverse(shape, enc, dec, good) && forall x | x in xs :: good(x)
    ensures RowsFit(shape, RowsFrom(enc, xs)) && ItemsFrom(dec, RowsFrom(enc, xs)) == Some(xs)
  {
    if xs != [] {
      var front, last := xs[..|xs|-1], xs[|xs|-1];
      ItemsBack(shape, enc, dec, good, front);
      var rows := RowsFrom(enc, xs);
      assert rows[..|rows|-1] == RowsFrom(enc, front) && rows[|rows|-1] == enc(last);
      assert last in xs && front + [last] == xs;
    }
  }

  lemma {:induction false} ItemsOnly<T(!new)>(shape: Shape, enc: T -> Row, dec: Row -> Option<T>, good: T -> bool, rows: seq<Row>)
    requires Inverse(shape, enc, dec, good) && RowsFit(shape, rows) && ItemsFrom(dec, rows).Some?
    ensures var xs := ItemsFrom(dec, rows).value;
            |xs| == |rows| && RowsFrom(enc, xs) == rows && forall x | x in xs :: good(x)
  {
    if rows != [] {
      var front, last := rows[..|rows|-1], rows[|rows|-1];
      ItemsOnly(shape, enc, dec, good, front);
      var xs := ItemsFrom(dec, rows).value;
      assert xs[..|xs|-1] == ItemsFrom(dec, front).value && xs[|xs|-1] == dec(last).value;
      assert front + [last] == rows;
    }
  }
}

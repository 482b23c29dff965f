// The bytes of a catalog cache file (candidatecache.go), written down byte by
// byte without rows and shapes: what a reader of the file finds where.
module CacheLayout {
  import opened Proxies
  import opened CatalogModel
  import opened Wire
  import opened CacheFormat
  import opened CacheCodec

  // ------------------------------------------------------------------- layout

  function U8(v: nat): seq<Byte> { [v % 256] }

  function U16(v: nat): seq<Byte> { [v % 256, v / 0x100 % 256] }

  function U32(v: nat): seq<Byte> { [v % 256, v / 0x100 % 256, v / 0x1_0000 % 256, v / 0x100_0000 % 256] }

  function U64(v: nat): seq<Byte> { U32(v % 0x1_0000_0000) + U32(v / 0x1_0000_0000) }

  // A signed number in two's complement.
  function I64(x: int): seq<Byte> { U64(if x >= 0 then x % 0x1_0000_0000_0000_0000 else (x + 0x1_0000_0000_0000_0000) % 0x1_0000_0000_0000_0000) }

  function Txt(s: string): seq<Byte> { U32(|s|) + seq(|s|, i requires 0 <= i < |s| => s[i] as int % 256) }

  // A list: its length, then its items.
  function ListOf<T>(item: T -> seq<Byte>, xs: seq<T>): seq<Byte> { U32(|xs|) + Items(item, xs) }

  function Items<T>(item: T -> seq<Byte>, xs: seq<T>): seq<Byte> {
    if xs == [] then [] else Items(item, xs[..|xs|-1]) + item(xs[|xs|-1])
  }

  function StatusByte(s: Status): Byte {
    match s
    case Deferred => 0
    case CheckedFailed => 1
    case PolicyFiltered => 2
    case KnownAvailable => 3
    case KnownUnavailable => 4
    case Resource => 5
  }

  function RecordLayout(r: Record): seq<Byte> {
    Txt(r.addr) + (Txt(r.credential.username) + (Txt(r.credential.password)
    + (U32(r.sourceOffset) + (U32(r.countryID) + (U32(r.cityID) + (U16(r.protocolID) + (U16(r.sourceCount)
    + (U8(r.continent) + (U8(StatusByte(r.status)) + (U8(if r.hasAuth then 1 else 0)
    + (I64(r.seenUnix) + (I64(r.checkedUnix) + (U32(r.altOffset) + U8(r.altCount))))))))))))))
  }

  function CredentialLayout(c: Credential): seq<Byte> { Txt(c.username) + Txt(c.password) }

  function FailureLayout(f: Failure): seq<Byte> {
    RecordLayout(f.record) + (U8(if f.kind == PolicyRejected then 2 else 1) + Txt(f.lastError))
  }

  function TimeLayout(t: Option<int>): seq<Byte> { I64(if t.Some? then t.value else 0) }

  // Magic, version 4, no flags, then what describes the snapshot.
  function HeaderLayout(m: Meta): seq<Byte> {
    [0x53, 0x50, 0x43, 0x41, 0x4E, 0x44, 0x30, 0x31]
    + (U16(4) + (U16(0) + (U64(m.generation) + (U64(m.revision) + (Txt(m.phase) + (U32(m.sourceErrors)
    + (TimeLayout(m.seenAt) + (TimeLayout(m.refreshAttempt) + TimeLayout(m.completedAt)))))))))
  }

  function FileLayout(s: Snapshot): seq<Byte> {
    var text, ref := (x: string) => Txt(x), (n: nat) => U32(n);
    HeaderLayout(s.meta)
    + (ListOf(text, s.tables.sourceKeys) + (ListOf(text, s.tables.sources) + (ListOf(text, s.tables.protocols)
    + (ListOf(text, s.tables.countries) + (ListOf(text, s.tables.cities)
    + (ListOf(ref, s.tables.sourceRefs) + (ListOf((r: Record) => RecordLayout(r), s.records)
    + (ListOf((c: Credential) => CredentialLayout(c), s.alternates) + ListOf((f: Failure) => FailureLayout(f), s.failed)))))))))
  }

  // ------------------------------------------------------------------ numbers

  lemma LittleIs(v: nat)
    ensures WriteNum(W8, v) == U8(v) && WriteNum(W16, v) == U16(v) && WriteNum(W32, v) == U32(v)
  {
    assert v / 256 / 256 == v / 0x1_0000 && v / 256 / 256 / 256 == v / 0x100_0000;
    assert Little(1, v / 256 / 256 / 256) == [v / 256 / 256 / 256 % 256] + Little(0, v / 256 / 256 / 256 / 256);
    assert Little(2, v / 256 / 256) == [v / 256 / 256 % 256] + Little(1, v / 256 / 256 / 256);
    assert Little(3, v / 256) == [v / 256 % 256] + Little(2, v / 256 / 256);
    assert Little(1, v / 256) == [v / 256 % 256] + Little(0, v / 256 / 256);
    assert Little(1, v) == [v % 256] + Little(0, v / 256);
  }

  lemma {:induction false} LittleSplit(a: nat, b: nat, p: nat, high: nat, low: nat)
    requires p == Pow256(a) && low < p
    ensures Little(a + b, p * high + low) == Little(a, low) + Little(b, high)
  {
    if a > 0 {
      var q := Pow256(a - 1);
      var m := q * high;
      Times(q, high);
      LittleSplit(a - 1, b, q, high, low / 256);
      LastByte(m, low);
      assert Little(a + b, 256 * m + low) == [low % 256] + Little(a - 1 + b, m + low / 256);
      assert Little(a, low) == [low % 256] + Little(a - 1, low / 256);
    }
  }

  lemma Times(q: nat, high: nat)
    ensures (256 * q) * high == 256 * (q * high)
  {
  }

  lemma LastByte(m: nat, low: nat)
    ensures (256 * m + low) / 256 == m + low / 256 && (256 * m + low) % 256 == low % 256
  {
  }

  lemma Little64(v: nat)
    requires v < TWO_64
    ensures WriteNum(W64, v) == U64(v)
  {
    assert Pow256(4) == TWO_32 by {
      assert Pow256(4) == 256 * Pow256(3) && Pow256(3) == 256 * Pow256(2) && Pow256(2) == 256 * Pow256(1) && Pow256(1) == 256 * Pow256(0);
    }
    LittleSplit(4, 4, TWO_32, v / TWO_32, v % TWO_32);
    LittleIs(v % TWO_32);
    LittleIs(v / TWO_32);
  }

  lemma SignedIs(x: int)
    requires Int64(x)
    ensures WriteNum(W64, ToUnsigned(x)) == I64(x)
  {
    Little64(ToUnsigned(x));
  }

  lemma TextIs(s: string)
    requires ByteText(s)
    ensures WriteText(s) == Txt(s)
  {
    LittleIs(|s|);
    assert Bytes(s) == seq(|s|, i requires 0 <= i < |s| => s[i] as int % 256);
  }

  // --------------------------------------------------------------------- rows

  // A field written in front of the rest of its row.
  lemma FieldFirst(f: Field, v: Value, shape: Shape, row: Row)
    requires FieldFits(f, v) && RowFits(shape, row)
    ensures RowFits([f] + shape, [v] + row)
    ensures WriteRow([f] + shape, [v] + row) == WriteField(f, v) + WriteRow(shape, row)
  {
    assert ([f] + shape)[1..] == shape && ([v] + row)[1..] == row;
  }

  lemma OneField(f: Field, v: Value)
    requires FieldFits(f, v)
    ensures RowFits([f], [v]) && WriteRow([f], [v]) == WriteField(f, v)
  {
    assert [f][1..] == [] && [v][1..] == [];
    assert WriteRow([f], [v]) == WriteField(f, v) + WriteRow([], []);
  }

  // The numbers of a row, each in its width.
  function Numbers(ws: seq<Width>, ns: seq<nat>): seq<Byte>
    requires |ws| == |ns|
  {
    if ns == [] then [] else WriteNum(ws[0], ns[0]) + Numbers(ws[1..], ns[1..])
  }

  function NumShape(ws: seq<Width>): Shape { seq(|ws|, i requires 0 <= i < |ws| => N(ws[i])) }

  function NumRow(ns: seq<nat>): Row { seq(|ns|, i requires 0 <= i < |ns| => Num(ns[i])) }

  lemma {:induction false} NumbersWritten(ws: seq<Width>, ns: seq<nat>)
    requires |ws| == |ns| && RowFits(NumShape(ws), NumRow(ns))
    ensures WriteRow(NumShape(ws), NumRow(ns)) == Numbers(ws, ns)
  {
    if ns != [] {
      assert NumShape(ws)[1..] == NumShape(ws[1..]) && NumRow(ns)[1..] == NumRow(ns[1..]);
      NumbersWritten(ws[1..], ns[1..]);
    }
  }

  lemma NamesWritten(r: Record)
    requires RecordTyped(r) && RecordShort(r)
    ensures RowFits(NameShape(VERSION), NamePart(VERSION, r))
    ensures WriteRow(NameShape(VERSION), NamePart(VERSION, r))
            == Txt(r.addr) + (Txt(r.credential.username) + Txt(r.credential.password))
  {
    var a, u, p := Str(r.addr), Str(r.credential.username), Str(r.credential.password);
    TextIs(r.addr);
    TextIs(r.credential.username);
    TextIs(r.credential.password);
    OneField(S(MAX_TEXT), p);
    FieldFirst(S(MAX_TEXT), u, [S(MAX_TEXT)], [p]);
    FieldFirst(S(MAX_TEXT), a, [S(MAX_TEXT), S(MAX_TEXT)], [u, p]);
    assert NameShape(VERSION) == [S(MAX_TEXT)] + [S(MAX_TEXT), S(MAX_TEXT)] && NamePart(VERSION, r) == [a] + [u, p];
    assert [S(MAX_TEXT), S(MAX_TEXT)] == [S(MAX_TEXT)] + [S(MAX_TEXT)] && [u, p] == [u] + [p];
  }

  const RECORD_WIDTHS := [W32, W32, W32, W16, W16, W8, W8, W8, W64, W64]

  function RecordNumbers(r: Record): seq<nat> {
    [r.sourceOffset, r.countryID, r.cityID, r.protocolID, r.sourceCount, r.continent, StatusCode(r.status),
     if r.hasAuth then 1 else 0, ToUnsigned(r.seenUnix), ToUnsigned(r.checkedUnix)]
  }

  lemma {:induction false} NumbersJoin(vs: seq<Width>, ms: seq<nat>, ws: seq<Width>, ns: seq<nat>)
    requires |vs| == |ms| && |ws| == |ns|
    ensures Numbers(vs + ws, ms + ns) == Numbers(vs, ms) + Numbers(ws, ns)
  {
    if ms == [] {
      assert vs + ws == ws && ms + ns == ns;
    } else {
      assert (vs + ws)[1..] == vs[1..] + ws && (ms + ns)[1..] == ms[1..] + ns;
      NumbersJoin(vs[1..], ms[1..], ws, ns);
    }
  }

  lemma FirstNumber(w: Width, n: nat, ws: seq<Width>, ns: seq<nat>)
    requires |ws| == |ns|
    ensures Numbers([w] + ws, [n] + ns) == WriteNum(w, n) + Numbers(ws, ns)
  {
    assert ([w] + ws)[1..] == ws && ([n] + ns)[1..] == ns;
  }

  lemma FiveNumbers(a: nat, b: nat, c: nat, d: nat, e: nat, v: Width, w: Width, x: Width, y: Width, z: Width)
    ensures Numbers([v, w, x, y, z], [a, b, c, d, e])
            == WriteNum(v, a) + (WriteNum(w, b) + (WriteNum(x, c) + (WriteNum(y, d) + WriteNum(z, e))))
  {
    assert Numbers([], []) == [];
    FirstNumber(z, e, [], []);
    FirstNumber(y, d, [z], [e]);
    FirstNumber(x, c, [y, z], [d, e]);
    FirstNumber(w, b, [x, y, z], [c, d, e]);
    FirstNumber(v, a, [w, x, y, z], [b, c, d, e]);
    assert [z] + [] == [z] && [e] + [] == [e] && [y] + [z] == [y, z] && [d] + [e] == [d, e];
    assert [x] + [y, z] == [x, y, z] && [c] + [d, e] == [c, d, e];
    assert [w] + [x, y, z] == [w, x, y, z] && [b] + [c, d, e] == [b, c, d, e];
    assert [v] + [w, x, y, z] == [v, w, x, y, z] && [a] + [b, c, d, e] == [a, b, c, d, e];
  }

  lemma RecordNumbersWritten(r: Record)
    requires RecordTyped(r)
    ensures RowFits(NumberShape(), NumberPart(r))
    ensures WriteRow(NumberShape(), NumberPart(r))
            == (U32(r.sourceOffset) + (U32(r.countryID) + (U32(r.cityID) + (U16(r.protocolID) + U16(r.sourceCount)))))
               + (U8(r.continent) + (U8(StatusByte(r.status)) + (U8(if r.hasAuth then 1 else 0) + (I64(r.seenUnix) + I64(r.checkedUnix)))))
  {
    NumberPartFits(r);
    var ns := RecordNumbers(r);
    assert NumberShape() == NumShape(RECORD_WIDTHS) && NumberPart(r) == NumRow(ns);
    NumbersWritten(RECORD_WIDTHS, ns);
    assert RECORD_WIDTHS == [W32, W32, W32, W16, W16] + [W8, W8, W8, W64, W64] && ns == ns[..5] + ns[5..];
    NumbersJoin([W32, W32, W32, W16, W16], ns[..5], [W8, W8, W8, W64, W64], ns[5..]);
    FiveNumbers(r.sourceOffset, r.countryID, r.cityID, r.protocolID, r.sourceCount, W32, W32, W32, W16, W16);
    FiveNumbers(r.continent, StatusCode(r.status), if r.hasAuth then 1 else 0, ToUnsigned(r.seenUnix), ToUnsigned(r.checkedUnix), W8, W8, W8, W64, W64);
    assert ns[..5] == [r.sourceOffset, r.countryID, r.cityID, r.protocolID, r.sourceCount];
    assert ns[5..] == [r.continent, StatusCode(r.status), if r.hasAuth then 1 else 0, ToUnsigned(r.seenUnix), ToUnsigned(r.checkedUnix)];
    LittleIs(r.sourceOffset);
    LittleIs(r.countryID);
    LittleIs(r.cityID);
    LittleIs(r.protocolID);
    LittleIs(r.sourceCount);
    LittleIs(r.continent);
    LittleIs(StatusByte(r.status));
    LittleIs(if r.hasAuth then 1 else 0);
    SignedIs(r.seenUnix);
    SignedIs(r.checkedUnix);
  }

  lemma RangeWritten(r: Record)
    requires RecordTyped(r)
    ensures RowFits(AlternateShape(VERSION), AlternatePart(VERSION, r))
    ensures WriteRow(AlternateShape(VERSION), AlternatePart(VERSION, r)) == U32(r.altOffset) + U8(r.altCount)
  {
    AlternatePartFits(VERSION, r);
    Widths(r.altOffset);
    Widths(r.altCount);
    OneField(N(W8), Num(r.altCount));
    FieldFirst(N(W32), Num(r.altOffset), [N(W8)], [Num(r.altCount)]);
    assert AlternateShape(VERSION) == [N(W32)] + [N(W8)] && AlternatePart(VERSION, r) == [Num(r.altOffset)] + [Num(r.altCount)];
    LittleIs(r.altOffset);
    LittleIs(r.altCount);
  }

  // A record's row is its layout.
  lemma RecordWritten(r: Record)
    requires RecordTyped(r) && RecordShort(r)
    ensures RowFits(RecordShape(VERSION), RecordRow(VERSION, r))
    ensures WriteRow(RecordShape(VERSION), RecordRow(VERSION, r)) == RecordLayout(r)
  {
    hide Txt, U32, U16, U8, I64, WriteRow, RowFits, StatusByte, NameShape, NumberShape, AlternateShape, NamePart, NumberPart, AlternatePart;
    NamesWritten(r);
    RecordNumbersWritten(r);
    RangeWritten(r);
    PartLengths(r);
    WriteRowJoin(NumberShape(), AlternateShape(VERSION), NumberPart(r), AlternatePart(VERSION, r));
    WriteRowJoin(NameShape(VERSION), NumberShape() + AlternateShape(VERSION), NamePart(VERSION, r), NumberPart(r) + AlternatePart(VERSION, r));
    Rearranged(Txt(r.addr), Txt(r.credential.username), Txt(r.credential.password),
               U32(r.sourceOffset), U32(r.countryID), U32(r.cityID), U16(r.protocolID), U16(r.sourceCount),
               U8(r.continent), U8(StatusByte(r.status)), U8(if r.hasAuth then 1 else 0), I64(r.seenUnix), I64(r.checkedUnix),
               U32(r.altOffset) + U8(r.altCount));
  }

  lemma PartLengths(r: Record)
    ensures |NameShape(VERSION)| == |NamePart(VERSION, r)| && |NumberShape()| == |NumberPart(r)|
  {
  }

  lemma Rearranged(a: seq<Byte>, b: seq<Byte>, c: seq<Byte>, d: seq<Byte>, e: seq<Byte>, f: seq<Byte>, g: seq<Byte>, h: seq<Byte>,
                   i: seq<Byte>, j: seq<Byte>, k: seq<Byte>, l: seq<Byte>, m: seq<Byte>, n: seq<Byte>)
    ensures (a + (b + c)) + (((d + (e + (f + (g + h)))) + (i + (j + (k + (l + m))))) + n)
            == a + (b + (c + (d + (e + (f + (g + (h + (i + (j + (k + (l + (m + n))))))))))))
  {
    Assoc5(d, e, f, g, h, (i + (j + (k + (l + m)))) + n);
    Assoc5(i, j, k, l, m, n);
    assert ((d + (e + (f + (g + h)))) + (i + (j + (k + (l + m))))) + n
           == (d + (e + (f + (g + h)))) + ((i + (j + (k + (l + m)))) + n);
    var rest := ((d + (e + (f + (g + h)))) + (i + (j + (k + (l + m))))) + n;
    assert (a + (b + c)) + rest == a + (b + (c + rest));
  }

  lemma Assoc5(d: seq<Byte>, e: seq<Byte>, f: seq<Byte>, g: seq<Byte>, h: seq<Byte>, t: seq<Byte>)
    ensures (d + (e + (f + (g + h)))) + t == d + (e + (f + (g + (h + t))))
  {
    assert (g + h) + t == g + (h + t);
    assert (f + (g + h)) + t == f + ((g + h) + t);
    assert (e + (f + (g + h))) + t == e + ((f + (g + h)) + t);
    assert (d + (e + (f + (g + h)))) + t == d + ((e + (f + (g + h))) + t);
  }

  lemma CredentialWritten(c: Credential)
    requires CredentialTyped(c) && CredentialShort(c)
    ensures RowFits(CredentialShape(), CredentialRow(c)) && WriteRow(CredentialShape(), CredentialRow(c)) == CredentialLayout(c)
  {
    TextIs(c.username);
    TextIs(c.password);
    OneField(S(MAX_TEXT), Str(c.password));
    FieldFirst(S(MAX_TEXT), Str(c.username), [S(MAX_TEXT)], [Str(c.password)]);
    assert CredentialShape() == [S(MAX_TEXT)] + [S(MAX_TEXT)] && CredentialRow(c) == [Str(c.username)] + [Str(c.password)];
  }

  lemma FailureWritten(f: Failure)
    requires FailureTyped(f) && FailureShort(f)
    ensures RowFits(FailureShape(), FailureRow(f)) && WriteRow(FailureShape(), FailureRow(f)) == FailureLayout(f)
  {
    hide RecordLayout, RecordShape, RecordRow;
    RecordWritten(f.record);
    LittleIs(KindCode(f.kind));
    Widths(KindCode(f.kind));
    TextIs(f.lastError);
    OneField(S(MAX_LAST_ERROR), Str(f.lastError));
    FieldFirst(N(W8), Num(KindCode(f.kind)), [S(MAX_LAST_ERROR)], [Str(f.lastError)]);
    assert [N(W8), S(MAX_LAST_ERROR)] == [N(W8)] + [S(MAX_LAST_ERROR)];
    assert [Num(KindCode(f.kind)), Str(f.lastError)] == [Num(KindCode(f.kind))] + [Str(f.lastError)];
    FailureLengths(f);
    WriteRowJoin(RecordShape(VERSION), [N(W8), S(MAX_LAST_ERROR)], RecordRow(VERSION, f.record), [Num(KindCode(f.kind)), Str(f.lastError)]);
  }

  lemma FailureLengths(f: Failure)
    ensures |RecordShape(VERSION)| == |RecordRow(VERSION, f.record)|
  {
  }

  // ------------------------------------------------------------------- header

  lemma FourNumbers(a: nat, b: nat, c: nat, d: nat, v: Width, w: Width, x: Width, y: Width)
    ensures Numbers([v, w, x, y], [a, b, c, d]) == WriteNum(v, a) + (WriteNum(w, b) + (WriteNum(x, c) + WriteNum(y, d)))
  {
    assert Numbers([], []) == [];
    FirstNumber(y, d, [], []);
    FirstNumber(x, c, [y], [d]);
    FirstNumber(w, b, [x, y], [c, d]);
    FirstNumber(v, a, [w, x, y], [b, c, d]);
    assert [y] + [] == [y] && [d] + [] == [d] && [x] + [y] == [x, y] && [c] + [d] == [c, d];
    assert [w] + [x, y] == [w, x, y] && [b] + [c, d] == [b, c, d];
    assert [v] + [w, x, y] == [v, w, x, y] && [a] + [b, c, d] == [a, b, c, d];
  }

  // Four numbers, a text, four numbers.
  lemma HeaderRowWritten(m: Meta)
    requires MetaTyped(m) && MetaShort(m)
    ensures RowFits(HeaderShape(), HeaderRow(VERSION, m))
    ensures WriteRow(HeaderShape(), HeaderRow(VERSION, m))
            == (U16(4) + (U16(0) + (U64(m.generation) + U64(m.revision))))
               + (Txt(m.phase) + (U32(m.sourceErrors) + (TimeLayout(m.seenAt) + (TimeLayout(m.refreshAttempt) + TimeLayout(m.completedAt)))))
  {
    HeaderRowFits(VERSION, m);
    var first, last := [VERSION, 0, m.generation, m.revision],
                       [m.sourceErrors, ToUnsigned(TimeCode(m.seenAt)), ToUnsigned(TimeCode(m.refreshAttempt)), ToUnsigned(TimeCode(m.completedAt))];
    var ws, vs := [W16, W16, W64, W64], [W32, W64, W64, W64];
    assert HeaderShape() == NumShape(ws) + ([S(MAX_PHASE)] + NumShape(vs));
    assert HeaderRow(VERSION, m) == NumRow(first) + ([Str(m.phase)] + NumRow(last));
    RowFitsJoin(NumShape(ws), [S(MAX_PHASE)] + NumShape(vs), NumRow(first), [Str(m.phase)] + NumRow(last));
    RowFitsJoin([S(MAX_PHASE)], NumShape(vs), [Str(m.phase)], NumRow(last));
    WriteRowJoin(NumShape(ws), [S(MAX_PHASE)] + NumShape(vs), NumRow(first), [Str(m.phase)] + NumRow(last));
    FieldFirst(S(MAX_PHASE), Str(m.phase), NumShape(vs), NumRow(last));
    NumbersWritten(ws, first);
    NumbersWritten(vs, last);
    FourNumbers(VERSION, 0, m.generation, m.revision, W16, W16, W64, W64);
    FourNumbers(m.sourceErrors, last[1], last[2], last[3], W32, W64, W64, W64);
    TextIs(m.phase);
    LittleIs(VERSION);
    LittleIs(0);
    LittleIs(m.sourceErrors);
    Little64(m.generation);
    Little64(m.revision);
    SignedIs(TimeCode(m.seenAt));
    SignedIs(TimeCode(m.refreshAttempt));
    SignedIs(TimeCode(m.completedAt));
  }

  lemma HeaderWritten(m: Meta)
    requires MetaTyped(m) && MetaShort(m)
    ensures RowFits(HeaderShape(), HeaderRow(VERSION, m))
    ensures Bytes(MAGIC) + WriteRow(HeaderShape(), HeaderRow(VERSION, m)) == HeaderLayout(m)
  {
    hide WriteRow, U16, U32, U64, Txt, TimeLayout, HeaderShape, HeaderRow;
    HeaderRowWritten(m);
    MagicIs();
    var a, b, c, d := U16(4), U16(0), U64(m.generation), U64(m.revision);
    var t := Txt(m.phase) + (U32(m.sourceErrors) + (TimeLayout(m.seenAt) + (TimeLayout(m.refreshAttempt) + TimeLayout(m.completedAt))));
    assert (c + d) + t == c + (d + t);
    assert (b + (c + d)) + t == b + ((c + d) + t);
    assert (a + (b + (c + d))) + t == a + ((b + (c + d)) + t);
  }

  lemma MagicIs()
    ensures Bytes(MAGIC) == [0x53, 0x50, 0x43, 0x41, 0x4E, 0x44, 0x30, 0x31]
  {
    assert MAGIC == ['S', 'P', 'C', 'A', 'N', 'D', '0', '1'];
  }

  // ------------------------------------------------------------------- tables

  // The rows of a table are what they hold, laid out.
  ghost predicate LaidOut<T(!new)>(shape: Shape, enc: T -> Row, item: T -> seq<Byte>, xs: seq<T>) {
    forall x | x in xs :: RowFits(shape, enc(x)) && WriteRow(shape, enc(x)) == item(x)
  }

  lemma {:induction false} ItemsWritten<T(!new)>(shape: Shape, enc: T -> Row, item: T -> seq<Byte>, xs: seq<T>)
    requires LaidOut(shape, enc, item, xs)
    ensures RowsFit(shape, RowsFrom(enc, xs)) && WriteRows(shape, RowsFrom(enc, xs)) == Items(item, xs)
  {
    if xs != [] {
      var front, last := xs[..|xs|-1], xs[|xs|-1];
      assert last in xs && forall x | x in front :: x in xs;
      ItemsWritten(shape, enc, item, front);
      var rows := RowsFrom(enc, xs);
      assert rows[..|rows|-1] == RowsFrom(enc, front) && rows[|rows|-1] == enc(last);
    }
  }

  lemma TableWritten<T(!new)>(shape: Shape, enc: T -> Row, item: T -> seq<Byte>, xs: seq<T>)
    requires LaidOut(shape, enc, item, xs)
    ensures RowsFit(shape, RowsFrom(enc, xs)) && WriteTable(shape, RowsFrom(enc, xs)) == ListOf(item, xs)
  {
    ItemsWritten(shape, enc, item, xs);
    LittleIs(|xs|);
  }

  lemma TextsLaidOut(xs: seq<string>)
    requires ByteTexts(xs) && ShortTexts(xs)
    ensures LaidOut(TextShape(), TextEnc(), (x: string) => Txt(x), xs)
  {
    forall x | x in xs ensures RowFits(TextShape(), TextRow(x)) && WriteRow(TextShape(), TextRow(x)) == Txt(x) {
      OneField(S(MAX_TEXT), Str(x));
      TextIs(x);
    }
  }

  lemma RefsLaidOut(ns: seq<nat>)
    requires forall n | n in ns :: n < TWO_32
    ensures LaidOut(RefShape(), RefEnc(), (n: nat) => U32(n), ns)
  {
    forall n | n in ns ensures RowFits(RefShape(), RefRow(n)) && WriteRow(RefShape(), RefRow(n)) == U32(n) {
      Widths(n);
      OneField(N(W32), Num(n));
      LittleIs(n);
    }
  }

  lemma RecordsLaidOut(rs: seq<Record>)
    requires forall r | r in rs :: RecordTyped(r) && RecordShort(r)
    ensures LaidOut(RecordShape(VERSION), RecordEnc(VERSION), (r: Record) => RecordLayout(r), rs)
  {
    hide RecordShape, RecordRow, RecordLayout;
    forall r | r in rs
      ensures RowFits(RecordShape(VERSION), RecordRow(VERSION, r)) && WriteRow(RecordShape(VERSION), RecordRow(VERSION, r)) == RecordLayout(r)
    {
      RecordWritten(r);
    }
  }

  lemma CredentialsLaidOut(cs: seq<Credential>)
    requires forall c | c in cs :: CredentialTyped(c) && CredentialShort(c)
    ensures LaidOut(CredentialShape(), CredentialEnc(), (c: Credential) => CredentialLayout(c), cs)
  {
    hide CredentialShape, CredentialRow, CredentialLayout;
    forall c | c in cs
      ensures RowFits(CredentialShape(), CredentialRow(c)) && WriteRow(CredentialShape(), CredentialRow(c)) == CredentialLayout(c)
    {
      CredentialWritten(c);
    }
  }

  lemma FailuresLaidOut(fs: seq<Failure>)
    requires forall f | f in fs :: FailureTyped(f) && FailureShort(f)
    ensures LaidOut(FailureShape(), FailureEnc(), (f: Failure) => FailureLayout(f), fs)
  {
    hide FailureShape, FailureRow, FailureLayout;
    forall f | f in fs
      ensures RowFits(FailureShape(), FailureRow(f)) && WriteRow(FailureShape(), FailureRow(f)) == FailureLayout(f)
    {
      FailureWritten(f);
    }
  }

  function Concat(parts: seq<seq<Byte>>): seq<Byte> { if parts == [] then [] else parts[0] + Concat(parts[1..]) }

  lemma {:induction false} SheetsConcat(sheets: seq<Sheet>, tables: seq<seq<Row>>, parts: seq<seq<Byte>>)
    requires SheetsFit(sheets, tables) && |parts| == |tables|
    requires forall i | 0 <= i < |tables| :: RowsFit(sheets[i].shape, tables[i]) && WriteTable(sheets[i].shape, tables[i]) == parts[i]
    ensures WriteSheets(sheets, tables) == Concat(parts)
  {
    if tables != [] {
      forall i | 0 <= i < |tables[1..]|
        ensures RowsFit(sheets[1..][i].shape, tables[1..][i]) && WriteTable(sheets[1..][i].shape, tables[1..][i]) == parts[1..][i]
      {
        assert RowsFit(sheets[i + 1].shape, tables[i + 1]);
      }
      SheetsConcat(sheets[1..], tables[1..], parts[1..]);
      assert WriteTable(sheets[0].shape, tables[0]) == parts[0];
    }
  }

  lemma ConcatEight(a: seq<Byte>, b: seq<Byte>, c: seq<Byte>, d: seq<Byte>, e: seq<Byte>, f: seq<Byte>, g: seq<Byte>, h: seq<Byte>)
    ensures Concat([a, b, c, d, e, f, g, h]) == a + (b + (c + (d + (e + (f + (g + h))))))
  {
    assert Concat([h]) == h + Concat([]) == h;
    assert Concat([a, b, c, d, e, f, g, h]) == a + Concat([b, c, d, e, f, g, h]);
    assert Concat([b, c, d, e, f, g, h]) == b + Concat([c, d, e, f, g, h]);
    assert Concat([f, g, h]) == f + Concat([g, h]);
    assert Concat([g, h]) == g + Concat([h]);
    assert [g, h][1..] == [h] && [f, g, h][1..] == [g, h] && [e, f, g, h][1..] == [f, g, h] && [d, e, f, g, h][1..] == [e, f, g, h];
    assert [c, d, e, f, g, h][1..] == [d, e, f, g, h] && [b, c, d, e, f, g, h][1..] == [c, d, e, f, g, h];
    assert [a, b, c, d, e, f, g, h][1..] == [b, c, d, e, f, g, h];
    assert Concat([c, d, e, f, g, h]) == c + Concat([d, e, f, g, h]);
    assert Concat([d, e, f, g, h]) == d + Concat([e, f, g, h]);
    assert Concat([e, f, g, h]) == e + Concat([f, g, h]);
  }

  // --------------------------------------------------------------------- file

  // The lists of a snapshot but for its failures.
  function Lists(s: Snapshot): seq<seq<Byte>> {
    var text := (x: string) => Txt(x);
    [ListOf(text, s.tables.sourceKeys), ListOf(text, s.tables.sources), ListOf(text, s.tables.protocols),
     ListOf(text, s.tables.countries), ListOf(text, s.tables.cities), ListOf((n: nat) => U32(n), s.tables.sourceRefs),
     ListOf((r: Record) => RecordLayout(r), s.records), ListOf((c: Credential) => CredentialLayout(c), s.alternates)]
  }

  lemma DictionaryWritten(xs: seq<string>)
    requires ByteTexts(xs) && ShortTexts(xs)
    ensures RowsFit(TextShape(), RowsFrom(TextEnc(), xs))
    ensures WriteTable(TextShape(), RowsFrom(TextEnc(), xs)) == ListOf((x: string) => Txt(x), xs)
  {
    TextsLaidOut(xs);
    TableWritten(TextShape(), TextEnc(), (x: string) => Txt(x), xs);
  }

  lemma ItemListsWritten(s: Snapshot)
    requires Passes(s)
    ensures RowsFit(RefShape(), RowsFrom(RefEnc(), s.tables.sourceRefs))
    ensures RowsFit(RecordShape(VERSION), RowsFrom(RecordEnc(VERSION), s.records))
    ensures RowsFit(CredentialShape(), RowsFrom(CredentialEnc(), s.alternates))
    ensures RowsFit(FailureShape(), RowsFrom(FailureEnc(), s.failed))
    ensures WriteTable(RefShape(), RowsFrom(RefEnc(), s.tables.sourceRefs)) == ListOf((n: nat) => U32(n), s.tables.sourceRefs)
    ensures WriteTable(RecordShape(VERSION), RowsFrom(RecordEnc(VERSION), s.records)) == ListOf((r: Record) => RecordLayout(r), s.records)
    ensures WriteTable(CredentialShape(), RowsFrom(CredentialEnc(), s.alternates)) == ListOf((c: Credential) => CredentialLayout(c), s.alternates)
    ensures WriteTable(FailureShape(), RowsFrom(FailureEnc(), s.failed)) == ListOf((f: Failure) => FailureLayout(f), s.failed)
  {
    hide WriteTable, ListOf, RecordLayout, CredentialLayout, FailureLayout, RecordShape, CredentialShape, FailureShape, RefShape, LaidOut, RowsFrom, RowsFit;
    RefsLaidOut(s.tables.sourceRefs);
    RecordsLaidOut(s.records);
    CredentialsLaidOut(s.alternates);
    FailuresLaidOut(s.failed);
    TableWritten(RefShape(), RefEnc(), (n: nat) => U32(n), s.tables.sourceRefs);
    TableWritten(RecordShape(VERSION), RecordEnc(VERSION), (r: Record) => RecordLayout(r), s.records);
    TableWritten(CredentialShape(), CredentialEnc(), (c: Credential) => CredentialLayout(c), s.alternates);
    TableWritten(FailureShape(), FailureEnc(), (f: Failure) => FailureLayout(f), s.failed);
  }

  lemma SheetWritten(s: Snapshot, i: nat)
    requires Passes(s) && i < 8
    ensures RowsFit(FileSheets(VERSION)[i].shape, FileTables(CodecsOf(VERSION), s)[i])
    ensures WriteTable(FileSheets(VERSION)[i].shape, FileTables(CodecsOf(VERSION), s)[i]) == Lists(s)[i]
  {
    hide WriteTable, RowsFit, ListOf, RecordLayout, CredentialLayout, RecordShape, CredentialShape, RefShape, TextShape, RowsFrom,
         TextEnc, RefEnc, RecordEnc, CredentialEnc, FailureEnc, TextDec, RefDec, RecordDec, CredentialDec, FailureDec;
    var t := s.tables;
    if i < 5 {
      DictionaryWritten([t.sourceKeys, t.sources, t.protocols, t.countries, t.cities][i]);
    } else {
      ItemListsWritten(s);
    }
  }

  lemma TablesWritten(s: Snapshot)
    requires Passes(s)
    ensures SheetsFit(FileSheets(VERSION), FileTables(CodecsOf(VERSION), s))
    ensures WriteSheets(FileSheets(VERSION), FileTables(CodecsOf(VERSION), s)) == Concat(Lists(s))
  {
    hide WriteTable, RowsFit, WriteSheets, SheetsFit, Concat, CodecsOf, ListOf;
    var sheets, tables := FileSheets(VERSION), FileTables(CodecsOf(VERSION), s);
    BodyFits(CodecsOf(VERSION), s);
    forall i | 0 <= i < |tables| ensures RowsFit(sheets[i].shape, tables[i]) && WriteTable(sheets[i].shape, tables[i]) == Lists(s)[i] {
      SheetWritten(s, i);
    }
    SheetsConcat(sheets, tables, Lists(s));
  }

  // The body: the lists one behind the other.
  lemma BodyWritten(s: Snapshot)
    requires Passes(s)
    ensures SheetsFit(FileSheets(VERSION), FileTables(CodecsOf(VERSION), s)) && RowsFit(FailureShape(), FailureRows(CodecsOf(VERSION), s))
    ensures Body(FileSheets(VERSION), FileTables(CodecsOf(VERSION), s), FailureRows(CodecsOf(VERSION), s))
            == Concat(Lists(s)) + ListOf((f: Failure) => FailureLayout(f), s.failed)
  {
    hide WriteTable, RowsFit, SheetFits, ListOf, FailureLayout, RowsFrom, WriteSheets, SheetsFit, FileSheets, FileTables, FailureShape, Concat, Lists;
    BodyFits(CodecsOf(VERSION), s);
    TablesWritten(s);
    ItemListsWritten(s);
  }

  // The encoding of a snapshot is its layout: a reader that knows nothing of rows
  // finds every field where the format has it.
  lemma FileIsLayout(s: Snapshot)
    requires Passes(s)
    ensures FileBytes(s) == FileLayout(s)
  {
    hide ListOf, RecordLayout, CredentialLayout, FailureLayout, HeaderLayout, WriteRow, RowFits, HeaderRow, HeaderShape, Body, FileSheets, FileTables,
         FailureRows, SheetsFit, RowsFit, CodecsOf, Concat;
    HeaderWritten(s.meta);
    BodyWritten(s);
    var l, last := Lists(s), ListOf((f: Failure) => FailureLayout(f), s.failed);
    ConcatEight(l[0], l[1], l[2], l[3], l[4], l[5], l[6], l[7]);
    assert l == [l[0], l[1], l[2], l[3], l[4], l[5], l[6], l[7]];
    Trailing(l[0], l[1], l[2], l[3], l[4], l[5], l[6], l[7], last);
  }

  lemma Trailing(a: seq<Byte>, b: seq<Byte>, c: seq<Byte>, d: seq<Byte>, e: seq<Byte>, f: seq<Byte>, g: seq<Byte>, h: seq<Byte>, t: seq<Byte>)
    ensures (a + (b + (c + (d + (e + (f + (g + h))))))) + t == a + (b + (c + (d + (e + (f + (g + (h + t)))))))
  {
    assert (g + h) + t == g + (h + t);
    assert (f + (g + h)) + t == f + ((g + h) + t);
    assert (e + (f + (g + h))) + t == e + ((f + (g + h)) + t);
    var u := e + (f + (g + h));
    assert (d + u) + t == d + (u + t);
    assert (c + (d + u)) + t == c + ((d + u) + t);
    assert (b + (c + (d + u))) + t == b + ((c + (d + u)) + t);
    assert (a + (b + (c + (d + u)))) + t == a + ((b + (c + (d + u))) + t);
  }
}

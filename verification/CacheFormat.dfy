// The catalog cache file, version 4 and the older ones still read
// (candidatecache.go): its layout, what a snapshot's bytes are, and the laws
// between writing and reading them.
module CacheFormat {
  import opened Proxies
  import opened CatalogModel
  import opened Wire

  const MAGIC := "SPCAND01"
  const VERSION := 4

  const MAX_TEXT := 16384
  const MAX_PHASE := 32
  const MAX_LAST_ERROR := 512
  const MAX_RECORDS := 1200000
  const MAX_SOURCE_REFS := 4800000
  const MAX_SOURCES := 16384
  const MAX_PROTOCOLS := 64
  const MAX_COUNTRIES := 1024
  const MAX_CITIES := 600000
  const MAX_CREDENTIALS := MAX_RECORDS * MAX_ALTERNATES

  // ----------------------------------------------------------------- shapes

  function HeaderShape(): Shape { [N(W16), N(W16), N(W64), N(W64), S(MAX_PHASE), N(W32), N(W64), N(W64), N(W64)] }

  function TextShape(): Shape { [S(MAX_TEXT)] }

  function RefShape(): Shape { [N(W32)] }

  function CredentialShape(): Shape { [S(MAX_TEXT), S(MAX_TEXT)] }

  function NameShape(version: nat): Shape { if version >= 2 then [S(MAX_TEXT), S(MAX_TEXT), S(MAX_TEXT)] else [S(MAX_TEXT)] }

  function NumberShape(): Shape { [N(W32), N(W32), N(W32), N(W16), N(W16), N(W8), N(W8), N(W8), N(W64), N(W64)] }

  function AlternateShape(version: nat): Shape { if version >= 3 then [N(W32), N(W8)] else [] }

  function RecordShape(version: nat): Shape { NameShape(version) + (NumberShape() + AlternateShape(version)) }

  function FailureShape(): Shape { RecordShape(VERSION) + [N(W8), S(MAX_LAST_ERROR)] }

  // -------------------------------------------------------------- row to value

  function StatusCode(s: Status): nat {
    match s
    case Deferred => 0 case CheckedFailed => 1 case PolicyFiltered => 2
    case KnownAvailable => 3 case KnownUnavailable => 4 case Resource => 5
  }

  function StatusOf(n: nat): Option<Status> {
    if n == 0 then Some(Deferred) else if n == 1 then Some(CheckedFailed) else if n == 2 then Some(PolicyFiltered)
    else if n == 3 then Some(KnownAvailable) else if n == 4 then Some(KnownUnavailable) else if n == 5 then Some(Resource)
    else None
  }

  function KindCode(k: FailureKind): nat { if k == Unreachable then 1 else 2 }

  function KindFrom(n: nat): Option<FailureKind> { if n == 1 then Some(Unreachable) else if n == 2 then Some(PolicyRejected) else None }

  // A time as stored: no time and the epoch are both zero.
  function TimeCode(t: Option<int>): int { if t.Some? then t.value else 0 }

  function TimeOf(x: int): Option<int> { if x == 0 then None else Some(x) }

  function NamePart(version: nat, r: Record): Row {
    if version >= 2 then [Str(r.addr), Str(r.credential.username), Str(r.credential.password)] else [Str(r.addr)]
  }

  function NumberPart(r: Record): Row {
    [Num(r.sourceOffset), Num(r.countryID), Num(r.cityID), Num(r.protocolID), Num(r.sourceCount), Num(r.continent),
     Num(StatusCode(r.status)), Num(if r.hasAuth then 1 else 0), Num(ToUnsigned(r.seenUnix)), Num(ToUnsigned(r.checkedUnix))]
  }

  function AlternatePart(version: nat, r: Record): Row { if version >= 3 then [Num(r.altOffset), Num(r.altCount)] else [] }

  function RecordRow(version: nat, r: Record): Row {
    NamePart(version, r) + (NumberPart(r) + AlternatePart(version, r))
  }

  // A record as an older version keeps it: without what it had no field for.
  function Aged(version: nat, r: Record): Record {
    var q := if version >= 2 then r else r.(credential := Credential("", ""));
    if version >= 3 then q else q.(altOffset := 0, altCount := 0)
  }

  function NameCount(version: nat): nat { if version >= 2 then 3 else 1 }

  // The parts of a record's row.
  predicate NamesFit(version: nat, names: Row) { RowFits(NameShape(version), names) }

  predicate NumbersFit(numbers: Row) { RowFits(NumberShape(), numbers) }

  predicate AlternatesFit(version: nat, alts: Row) { RowFits(AlternateShape(version), alts) }

  // The record three parts hold; an unknown status or a marker above one is
  // refused.
  function RecordFrom(version: nat, names: Row, numbers: Row, alts: Row): Option<Record>
    requires NamesFit(version, names) && NumbersFit(numbers) && AlternatesFit(version, alts)
  {
    NamesAre(version, names);
    NumbersAre(numbers);
    AlternatesAre(version, alts);
    if StatusOf(numbers[6].n) == None || numbers[7].n > 1 then None
    else Some(Record(names[0].s, if version >= 2 then Credential(names[1].s, names[2].s) else Credential("", ""),
                     numbers[0].n, numbers[4].n, numbers[1].n, numbers[2].n, numbers[3].n, numbers[5].n,
                     StatusOf(numbers[6].n).value, numbers[7].n == 1, ToSigned(numbers[8].n), ToSigned(numbers[9].n),
                     if version >= 3 then alts[0].n else 0, if version >= 3 then alts[1].n else 0))
  }

  function RecordOf(version: nat, row: Row): Option<Record>
    requires RowFits(RecordShape(version), row)
  {
    PartsFit(version, row);
    var b := NameCount(version);
    RecordFrom(version, row[..b], row[b..b + 10], row[b + 10..])
  }

  // ----------------------------------------------------------------- widths

  lemma PartsFit(version: nat, row: Row)
    requires RowFits(RecordShape(version), row)
    ensures var b := NameCount(version);
            && |row| == b + 10 + |AlternateShape(version)|
            && NamesFit(version, row[..b]) && NumbersFit(row[b..b + 10]) && AlternatesFit(version, row[b + 10..])
  {
    var b := NameCount(version);
    assert row == row[..b] + row[b..] && row[b..] == row[b..b + 10] + row[b + 10..];
    RowFitsJoin(NameShape(version), NumberShape() + AlternateShape(version), row[..b], row[b..]);
    RowFitsJoin(NumberShape(), AlternateShape(version), row[b..b + 10], row[b + 10..]);
  }

  lemma NamesAre(version: nat, names: Row)
    requires NamesFit(version, names)
    ensures |names| == NameCount(version) && names[0].Str? && ShortText(names[0].s)
    ensures version >= 2 ==> names[1].Str? && names[2].Str? && ShortText(names[1].s) && ShortText(names[2].s)
  {
    RowFitsAt(NameShape(version), names, 0);
    if version >= 2 {
      RowFitsAt(NameShape(version), names, 1);
      RowFitsAt(NameShape(version), names, 2);
    }
  }

  lemma NumberAt(numbers: Row, i: nat)
    requires NumbersFit(numbers) && i < 10
    ensures |numbers| == 10 && numbers[i].Num?
    ensures numbers[i].n < (if i < 3 then TWO_32 else if i < 5 then 65536 else if i < 8 then 256 else TWO_64)
  {
    RowFitsAt(NumberShape(), numbers, i);
    Widths(numbers[i].n);
  }

  lemma NumbersAre(numbers: Row)
    requires NumbersFit(numbers)
    ensures |numbers| == 10 && forall i | 0 <= i < 10 ::
              numbers[i].Num? && numbers[i].n < (if i < 3 then TWO_32 else if i < 5 then 65536 else if i < 8 then 256 else TWO_64)
  {
    forall i: nat | i < 10
      ensures numbers[i].Num? && numbers[i].n < (if i < 3 then TWO_32 else if i < 5 then 65536 else if i < 8 then 256 else TWO_64)
    {
      NumberAt(numbers, i);
    }
  }

  lemma AlternatesAre(version: nat, alts: Row)
    requires AlternatesFit(version, alts)
    ensures |alts| == |AlternateShape(version)|
    ensures version >= 3 ==> alts[0].Num? && alts[1].Num? && alts[0].n < TWO_32 && alts[1].n < 256
  {
    if version >= 3 {
      RowFitsAt(AlternateShape(version), alts, 0);
      RowFitsAt(AlternateShape(version), alts, 1);
      Widths(alts[0].n);
      Widths(alts[1].n);
    }
  }

  predicate ShortText(s: string) { ByteText(s) && |s| <= MAX_TEXT }

  // The widths of a record's Go fields.
  predicate RecordTyped(r: Record) {
    && ByteText(r.addr) && ByteText(r.credential.username) && ByteText(r.credential.password)
    && r.sourceOffset < TWO_32 && r.countryID < TWO_32 && r.cityID < TWO_32 && r.altOffset < TWO_32
    && r.protocolID < 65536 && r.sourceCount < 65536 && r.continent < 256 && r.altCount < 256
    && Int64(r.seenUnix) && Int64(r.checkedUnix)
  }

  predicate RecordShort(r: Record) {
    |r.addr| <= MAX_TEXT && |r.credential.username| <= MAX_TEXT && |r.credential.password| <= MAX_TEXT
  }

  lemma NamePartFits(version: nat, r: Record)
    requires RecordTyped(r) && RecordShort(r)
    ensures NamesFit(version, NamePart(version, r))
  {
    RowFitsFrom(NameShape(version), NamePart(version, r));
  }

  lemma NumberPartFits(r: Record)
    requires RecordTyped(r)
    ensures NumbersFit(NumberPart(r))
  {
    Widths(r.sourceOffset);
    Widths(r.countryID);
    Widths(r.cityID);
    Widths(r.protocolID);
    Widths(r.sourceCount);
    Widths(r.continent);
    Widths(StatusCode(r.status));
    Widths(if r.hasAuth then 1 else 0);
    Widths(ToUnsigned(r.seenUnix));
    Widths(ToUnsigned(r.checkedUnix));
    RowFitsFrom(NumberShape(), NumberPart(r));
  }

  lemma AlternatePartFits(version: nat, r: Record)
    requires RecordTyped(r)
    ensures AlternatesFit(version, AlternatePart(version, r))
  {
    Widths(r.altOffset);
    Widths(r.altCount);
    RowFitsFrom(AlternateShape(version), AlternatePart(version, r));
  }

  lemma RecordRowFits(version: nat, r: Record)
    requires RecordTyped(r) && RecordShort(r)
    ensures RowFits(RecordShape(version), RecordRow(version, r))
  {
    NamePartFits(version, r);
    NumberPartFits(r);
    AlternatePartFits(version, r);
    RowFitsJoin(NumberShape(), AlternateShape(version), NumberPart(r), AlternatePart(version, r));
    RowFitsJoin(NameShape(version), NumberShape() + AlternateShape(version), NamePart(version, r), NumberPart(r) + AlternatePart(version, r));
  }

  // Row and record are inverse, up to what an old version does not keep.
  lemma RecordOfRow(version: nat, r: Record)
    requires RecordTyped(r) && RecordShort(r)
    ensures RowFits(RecordShape(version), RecordRow(version, r))
    ensures RecordOf(version, RecordRow(version, r)) == Some(Aged(version, r))
  {
    RecordRowFits(version, r);
    NamePartFits(version, r);
    NumberPartFits(r);
    AlternatePartFits(version, r);
    ThreeParts(NamePart(version, r), NumberPart(r), AlternatePart(version, r));
    RecordFromParts(version, r);
  }

  lemma ThreeParts(x: Row, y: Row, z: Row)
    ensures var s := x + (y + z); s[..|x|] == x && s[|x|..|x| + |y|] == y && s[|x| + |y|..] == z
  {
  }

  lemma RecordFromParts(version: nat, r: Record)
    requires RecordTyped(r) && NamesFit(version, NamePart(version, r)) && NumbersFit(NumberPart(r)) && AlternatesFit(version, AlternatePart(version, r))
    ensures RecordFrom(version, NamePart(version, r), NumberPart(r), AlternatePart(version, r)) == Some(Aged(version, r))
  {
    SignedRoundTrip(r.seenUnix, 0);
    SignedRoundTrip(r.checkedUnix, 0);
  }

  lemma PartsOfRecord(version: nat, names: Row, numbers: Row, alts: Row)
    requires NamesFit(version, names) && NumbersFit(numbers) && AlternatesFit(version, alts)
    requires RecordFrom(version, names, numbers, alts).Some?
    ensures var r := RecordFrom(version, names, numbers, alts).value;
            && RecordTyped(r) && RecordShort(r) && Aged(version, r) == r
            && NamePart(version, r) == names && NumberPart(r) == numbers && AlternatePart(version, r) == alts
  {
    NamesAre(version, names);
    NumbersAre(numbers);
    AlternatesAre(version, alts);
    SignedRoundTrip(0, numbers[8].n);
    SignedRoundTrip(0, numbers[9].n);
  }

  lemma RowOfRecord(version: nat, row: Row)
    requires RowFits(RecordShape(version), row) && RecordOf(version, row).Some?
    ensures var r := RecordOf(version, row).value;
            RecordTyped(r) && RecordShort(r) && Aged(version, r) == r && RecordRow(version, r) == row
  {
    PartsFit(version, row);
    var b := NameCount(version);
    PartsOfRecord(version, row[..b], row[b..b + 10], row[b + 10..]);
    assert row == row[..b] + (row[b..b + 10] + row[b + 10..]);
  }

  // --------------------------------------------------------- rows of a table

  function TextRow(s: string): Row { [Str(s)] }

  function RefRow(n: nat): Row { [Num(n)] }

  function CredentialRow(c: Credential): Row { [Str(c.username), Str(c.password)] }

  function FailureRow(f: Failure): Row {
    RecordRow(VERSION, f.record) + [Num(KindCode(f.kind)), Str(f.lastError)]
  }

  predicate CredentialTyped(c: Credential) { ByteText(c.username) && ByteText(c.password) }

  predicate CredentialShort(c: Credential) { |c.username| <= MAX_TEXT && |c.password| <= MAX_TEXT }

  predicate FailureTyped(f: Failure) { RecordTyped(f.record) && ByteText(f.lastError) }

  predicate FailureShort(f: Failure) { RecordShort(f.record) && |f.lastError| <= MAX_LAST_ERROR }

  lemma TextRowFits(s: string)
    ensures RowFits(TextShape(), TextRow(s)) <==> ShortText(s)
  {
  }

  lemma TextOfRow(row: Row)
    requires RowFits(TextShape(), row)
    ensures |row| == 1 && row[0].Str? && ShortText(row[0].s) && TextRow(row[0].s) == row
  {
  }

  lemma RefRowFits(n: nat)
    ensures RowFits(RefShape(), RefRow(n)) <==> n < TWO_32
  {
    Widths(n);
  }

  lemma RefOfRow(row: Row)
    requires RowFits(RefShape(), row)
    ensures |row| == 1 && row[0].Num? && row[0].n < TWO_32 && RefRow(row[0].n) == row
  {
    Widths(row[0].n);
  }

  lemma CredentialRowFits(c: Credential)
    requires CredentialTyped(c)
    ensures RowFits(CredentialShape(), CredentialRow(c)) <==> CredentialShort(c)
  {
    var shape, row := CredentialShape(), CredentialRow(c);
    assert shape[1..] == [S(MAX_TEXT)] && row[1..] == [Str(c.password)];
    TextRowFits(c.password);
  }

  lemma CredentialOfRow(row: Row)
    requires RowFits(CredentialShape(), row)
    ensures |row| == 2 && row[0].Str? && row[1].Str?
    ensures var c := Credential(row[0].s, row[1].s); CredentialTyped(c) && CredentialShort(c) && CredentialRow(c) == row
  {
    RowFitsAt(CredentialShape(), row, 0);
    RowFitsAt(CredentialShape(), row, 1);
  }

  function VerdictShape(): Shape { [N(W8), S(MAX_LAST_ERROR)] }

  lemma VerdictRowFits(f: Failure)
    requires FailureTyped(f)
    ensures RowFits(VerdictShape(), [Num(KindCode(f.kind)), Str(f.lastError)]) <==> |f.lastError| <= MAX_LAST_ERROR
  {
    var shape, row := VerdictShape(), [Num(KindCode(f.kind)), Str(f.lastError)];
    Widths(KindCode(f.kind));
    if |f.lastError| <= MAX_LAST_ERROR {
      RowFitsFrom(shape, row);
    } else if RowFits(shape, row) {
      RowFitsAt(shape, row, 1);
    }
  }

  lemma FailureRowFits(f: Failure)
    requires FailureTyped(f) && FailureShort(f)
    ensures RowFits(FailureShape(), FailureRow(f))
  {
    RecordRowFits(VERSION, f.record);
    VerdictRowFits(f);
    RowFitsJoin(RecordShape(VERSION), VerdictShape(), RecordRow(VERSION, f.record), [Num(KindCode(f.kind)), Str(f.lastError)]);
  }

  function FailureOf(row: Row): Option<Failure>
    requires RowFits(FailureShape(), row)
  {
    FailureParts(row);
    var n := |RecordShape(VERSION)|;
    var r, k := RecordOf(VERSION, row[..n]), KindFrom(row[n].n);
    if r.None? || k.None? then None else Some(Failure(r.value, k.value, row[n + 1].s))
  }

  lemma FailureParts(row: Row)
    requires RowFits(FailureShape(), row)
    ensures var n := |RecordShape(VERSION)|;
            && |row| == n + 2 && RowFits(RecordShape(VERSION), row[..n])
            && row[n].Num? && row[n + 1].Str? && ByteText(row[n + 1].s) && |row[n + 1].s| <= MAX_LAST_ERROR
  {
    var n := |RecordShape(VERSION)|;
    assert row == row[..n] + row[n..];
    RowFitsJoin(RecordShape(VERSION), VerdictShape(), row[..n], row[n..]);
    RowFitsAt(VerdictShape(), row[n..], 0);
    RowFitsAt(VerdictShape(), row[n..], 1);
  }

  lemma FailureOfRow(f: Failure)
    requires FailureTyped(f) && FailureShort(f)
    ensures RowFits(FailureShape(), FailureRow(f)) && FailureOf(FailureRow(f)) == Some(f)
  {
    FailureRowFits(f);
    RecordOfRow(VERSION, f.record);
    var n, row := |RecordShape(VERSION)|, FailureRow(f);
    PartsLength(VERSION, RecordRow(VERSION, f.record));
    assert row[..n] == RecordRow(VERSION, f.record) && row[n..] == [Num(KindCode(f.kind)), Str(f.lastError)];
    assert row[n] == row[n..][0] && row[n + 1] == row[n..][1];
  }

  lemma PartsLength(version: nat, row: Row)
    requires RowFits(RecordShape(version), row)
    ensures |row| == |RecordShape(version)|
  {
  }

  lemma RowOfFailure(row: Row)
    requires RowFits(FailureShape(), row) && FailureOf(row).Some?
    ensures var f := FailureOf(row).value; FailureTyped(f) && FailureShort(f) && FailureRow(f) == row
  {
    FailureParts(row);
    var n := |RecordShape(VERSION)|;
    RowOfRecord(VERSION, row[..n]);
    assert row == row[..n] + [row[n], row[n + 1]];
  }

  // ----------------------------------------------------------------- header

  function HeaderRow(version: nat, m: Meta): Row {
    [Num(version), Num(0), Num(m.generation), Num(m.revision), Str(m.phase), Num(m.sourceErrors),
     Num(ToUnsigned(TimeCode(m.seenAt))), Num(ToUnsigned(TimeCode(m.refreshAttempt))), Num(ToUnsigned(TimeCode(m.completedAt)))]
  }

  predicate MetaTyped(m: Meta) {
    && m.generation < TWO_64 && m.revision < TWO_64 && ByteText(m.phase) && m.sourceErrors < TWO_32
    && Int64(TimeCode(m.seenAt)) && Int64(TimeCode(m.refreshAttempt)) && Int64(TimeCode(m.completedAt))
  }

  predicate MetaShort(m: Meta) { |m.phase| <= MAX_PHASE }

  function SettledTime(t: Option<int>): Option<int> { if t == Some(0) then None else t }

  // The one thing the file does not keep: a time at the epoch reads as none.
  function SettledMeta(m: Meta): Meta {
    m.(seenAt := SettledTime(m.seenAt), refreshAttempt := SettledTime(m.refreshAttempt), completedAt := SettledTime(m.completedAt))
  }

  function MetaOf(row: Row): Meta
    requires RowFits(HeaderShape(), row)
  {
    HeaderAre(row);
    Meta(row[2].n, row[3].n, row[4].s, row[5].n,
         TimeOf(ToSigned(row[6].n)), TimeOf(ToSigned(row[7].n)), TimeOf(ToSigned(row[8].n)))
  }

  lemma HeaderAre(row: Row)
    requires RowFits(HeaderShape(), row)
    ensures |row| == 9 && row[4].Str? && ByteText(row[4].s) && |row[4].s| <= MAX_PHASE
    ensures row[0].Num? && row[1].Num? && row[2].Num? && row[3].Num? && row[5].Num? && row[6].Num? && row[7].Num? && row[8].Num?
    ensures row[2].n < TWO_64 && row[3].n < TWO_64 && row[5].n < TWO_32 && row[6].n < TWO_64 && row[7].n < TWO_64 && row[8].n < TWO_64
  {
    forall i | 0 <= i < 9 ensures FieldFits(HeaderShape()[i], row[i]) { RowFitsAt(HeaderShape(), row, i); }
    HeaderNumbers(row);
    assert FieldFits(HeaderShape()[4], row[4]);
  }

  lemma HeaderNumbers(row: Row)
    requires |row| == 9 && forall i | 0 <= i < 9 :: FieldFits(HeaderShape()[i], row[i])
    ensures row[0].Num? && row[1].Num? && row[2].Num? && row[3].Num? && row[5].Num? && row[6].Num? && row[7].Num? && row[8].Num?
    ensures row[2].n < TWO_64 && row[3].n < TWO_64 && row[5].n < TWO_32 && row[6].n < TWO_64 && row[7].n < TWO_64 && row[8].n < TWO_64
  {
    assert FieldFits(HeaderShape()[0], row[0]) && FieldFits(HeaderShape()[1], row[1]) && FieldFits(HeaderShape()[2], row[2])
        && FieldFits(HeaderShape()[3], row[3]) && FieldFits(HeaderShape()[5], row[5]) && FieldFits(HeaderShape()[6], row[6])
        && FieldFits(HeaderShape()[7], row[7]) && FieldFits(HeaderShape()[8], row[8]);
    Widths(row[2].n);
    Widths(row[3].n);
    Widths(row[5].n);
    Widths(row[6].n);
    Widths(row[7].n);
    Widths(row[8].n);
  }

  lemma HeaderRowFits(version: nat, m: Meta)
    requires MetaTyped(m) && version < 65536
    ensures RowFits(HeaderShape(), HeaderRow(version, m)) <==> MetaShort(m)
  {
    var shape, row := HeaderShape(), HeaderRow(version, m);
    Widths(version);
    Widths(0);
    Widths(m.generation);
    Widths(m.revision);
    Widths(m.sourceErrors);
    Widths(row[6].n);
    Widths(row[7].n);
    Widths(row[8].n);
    if MetaShort(m) { RowFitsFrom(shape, row); } else if RowFits(shape, row) { RowFitsAt(shape, row, 4); }
  }

  lemma MetaOfRow(version: nat, m: Meta)
    requires MetaTyped(m) && MetaShort(m) && version < 65536
    ensures RowFits(HeaderShape(), HeaderRow(version, m)) && MetaOf(HeaderRow(version, m)) == SettledMeta(m)
  {
    HeaderRowFits(version, m);
    SignedRoundTrip(TimeCode(m.seenAt), 0);
    SignedRoundTrip(TimeCode(m.refreshAttempt), 0);
    SignedRoundTrip(TimeCode(m.completedAt), 0);
  }

  lemma RowOfMeta(row: Row)
    requires RowFits(HeaderShape(), row) && row[0].Num? && row[1] == Num(0)
    ensures var m := MetaOf(row);
            MetaTyped(m) && MetaShort(m) && SettledMeta(m) == m && HeaderRow(row[0].n, m) == row
  {
    HeaderAre(row);
    SignedRoundTrip(0, row[6].n);
    SignedRoundTrip(0, row[7].n);
    SignedRoundTrip(0, row[8].n);
  }
}

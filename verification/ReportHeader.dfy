/** The 109-byte report header (cre/report_fields.go). */
module ReportHeader {
  import opened Wrappers
  import opened Bytes

  const METADATA_HEADER_LENGTH := 109

  datatype HeaderError = NilReport | TooShort

  datatype Header = Header(
    version: nat,
    executionID: string,
    timestamp: nat,
    donID: nat,
    donConfigVersion: nat,
    workflowID: string,
    workflowName: seq<Byte>, // the raw ten bytes
    workflowOwner: string,
    reportID: string,
    body: seq<Byte>)

  /** parseRawReport: `None` is a nil slice. */
  function ParseRawReport(raw: Option<seq<Byte>>): Result<Header, HeaderError> {
    match raw
    case None => Err(NilReport)
    case Some(b) =>
      if |b| < METADATA_HEADER_LENGTH then Err(TooShort)
      else Ok(Header(
        b[0],
        EncodeHex(b[1..33]),
        FromBE(b[33..37]),
        FromBE(b[37..41]),
        FromBE(b[41..45]),
        EncodeHex(b[45..77]),
        b[77..87],
        EncodeHex(b[87..107]),
        EncodeHex(b[107..109]),
        b[METADATA_HEADER_LENGTH..]))
  }

  /** The nine header fields and the body, in order. */
  function Layout(version: seq<Byte>, executionID: seq<Byte>, timestamp: seq<Byte>, donID: seq<Byte>,
                  donConfigVersion: seq<Byte>, workflowID: seq<Byte>, workflowName: seq<Byte>, owner: seq<Byte>,
                  reportID: seq<Byte>, body: seq<Byte>): seq<Byte>
  {
    version + executionID + timestamp + donID + donConfigVersion + workflowID + workflowName + owner + reportID + body
  }

  /** The report written out from the parsed fields. */
  function PrintReport(h: Header): Option<seq<Byte>> {
    match (DecodeHex(h.executionID), DecodeHex(h.workflowID), DecodeHex(h.workflowOwner), DecodeHex(h.reportID))
    case (Some(executionID), Some(workflowID), Some(owner), Some(reportID)) =>
      Some(Layout(ToBE(h.version, 1), executionID, ToBE(h.timestamp, 4), ToBE(h.donID, 4), ToBE(h.donConfigVersion, 4),
                  workflowID, h.workflowName, owner, reportID, h.body))
    case _ => None
  }

  lemma FieldsRebuild(b: seq<Byte>)
    requires |b| >= METADATA_HEADER_LENGTH
    ensures Layout(b[0..1], b[1..33], b[33..37], b[37..41], b[41..45], b[45..77], b[77..87], b[87..107], b[107..109], b[109..]) == b
  {
    assert b[0..1] + b[1..33] == b[..33];
    assert b[..33] + b[33..37] == b[..37];
    assert b[..37] + b[37..41] == b[..41];
    assert b[..41] + b[41..45] == b[..45];
    assert b[..45] + b[45..77] == b[..77];
    assert b[..77] + b[77..87] == b[..87];
    assert b[..87] + b[87..107] == b[..107];
    assert b[..107] + b[107..109] == b[..109];
  }

  lemma NumbersRebuild(b: seq<Byte>)
    requires |b| >= METADATA_HEADER_LENGTH
    ensures ToBE(b[0], 1) == b[0..1] && ToBE(FromBE(b[33..37]), 4) == b[33..37]
    ensures ToBE(FromBE(b[37..41]), 4) == b[37..41] && ToBE(FromBE(b[41..45]), 4) == b[41..45]
  {
    ToFromBE(b[33..37]);
    ToFromBE(b[37..41]);
    ToFromBE(b[41..45]);
    assert ToBE(b[0], 1) == ToBE(b[0] / 256, 0) + [b[0]] == b[0..1];
  }

  /** No field is lost or altered: printing the parsed header gives back the raw report. */
  lemma PrintParse(b: seq<Byte>)
    requires |b| >= METADATA_HEADER_LENGTH
    ensures ParseRawReport(Some(b)).Ok? && PrintReport(ParseRawReport(Some(b)).value) == Some(b)
  {
    DecodeEncodeHex(b[1..33]);
    DecodeEncodeHex(b[45..77]);
    DecodeEncodeHex(b[87..107]);
    DecodeEncodeHex(b[107..109]);
    NumbersRebuild(b);
    FieldsRebuild(b);
  }

  /** Every field is what stands at its documented offset. */
  lemma FieldsAtOffsets(b: seq<Byte>)
    requires |b| >= METADATA_HEADER_LENGTH
    ensures var h := ParseRawReport(Some(b)).value;
            && h.version == b[0] && ToBE(h.timestamp, 4) == b[33..37] && ToBE(h.donID, 4) == b[37..41]
            && ToBE(h.donConfigVersion, 4) == b[41..45]
            && LowerHex(h.executionID, b[1..33]) && LowerHex(h.workflowID, b[45..77]) && h.workflowName == b[77..87]
            && LowerHex(h.workflowOwner, b[87..107]) && LowerHex(h.reportID, b[107..109]) && h.body == b[109..]
  {
    NumbersRebuild(b);
    EncodeHexIsLower(b[1..33]);
    EncodeHexIsLower(b[45..77]);
    EncodeHexIsLower(b[87..107]);
    EncodeHexIsLower(b[107..109]);
  }

  /** A nil report and one shorter than the header are errors, each of its own. */
  lemma ShortIsRefused(raw: Option<seq<Byte>>)
    ensures ParseRawReport(raw) == Err(NilReport) <==> raw.None?
    ensures ParseRawReport(raw) == Err(TooShort) <==> raw.Some? && |raw.value| < 109
  {
  }

  /** Hence the parser tells any two long enough reports apart. */
  lemma ParseInjective(b: seq<Byte>, c: seq<Byte>)
    requires |b| >= METADATA_HEADER_LENGTH && ParseRawReport(Some(b)) == ParseRawReport(Some(c))
    ensures b == c
  {
    PrintParse(b);
    PrintParse(c);
  }

  /** The workflow name is the ten bytes themselves, which no hexadecimal text of ten bytes can be. */
  lemma NameIsRaw(b: seq<Byte>)
    requires |b| >= METADATA_HEADER_LENGTH
    ensures var name := ParseRawReport(Some(b)).value.workflowName;
            && |name| == 10 && (forall i | 0 <= i < 10 :: name[i] == b[77 + i])
            && forall ten: seq<Byte> | |ten| == 10 :: |EncodeHex(ten)| != |name|
  {
  }
}

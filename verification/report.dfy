/** The two record formats `main` writes to its output files, and a reader
    for each that recovers a single record. An output file is the
    concatenation of its records and cannot always be split back into
    them: the data of a result may itself contain a blank line followed by
    something that looks like a record (`FileSplitAmbiguous`). */
module Report {
  import opened Wrappers
  import opened Domain

  const DomainLabel := "Domain: "
  const StatusLabel := "Status: "
  const DataLabel := "Data:\n"
  const LinkLabel := "VirusTotal Link: https://www.virustotal.com/gui/domain/"
  const DeterminationLabel := "Determination: "

  /** The record written to the output a result is routed to:
      "Domain: d\nStatus: s\nData:\na\n\n". Every record opens with the
      domain label and closes with a blank line. */
  function FullRecord(r: DomainStatus): (s: string)
    ensures |DomainLabel| + 2 <= |s|
    ensures s[..|DomainLabel|] == DomainLabel
    ensures s[|s| - 2..] == "\n\n"
  {
    DomainLabel + r.domain + "\n" + StatusLabel + r.status + "\n" + DataLabel + r.analysisData + "\n\n"
  }

  /** The record written to the condensed output for a suspicious result:
      "Domain: d\nVirusTotal Link: https://www.virustotal.com/gui/domain/d\nDetermination: s\n\n".
      It too opens with the domain label and closes with a blank line. */
  function CondensedRecord(r: DomainStatus): (s: string)
    ensures |DomainLabel| + 2 <= |s|
    ensures s[..|DomainLabel|] == DomainLabel
    ensures s[|s| - 2..] == "\n\n"
  {
    DomainLabel + r.domain + "\n" + LinkLabel + r.domain + "\n" + DeterminationLabel + r.status + "\n\n"
  }

  /** Splits `s` at its first line break into the text before it and the
      text after it. */
  function SplitLine(s: string): (r: Option<(string, string)>)
    ensures r.None? <==> '\n' !in s
    ensures r.Some? ==> '\n' !in r.value.0 && s == r.value.0 + "\n" + r.value.1
  {
    if |s| == 0 then None
    else if s[0] == '\n' then Some(([], s[1..]))
    else
      match SplitLine(s[1..])
      case None => None
      case Some((line, rest)) => Some(([s[0]] + line, rest))
  }

  /** A line without a break is split off exactly. */
  lemma {:induction false} SplitLineOf(line: string, rest: string)
    requires '\n' !in line
    ensures SplitLine(line + "\n" + rest) == Some((line, rest))
  {
    var s := line + "\n" + rest;
    if |line| == 0 {
      assert s == "\n" + rest;
      assert s[1..] == rest;
    } else {
      assert s[0] == line[0];
      assert s[1..] == line[1..] + "\n" + rest;
      SplitLineOf(line[1..], rest);
      assert [line[0]] + line[1..] == line;
    }
  }

  /** What follows the prefix `p` of `s`, if `s` starts with `p`. */
  function DropPrefix(s: string, p: string): (r: Option<string>)
    ensures r.Some? <==> |p| <= |s| && s[..|p|] == p
    ensures r.Some? ==> s == p + r.value
  {
    if |p| <= |s| && s[..|p|] == p then Some(s[|p|..]) else None
  }

  lemma DropPrefixOf(p: string, rest: string)
    ensures DropPrefix(p + rest, p) == Some(rest)
  {
    assert (p + rest)[..|p|] == p;
    assert (p + rest)[|p|..] == rest;
  }

  /** Reads one line "tag value\n", returning the value and what follows. */
  function ReadField(s: string, tag: string): Option<(string, string)> {
    match DropPrefix(s, tag)
    case None => None
    case Some(after) => SplitLine(after)
  }

  lemma ReadFieldOf(tag: string, value: string, rest: string)
    requires '\n' !in value
    ensures ReadField(tag + value + "\n" + rest, tag) == Some((value, rest))
  {
    assert tag + value + "\n" + rest == tag + (value + "\n" + rest);
    DropPrefixOf(tag, value + "\n" + rest);
    SplitLineOf(value, rest);
  }

  /** The text before a closing blank line, if `s` ends with one. */
  function DropBlankLine(s: string): (r: Option<string>)
    ensures r.Some? ==> s == r.value + "\n\n"
  {
    if |s| >= 2 && s[|s| - 2..] == "\n\n" then
      assert s == s[..|s| - 2] + s[|s| - 2..];
      Some(s[..|s| - 2])
    else None
  }

  lemma DropBlankLineOf(s: string)
    ensures DropBlankLine(s + "\n\n") == Some(s)
  {
    var t := s + "\n\n";
    assert t[|t| - 2..] == "\n\n";
    assert t[..|t| - 2] == s;
  }

  /** Reads a full record back into the result it was written for. */
  function ParseFullRecord(s: string): Option<DomainStatus> {
    match ReadField(s, DomainLabel)
    case None => None
    case Some((domain, afterDomain)) => ParseStatusAndData(domain, afterDomain)
  }

  function ParseStatusAndData(domain: string, s: string): Option<DomainStatus> {
    match ReadField(s, StatusLabel)
    case None => None
    case Some((status, afterStatus)) => ParseData(domain, status, afterStatus)
  }

  function ParseData(domain: string, status: string, s: string): Option<DomainStatus> {
    match DropPrefix(s, DataLabel)
    case None => None
    case Some(data) =>
      match DropBlankLine(data)
      case None => None
      case Some(analysisData) => Some(DomainStatus(domain, status, analysisData))
  }

  /** The reader recovers the domain, the status and the data of every
      full record whose domain and status have no line break. */
  lemma FullRecordRoundTrip(r: DomainStatus)
    requires '\n' !in r.domain && '\n' !in r.status
    ensures ParseFullRecord(FullRecord(r)) == Some(r)
  {
    var data := r.analysisData + "\n\n";
    var tail2 := DataLabel + data;
    var tail := StatusLabel + r.status + "\n" + tail2;
    assert FullRecord(r) == DomainLabel + r.domain + "\n" + tail;
    ReadFieldOf(DomainLabel, r.domain, tail);
    ReadFieldOf(StatusLabel, r.status, tail2);
    DropPrefixOf(DataLabel, data);
    DropBlankLineOf(r.analysisData);
  }

  /** What an accepted field line consists of. */
  lemma ReadFieldParts(s: string, tag: string)
    requires ReadField(s, tag).Some?
    ensures '\n' !in ReadField(s, tag).value.0
    ensures s == tag + ReadField(s, tag).value.0 + "\n" + ReadField(s, tag).value.1
  {
    var after := DropPrefix(s, tag).value;
    assert s == tag + after;
  }

  lemma ParseDataParts(domain: string, status: string, s: string)
    requires ParseData(domain, status, s).Some?
    ensures s == DataLabel + ParseData(domain, status, s).value.analysisData + "\n\n"
  {
    var data := DropPrefix(s, DataLabel).value;
    assert s == DataLabel + data;
  }

  lemma ParseStatusAndDataParts(domain: string, s: string, r: DomainStatus)
    ensures ParseStatusAndData(domain, s) == Some(r) ==>
      r.domain == domain && s == StatusLabel + r.status + "\n" + DataLabel + r.analysisData + "\n\n"
  {
    if ParseStatusAndData(domain, s) == Some(r) {
      ReadFieldParts(s, StatusLabel);
      var (status, afterStatus) := ReadField(s, StatusLabel).value;
      ParseDataParts(domain, status, afterStatus);
    }
  }

  lemma FullRecordSplit(r: DomainStatus)
    ensures FullRecord(r)
      == DomainLabel + r.domain + "\n" + (StatusLabel + r.status + "\n" + DataLabel + r.analysisData + "\n\n")
  {
  }

  /** Whatever the reader accepts is the full record of what it returns. */
  lemma FullRecordParsed(s: string, r: DomainStatus)
    ensures ParseFullRecord(s) == Some(r) ==> FullRecord(r) == s
  {
    if ParseFullRecord(s) == Some(r) {
      var field := ReadField(s, DomainLabel).value;
      ReadFieldParts(s, DomainLabel);
      ParseStatusAndDataParts(field.0, field.1, r);
      FullRecordSplit(r);
    }
  }

  /** Reads a condensed record back into its domain and determination; the
      domain in the link must be the one on the first line. */
  function ParseCondensedRecord(s: string): Option<(string, string)> {
    match ReadField(s, DomainLabel)
    case None => None
    case Some((domain, afterDomain)) => ParseLink(domain, afterDomain)
  }

  function ParseLink(domain: string, s: string): Option<(string, string)> {
    match ReadField(s, LinkLabel)
    case None => None
    case Some((linked, afterLink)) =>
      if linked != domain then None else ParseDetermination(domain, afterLink)
  }

  function ParseDetermination(domain: string, s: string): Option<(string, string)> {
    match ReadField(s, DeterminationLabel)
    case None => None
    case Some((status, afterStatus)) =>
      if afterStatus == "\n" then Some((domain, status)) else None
  }

  /** The reader recovers the domain and the determination of every
      condensed record whose domain and status have no line break. */
  lemma CondensedRecordRoundTrip(r: DomainStatus)
    requires '\n' !in r.domain && '\n' !in r.status
    ensures ParseCondensedRecord(CondensedRecord(r)) == Some((r.domain, r.status))
  {
    var tail2 := DeterminationLabel + r.status + "\n" + "\n";
    var tail := LinkLabel + r.domain + "\n" + tail2;
    assert CondensedRecord(r) == DomainLabel + r.domain + "\n" + tail;
    ReadFieldOf(DomainLabel, r.domain, tail);
    ReadFieldOf(LinkLabel, r.domain, tail2);
    ReadFieldOf(DeterminationLabel, r.status, "\n");
  }

  lemma ParseDeterminationParts(domain: string, s: string)
    requires ParseDetermination(domain, s).Some?
    ensures ParseDetermination(domain, s).value.0 == domain
    ensures s == DeterminationLabel + ParseDetermination(domain, s).value.1 + "\n" + "\n"
  {
    ReadFieldParts(s, DeterminationLabel);
  }

  lemma ParseLinkParts(domain: string, s: string)
    requires ParseLink(domain, s).Some?
    ensures ParseLink(domain, s).value.0 == domain
    ensures s == LinkLabel + domain + "\n" + (DeterminationLabel + ParseLink(domain, s).value.1 + "\n" + "\n")
  {
    var field := ReadField(s, LinkLabel).value;
    ReadFieldParts(s, LinkLabel);
    ParseDeterminationParts(domain, field.1);
  }

  lemma CondensedRecordSplit(r: DomainStatus)
    ensures CondensedRecord(r)
      == DomainLabel + r.domain + "\n" + (LinkLabel + r.domain + "\n" + (DeterminationLabel + r.status + "\n" + "\n"))
  {
  }

  /** Whatever the reader accepts is the condensed record of the domain and
      determination it returns. */
  lemma CondensedRecordParsed(s: string, domain: string, status: string)
    ensures ParseCondensedRecord(s) == Some((domain, status)) ==>
      CondensedRecord(DomainStatus(domain, status, "")) == s
  {
    if ParseCondensedRecord(s) == Some((domain, status)) {
      var field := ReadField(s, DomainLabel).value;
      ReadFieldParts(s, DomainLabel);
      ParseLinkParts(field.0, field.1);
      CondensedRecordSplit(DomainStatus(domain, status, ""));
    }
  }

  lemma AppendAssoc(a: string, b: string, c: string)
    ensures (a + b) + c == a + (b + c)
  {
  }

  /** A result whose data ends in a blank line followed by a second
      result's record, less its closing blank line, writes exactly the text
      the two results write one after the other; so the records of a file
      are not recoverable from its text alone. */
  lemma FileSplitAmbiguous(first: DomainStatus, second: DomainStatus)
    ensures var tail := FullRecord(second)[..|FullRecord(second)| - 2];
      FullRecord(first.(analysisData := first.analysisData + "\n\n" + tail))
        == FullRecord(first) + FullRecord(second)
  {
    var r2 := FullRecord(second);
    var tail := r2[..|r2| - 2];
    assert r2 == tail + "\n\n";
    var head := DomainLabel + first.domain + "\n" + StatusLabel + first.status + "\n" + DataLabel;
    var a, n := first.analysisData, "\n\n";
    assert FullRecord(first) == (head + a) + n;
    assert FullRecord(first.(analysisData := a + n + tail)) == head + ((a + n) + tail) + n;
    AppendAssoc(head, a + n, tail);
    AppendAssoc(head, a, n);
    AppendAssoc((head + a) + n, tail, n);
  }
}

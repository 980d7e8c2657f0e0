/**
 * Choosing and reading the data file. The exploratory script scans the
 * directory listing for the first plausible data file; both scripts pick
 * the parser from the file name (".csv" is delimited text, anything else a
 * spreadsheet) and, for delimited text, try a comma-separated UTF-8 read
 * before a semicolon-separated Latin-1 one.
 *
 * The parsers themselves are foreign code: they are parameters here, a
 * function from the file's bytes to a table or to failure (`None`, an
 * exception in the scripts).
 */
module FileChoice {
  import opened Wrappers
  import opened Strings
  import opened Table

  /** A name the directory scan accepts. */
  predicate Qualifies(name: string) {
    (Contains(name, "Base") || Contains(name, "dados")) && (EndsWith(name, ".csv") || EndsWith(name, ".xlsx"))
  }

  /** `listing[i]` qualifies and nothing before it does. */
  predicate FirstQualifying(listing: seq<string>, i: int) {
    0 <= i < |listing| && Qualifies(listing[i]) && forall j :: 0 <= j < i ==> !Qualifies(listing[j])
  }

  /** The directory scan: the first qualifying name in listing order, if any. */
  method SelectFile(listing: seq<string>) returns (target: Option<string>)
    ensures target.None? <==> forall i :: 0 <= i < |listing| ==> !Qualifies(listing[i])
    ensures target.Some? ==> exists i :: FirstQualifying(listing, i) && listing[i] == target.value
  {
    target := None;
    for i := 0 to |listing|
      invariant target.None?
      invariant forall j :: 0 <= j < i ==> !Qualifies(listing[j])
    {
      if Qualifies(listing[i]) {
        target := Some(listing[i]);
        assert FirstQualifying(listing, i);
        break;
      }
    }
  }

  /** At most one position is the first qualifying one. */
  lemma FirstQualifyingUnique(listing: seq<string>, i: int, target: Option<string>)
    requires FirstQualifying(listing, i)
    requires target.Some? && exists j :: FirstQualifying(listing, j) && listing[j] == target.value
    ensures listing[i] == target.value
  {
    var j :| FirstQualifying(listing, j) && listing[j] == target.value;
    assert !(i < j) && !(j < i);
  }

  datatype Format = DelimitedText | Spreadsheet

  /** The reader is chosen by the name's ending alone, case-sensitively. */
  function FormatOf(name: string): (f: Format)
    ensures f == DelimitedText <==> EndsWith(name, ".csv")
  {
    if EndsWith(name, ".csv") then DelimitedText else Spreadsheet
  }

  /** The two ways the scripts read delimited text, in the order they try them. */
  datatype Dialect = CommaUtf8 | SemicolonLatin1

  type Bytes = seq<bv8>

  /**
   * Reading a file whose whole content each attempt sees (a path is
   * reopened for every read): the comma attempt's table if it succeeds,
   * otherwise whatever the semicolon attempt gives.
   */
  function Ingest(name: string, content: Bytes, readCsv: (Dialect, Bytes) -> Option<RawTable>,
                  readExcel: Bytes -> Option<RawTable>): (r: Option<RawTable>)
    ensures FormatOf(name) == Spreadsheet ==> r == readExcel(content)
    ensures FormatOf(name) == DelimitedText ==>
              (r.Some? <==> readCsv(CommaUtf8, content).Some? || readCsv(SemicolonLatin1, content).Some?)
    ensures FormatOf(name) == DelimitedText && readCsv(CommaUtf8, content).Some? ==> r == readCsv(CommaUtf8, content)
    ensures FormatOf(name) == DelimitedText && readCsv(CommaUtf8, content).None? ==> r == readCsv(SemicolonLatin1, content)
  {
    match FormatOf(name)
    case Spreadsheet => readExcel(content)
    case DelimitedText =>
      match readCsv(CommaUtf8, content)
      case Some(t) => Some(t)
      case None => readCsv(SemicolonLatin1, content)
  }

  /**
   * The dashboard's read of an uploaded file as written: both attempts read
   * the same upload object, and the failed comma attempt has already
   * consumed its first `consumed` bytes, so the semicolon attempt sees only
   * the rest. With nothing consumed it is `Ingest`.
   */
  function IngestUploadAsWritten(name: string, content: Bytes, consumed: nat,
                                 readCsv: (Dialect, Bytes) -> Option<RawTable>,
                                 readExcel: Bytes -> Option<RawTable>): (r: Option<RawTable>)
    requires consumed <= |content|
    ensures consumed == 0 ==> r == Ingest(name, content, readCsv, readExcel)
    ensures FormatOf(name) == DelimitedText && readCsv(CommaUtf8, content).None? ==>
              r == readCsv(SemicolonLatin1, content[consumed..])
  {
    match FormatOf(name)
    case Spreadsheet => readExcel(content)
    case DelimitedText =>
      match readCsv(CommaUtf8, content)
      case Some(t) => Some(t)
      case None => readCsv(SemicolonLatin1, content[consumed..])
  }

  /**
   * A Latin-1, semicolon-separated upload that the comma attempt reads to
   * the end before failing is lost: the fallback parses an empty stream,
   * which fails, although parsing the whole content would succeed.
   */
  lemma UploadFallbackLosesLatin1File(content: Bytes, readCsv: (Dialect, Bytes) -> Option<RawTable>,
                                      readExcel: Bytes -> Option<RawTable>)
    requires readCsv(CommaUtf8, content).None?
    requires readCsv(SemicolonLatin1, []).None?
    requires readCsv(SemicolonLatin1, content).Some?
    ensures IngestUploadAsWritten("dados.csv", content, |content|, readCsv, readExcel).None?
    ensures Ingest("dados.csv", content, readCsv, readExcel).Some?
  {
    assert EndsWith("dados.csv", ".csv");
    assert content[|content|..] == [];
  }
}

/**
 * The row handler's admissibility test and its mapping of a raw row to the
 * eighteen parameters of the insert.
 */
module Mapper {
  import opened Wrappers
  import opened Fields
  import opened Sic

  /**
   * What `parseInt` returns: an integer, or `NaN` for text with no leading
   * digits. JavaScript also gives `Infinity` for a digit string of several
   * hundred digits and rounds values past 2^53; `Int` stands for whatever
   * number is sent, and the store sees such a write only through the
   * per-row failure flag.
   */
  datatype ParsedInt = Int(n: int) | NotANumber

  /**
   * The two conversions the mapping leaves to the JavaScript runtime.
   * `date` is `parseDate` on non-empty text: the `YYYY-MM-DD` prefix of the
   * ISO form of `new Date(text)`, or `None` when that date is invalid.
   * `integer` is `parseInt` on non-empty text.
   */
  datatype Parsers = Parsers(date: string -> Option<string>, integer: string -> ParsedInt)

  /** The eighteen insert parameters `$1` .. `$18`, in column order; `None` is `NULL`. */
  datatype Params = Params(
    companyNumber: Option<string>,
    name: Option<string>,
    addressLine1: Option<string>,
    addressLine2: Option<string>,
    postTown: Option<string>,
    county: Option<string>,
    country: Option<string>,
    postcode: Option<string>,
    category: Option<string>,
    status: Option<string>,
    incorporationDate: Option<string>,
    dissolutionDate: Option<string>,
    sicCodes: Option<seq<string>>,
    accountsRefDay: Option<ParsedInt>,
    accountsRefMonth: Option<ParsedInt>,
    accountsNextDueDate: Option<string>,
    accountsLastMadeUpDate: Option<string>,
    accountsCategory: Option<string>)

  /**
   * `!row['CompanyNumber']` rejects the row: it is admissible exactly when
   * the company number is present and not empty.
   */
  function IsAdmissible(row: Row): (ok: bool)
    ensures ok <==> CompanyNumber in row && row[CompanyNumber] != ""
  {
    Truthy(Lookup(row, CompanyNumber))
  }

  /** The natural key of an admissible row. */
  function Key(row: Row): string
    requires IsAdmissible(row)
  {
    row[CompanyNumber]
  }

  /**
   * `parseDate(v)`. For `undefined` and `""`, `new Date(v)` is an invalid
   * date in ECMAScript, so the result is `null` without consulting the parser.
   */
  function ParseDate(v: Option<string>, date: string -> Option<string>): (r: Option<string>)
    ensures !Truthy(v) ==> r.None?
    ensures Truthy(v) ==> r == date(v.value)
  {
    if Truthy(v) then date(v.value) else None
  }

  /** A date column: `NULL` for a blank cell, otherwise the parser's verdict on the text. */
  function DateColumn(row: Row, header: string, date: string -> Option<string>): (c: Option<string>)
    ensures Blank(row, header) ==> c.None?
    ensures !Blank(row, header) ==> c == date(row[header])
  {
    ParseDate(Lookup(row, header), date)
  }

  /**
   * An account reference column, `row[header] ? parseInt(row[header]) : null`:
   * `NULL` exactly for a blank cell, otherwise whatever `parseInt` makes of the text.
   */
  function RefColumn(row: Row, header: string, integer: string -> ParsedInt): (c: Option<ParsedInt>)
    ensures c.None? <==> Blank(row, header)
    ensures !Blank(row, header) ==> c == Some(integer(row[header]))
  {
    var v := Lookup(row, header);
    if Truthy(v) then Some(integer(v.value)) else None
  }

  /**
   * The parameter array of the insert. Every text column is `NULL` exactly
   * when its cell is blank and otherwise the cell text unchanged; dates and
   * account reference fields are `NULL` for blank cells; the SIC column is
   * `NULL` exactly when all four SIC cells are blank.
   */
  function MapRow(row: Row, parsers: Parsers): (p: Params)
    ensures IsTextOf(p.companyNumber, row, CompanyNumber)
    ensures IsTextOf(p.name, row, CompanyName)
    ensures IsTextOf(p.addressLine1, row, AddressLine1)
    ensures IsTextOf(p.addressLine2, row, AddressLine2)
    ensures IsTextOf(p.postTown, row, PostTown)
    ensures IsTextOf(p.county, row, County)
    ensures IsTextOf(p.country, row, Country)
    ensures IsTextOf(p.postcode, row, PostCode)
    ensures IsTextOf(p.category, row, CompanyCategory)
    ensures IsTextOf(p.status, row, CompanyStatus)
    ensures IsTextOf(p.accountsCategory, row, AccountCategory)
    ensures Blank(row, IncorporationDate) ==> p.incorporationDate.None?
    ensures !Blank(row, IncorporationDate) ==> p.incorporationDate == parsers.date(row[IncorporationDate])
    ensures Blank(row, DissolutionDate) ==> p.dissolutionDate.None?
    ensures !Blank(row, DissolutionDate) ==> p.dissolutionDate == parsers.date(row[DissolutionDate])
    ensures Blank(row, NextDueDate) ==> p.accountsNextDueDate.None?
    ensures !Blank(row, NextDueDate) ==> p.accountsNextDueDate == parsers.date(row[NextDueDate])
    ensures Blank(row, LastMadeUpDate) ==> p.accountsLastMadeUpDate.None?
    ensures !Blank(row, LastMadeUpDate) ==> p.accountsLastMadeUpDate == parsers.date(row[LastMadeUpDate])
    ensures p.accountsRefDay.None? <==> Blank(row, AccountRefDay)
    ensures !Blank(row, AccountRefDay) ==> p.accountsRefDay == Some(parsers.integer(row[AccountRefDay]))
    ensures p.accountsRefMonth.None? <==> Blank(row, AccountRefMonth)
    ensures !Blank(row, AccountRefMonth) ==> p.accountsRefMonth == Some(parsers.integer(row[AccountRefMonth]))
    ensures p.sicCodes.None? <==> forall n :: 0 <= n < 4 ==> Blank(row, SicHeaders[n])
    ensures p.sicCodes.Some? ==> p.sicCodes.value == SicCodes(row) && |p.sicCodes.value| > 0
    ensures IsAdmissible(row) ==> p.companyNumber == Some(Key(row))
  {
    Params(
      TextColumn(row, CompanyNumber),
      TextColumn(row, CompanyName),
      TextColumn(row, AddressLine1),
      TextColumn(row, AddressLine2),
      TextColumn(row, PostTown),
      TextColumn(row, County),
      TextColumn(row, Country),
      TextColumn(row, PostCode),
      TextColumn(row, CompanyCategory),
      TextColumn(row, CompanyStatus),
      DateColumn(row, IncorporationDate, parsers.date),
      DateColumn(row, DissolutionDate, parsers.date),
      SicColumn(row),
      RefColumn(row, AccountRefDay, parsers.integer),
      RefColumn(row, AccountRefMonth, parsers.integer),
      DateColumn(row, NextDueDate, parsers.date),
      DateColumn(row, LastMadeUpDate, parsers.date),
      TextColumn(row, AccountCategory))
  }
}

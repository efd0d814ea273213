/**
 * A parsed CSV row and the JavaScript reading of its cells.
 *
 * The parser delivers each data row as an object from header name to cell
 * text, already trimmed. A header that the row does not carry reads as
 * `undefined`. Every column of the insert is computed from such reads
 * with JavaScript truthiness: `undefined` and the empty string are falsy,
 * every other string is truthy.
 */
module Fields {
  import opened Wrappers

  /** A raw row: header name to trimmed cell text. */
  type Row = map<string, string>

  // Header names read by the row handler.
  const CompanyNumber := "CompanyNumber"
  const CompanyName := "CompanyName"
  const AddressLine1 := "RegAddress.AddressLine1"
  const AddressLine2 := "RegAddress.AddressLine2"
  const PostTown := "RegAddress.PostTown"
  const County := "RegAddress.County"
  const Country := "RegAddress.Country"
  const PostCode := "RegAddress.PostCode"
  const CompanyCategory := "CompanyCategory"
  const CompanyStatus := "CompanyStatus"
  const IncorporationDate := "IncorporationDate"
  const DissolutionDate := "DissolutionDate"
  const SicText1 := "SICCode.SicText_1"
  const SicText2 := "SICCode.SicText_2"
  const SicText3 := "SICCode.SicText_3"
  const SicText4 := "SICCode.SicText_4"
  const AccountRefDay := "Accounts.AccountRefDay"
  const AccountRefMonth := "Accounts.AccountRefMonth"
  const NextDueDate := "Accounts.NextDueDate"
  const LastMadeUpDate := "Accounts.LastMadeUpDate"
  const AccountCategory := "Accounts.AccountCategory"

  /** `row[header]`: `None` stands for `undefined`. */
  function Lookup(row: Row, header: string): Option<string>
  {
    if header in row then Some(row[header]) else None
  }

  /** JavaScript truthiness of a cell read: `undefined` and `""` are falsy. */
  predicate Truthy(v: Option<string>)
  {
    v.Some? && v.value != ""
  }

  /** `v || null`: a truthy value passes through, a falsy one becomes `null`. */
  function OrNull(v: Option<string>): Option<string>
  {
    if Truthy(v) then v else None
  }

  /** The row does not carry `header`, or carries it with empty text. */
  predicate Blank(row: Row, header: string)
  {
    header !in row || row[header] == ""
  }

  /** A text column is `NULL` exactly for a blank cell and otherwise the cell text unchanged. */
  ghost predicate IsTextOf(c: Option<string>, row: Row, header: string)
  {
    && (c.None? <==> Blank(row, header))
    && (c.Some? ==> header in row && c.value == row[header])
  }

  /** The text column `row[header] || null`. */
  function TextColumn(row: Row, header: string): (c: Option<string>)
    ensures IsTextOf(c, row, header)
  {
    OrNull(Lookup(row, header))
  }
}

/**
 The spreadsheet row reader (`SASFormAutomator.read_excel`): the first row
 of the active worksheet names the columns, every later row becomes one
 student record unless it is blank or has no certificate link.
 */
module RowReader {
  import opened Optional
  import opened PyValues
  import opened Selection

  /** The active worksheet: the header row and the data rows below it, each
      as the tuple of cell values the spreadsheet library yields. */
  datatype Sheet = Sheet(header: seq<Cell>, rows: seq<seq<Cell>>)

  /** One normalised student record, the dictionary `read_excel` appends. */
  datatype Student = Student(
    firstName: string,
    lastName: string,
    email: string,
    certificationName: string,
    certificationLink: string,
    badgeOptIn: string)

  /** Where each known column sits, if the header row names it. */
  datatype Columns = Columns(
    firstName: Option<nat>,
    lastName: Option<nat>,
    email: Option<nat>,
    certName: Option<nat>,
    certLink: Option<nat>,
    badge: Option<nat>)

  const FirstNameLabel: string := "First Name"
  const LastNameLabel: string := "Last Name"
  const EmailLabel: string := "Email"
  const CertNameLabel: string := "Certificate Name"
  const CertLinkLabel: string := "Certificate Link"
  const BadgeLabel: string := "Badge Opt-In"

  /** The literal values used when a cell cannot be read. */
  const DefaultFirstName: string := "Unknown"
  const DefaultLastName: string := "User"
  const DefaultEmail: string := "noemail@example.com"

  lemma DefaultsStripped()
    ensures IsStripped(DefaultFirstName) && IsStripped(DefaultLastName)
    ensures IsStripped(DefaultEmail) && IsStripped("")
  {
  }

  /** The index of the last header cell equal to the string `title`, if any. */
  function LastIndex(headers: seq<Cell>, title: string): (r: Option<nat>)
    ensures r.Some? ==> r.value < |headers| && headers[r.value] == Text(title)
    ensures r.Some? ==> forall j :: r.value < j < |headers| ==> headers[j] != Text(title)
    ensures r.None? <==> forall j :: 0 <= j < |headers| ==> headers[j] != Text(title)
  {
    if headers == [] then None
    else if headers[|headers| - 1] == Text(title) then Some(|headers| - 1)
    else LastIndex(headers[..|headers| - 1], title)
  }

  /** The column positions the header loop ends with. */
  function ColumnsOf(headers: seq<Cell>): Columns
  {
    Columns(
      LastIndex(headers, FirstNameLabel),
      LastIndex(headers, LastNameLabel),
      LastIndex(headers, EmailLabel),
      LastIndex(headers, CertNameLabel),
      LastIndex(headers, CertLinkLabel),
      LastIndex(headers, BadgeLabel))
  }

  /** The header loop: walks the header cells left to right and records the
      position of every cell equal to one of the six labels, a later equal
      cell overwriting an earlier one. */
  method FindColumns(headers: seq<Cell>) returns (cols: Columns)
    ensures cols == ColumnsOf(headers)
  {
    cols := Columns(None, None, None, None, None, None);
    var i := 0;
    while i < |headers|
      invariant 0 <= i <= |headers|
      invariant cols == ColumnsOf(headers[..i])
    {
      assert headers[..i + 1][..i] == headers[..i];
      var header := headers[i];
      if header == Text(FirstNameLabel) {
        cols := cols.(firstName := Some(i));
      } else if header == Text(LastNameLabel) {
        cols := cols.(lastName := Some(i));
      } else if header == Text(EmailLabel) {
        cols := cols.(email := Some(i));
      } else if header == Text(CertNameLabel) {
        cols := cols.(certName := Some(i));
      } else if header == Text(CertLinkLabel) {
        cols := cols.(certLink := Some(i));
      } else if header == Text(BadgeLabel) {
        cols := cols.(badge := Some(i));
      }
      i := i + 1;
    }
    assert headers[..i] == headers;
  }

  /** The guard in front of every text field: the column exists, the row is
      long enough to hold it, and the cell there is truthy. */
  predicate Readable(row: seq<Cell>, col: Option<nat>)
  {
    col.Some? && col.value < |row| && Truthy(row[col.value])
  }

  /** One text field: `str(cell).strip()` behind the guard, else the default. */
  function Field(row: seq<Cell>, col: Option<nat>, default: string): (r: string)
    ensures IsStripped(default) ==> IsStripped(r)
    ensures !Readable(row, col) ==> r == default
  {
    if Readable(row, col) then Strip(Str(row[col.value])) else default
  }

  /** The raw badge cell, None when the column is missing or the row too short
      (truthiness plays no part here). */
  function RawBadge(row: seq<Cell>, col: Option<nat>): Cell
  {
    if col.Some? && col.value < |row| then row[col.value] else Null
  }

  /** The raw values that count as a blank badge cell. */
  predicate IsBlankBadge(raw: Cell)
  {
    raw in [Null, Text(""), Text(" "), Text("None"), Text("none")]
  }

  const YesTokens: seq<string> := ["yes", "y", "1", "true", "ok"]

  /** The Badge Opt-In rule: a blank cell means yes; otherwise yes exactly when
      the stripped, lower-cased text is one of the yes tokens. */
  function Badge(raw: Cell): (r: string)
    ensures r == "yes" || r == "no"
    ensures IsBlankBadge(raw) ==> r == "yes"
  {
    if IsBlankBadge(raw) then "yes"
    else if Lower(Strip(Str(raw))) in YesTokens then "yes"
    else "no"
  }

  predicate AllNull(row: seq<Cell>)
  {
    forall i :: 0 <= i < |row| ==> row[i] == Null
  }

  /** What every record the reader emits looks like: no field has whitespace
      at its ends, the link is non-empty and the badge is "yes" or "no". */
  predicate WellFormed(st: Student)
  {
    IsStripped(st.firstName) && IsStripped(st.lastName) && IsStripped(st.email) &&
    IsStripped(st.certificationName) && IsStripped(st.certificationLink) &&
    st.certificationLink != "" &&
    (st.badgeOptIn == "yes" || st.badgeOptIn == "no")
  }

  /** One data row: skipped when every cell is None or when the link field
      comes out empty, otherwise normalised into a record. */
  function NormalizeRow(row: seq<Cell>, cols: Columns): (r: Option<Student>)
    ensures r.Some? ==> WellFormed(r.value)
  {
    DefaultsStripped();
    if AllNull(row) then None
    else
      var link := Field(row, cols.certLink, "");
      if link == "" then None
      else Some(Student(
        Field(row, cols.firstName, DefaultFirstName),
        Field(row, cols.lastName, DefaultLastName),
        Field(row, cols.email, DefaultEmail),
        Field(row, cols.certName, ""),
        link,
        Badge(RawBadge(row, cols.badge))))
  }

  /** The records of the data rows, in row order. */
  function Normalize(rows: seq<seq<Cell>>, cols: Columns): (r: seq<Student>)
    ensures |r| <= |rows|
    ensures forall k :: 0 <= k < |r| ==> WellFormed(r[k])
  {
    var f := (row: seq<Cell>) => NormalizeRow(row, cols);
    KeepSelectsInOrder(rows, f);
    Keep(rows, f)
  }

  /** The row loop: skips blank rows and rows without a link, appends one
      record for every other row. */
  method ReadRows(rows: seq<seq<Cell>>, cols: Columns) returns (data: seq<Student>)
    ensures data == Normalize(rows, cols)
  {
    data := [];
    var i := 0;
    while i < |rows|
      invariant 0 <= i <= |rows|
      invariant data == Normalize(rows[..i], cols)
    {
      assert rows[..i + 1][..i] == rows[..i];
      var row := rows[i];
      if AllNull(row) {
        i := i + 1;
        continue;
      }
      var firstName := Field(row, cols.firstName, DefaultFirstName);
      var lastName := Field(row, cols.lastName, DefaultLastName);
      var email := Field(row, cols.email, DefaultEmail);
      var certName := Field(row, cols.certName, "");
      var certLink := Field(row, cols.certLink, "");
      var badgeFinal := Badge(RawBadge(row, cols.badge));
      if certLink == "" {
        i := i + 1;
        continue;
      }
      data := data + [Student(firstName, lastName, email, certName, certLink, badgeFinal)];
      i := i + 1;
    }
    assert rows[..i] == rows;
  }

  /** `read_excel`: `loaded` is the worksheet the spreadsheet library opened,
      or None when opening it raised; any failure yields no records. */
  method ReadExcel(loaded: Option<Sheet>) returns (data: seq<Student>)
    ensures loaded.None? ==> data == []
    ensures loaded.Some? ==> data == Normalize(loaded.value.rows, ColumnsOf(loaded.value.header))
  {
    if loaded.None? {
      return [];
    }
    var sheet := loaded.value;
    var cols := FindColumns(sheet.header);
    data := ReadRows(sheet.rows, cols);
  }

  // ---------------------------------------------------------------------
  // Properties of the reader

  /** A data row yields a record exactly when it is not all None and its link
      cell is readable and not all whitespace once rendered. */
  lemma RecordExactlyWhenLinked(row: seq<Cell>, cols: Columns)
    ensures NormalizeRow(row, cols).Some? <==>
      !AllNull(row) && Readable(row, cols.certLink) &&
      !AllSpace(Str(row[cols.certLink.value]))
  {
  }

  /** The fields of an emitted record come from the row's cells: each is the
      stripped rendering of a readable cell, or else its literal default. */
  lemma RecordFields(row: seq<Cell>, cols: Columns)
    ensures NormalizeRow(row, cols).Some? ==>
      var st := NormalizeRow(row, cols).value;
      (st.firstName == if Readable(row, cols.firstName) then Strip(Str(row[cols.firstName.value])) else "Unknown") &&
      (st.lastName == if Readable(row, cols.lastName) then Strip(Str(row[cols.lastName.value])) else "User") &&
      (st.email == if Readable(row, cols.email) then Strip(Str(row[cols.email.value])) else "noemail@example.com") &&
      (st.certificationName == if Readable(row, cols.certName) then Strip(Str(row[cols.certName.value])) else "") &&
      st.certificationLink == Strip(Str(row[cols.certLink.value])) &&
      st.badgeOptIn == Badge(RawBadge(row, cols.badge))
  {
  }

  /** The data-row indices whose rows yield a record, in order. */
  function RecordRows(rows: seq<seq<Cell>>, cols: Columns): seq<nat>
  {
    KeptAt(rows, (row: seq<Cell>) => NormalizeRow(row, cols))
  }

  /** The records are exactly the records of the rows that yield one, in row
      order and one per row: the k-th record comes from data row
      RecordRows[k], those rows strictly increase, and no row that yields a
      record is missed. */
  lemma NormalizeSelectsInOrder(rows: seq<seq<Cell>>, cols: Columns)
    ensures |RecordRows(rows, cols)| == |Normalize(rows, cols)|
    ensures forall k :: 0 <= k < |RecordRows(rows, cols)| ==>
      RecordRows(rows, cols)[k] < |rows| &&
      NormalizeRow(rows[RecordRows(rows, cols)[k]], cols) == Some(Normalize(rows, cols)[k])
    ensures forall k, m :: 0 <= k < m < |RecordRows(rows, cols)| ==>
      RecordRows(rows, cols)[k] < RecordRows(rows, cols)[m]
    ensures forall i :: 0 <= i < |rows| && NormalizeRow(rows[i], cols).Some? ==>
      i in RecordRows(rows, cols)
  {
    KeepSelectsInOrder(rows, (row: seq<Cell>) => NormalizeRow(row, cols));
  }

  /** Every record the reader returns has a non-empty certificate link and a
      badge of "yes" or "no", and comes from its own data row: the k-th
      record is the record of data row RecordRows[k], and those rows strictly
      increase, so no data row gives two records and sheet order is kept. */
  lemma ReadExcelRecordsWellFormed(loaded: Option<Sheet>, data: seq<Student>)
    requires loaded.Some? && data == Normalize(loaded.value.rows, ColumnsOf(loaded.value.header))
    ensures |data| <= |loaded.value.rows|
    ensures forall k :: 0 <= k < |data| ==>
      data[k].certificationLink != "" && data[k].badgeOptIn in {"yes", "no"}
    ensures var rows, cols := loaded.value.rows, ColumnsOf(loaded.value.header);
      |RecordRows(rows, cols)| == |data| &&
      (forall k :: 0 <= k < |data| ==>
        RecordRows(rows, cols)[k] < |rows| &&
        NormalizeRow(rows[RecordRows(rows, cols)[k]], cols) == Some(data[k])) &&
      (forall k, m :: 0 <= k < m < |data| ==> RecordRows(rows, cols)[k] < RecordRows(rows, cols)[m])
  {
    NormalizeSelectsInOrder(loaded.value.rows, ColumnsOf(loaded.value.header));
    forall k | 0 <= k < |data|
      ensures data[k].certificationLink != "" && data[k].badgeOptIn in {"yes", "no"}
    {
      assert WellFormed(data[k]);
    }
  }

  /** A row laid out as First Name, Last Name, Email, Certificate Link with
      no Certificate Name or Badge Opt-In column: an empty first name falls
      back to "Unknown", the stripped words are read as they are, and the
      missing columns give "" and "yes". */
  lemma ExampleRow(last: string, email: string, link: string)
    requires last != [] && email != [] && link != []
    requires IsStripped(last) && IsStripped(email) && IsStripped(link)
    ensures var cols := Columns(Some(0), Some(1), Some(2), None, Some(3), None);
      NormalizeRow([Text(""), Text(last), Text(email), Text(link)], cols) ==
        Some(Student("Unknown", last, email, "", link, "yes"))
  {
    var row := [Text(""), Text(last), Text(email), Text(link)];
    var cols := Columns(Some(0), Some(1), Some(2), None, Some(3), None);
    assert Field(row, cols.certLink, "") == link by { TextField(row, 3, link); }
    assert !AllNull(row) by { assert row[1] != Null; }
    RowRecord(row, cols);
    assert Field(row, cols.firstName, DefaultFirstName) == "Unknown" by {
      assert !Readable(row, cols.firstName);
    }
    assert Field(row, cols.lastName, DefaultLastName) == last by { TextField(row, 1, last); }
    assert Field(row, cols.email, DefaultEmail) == email by { TextField(row, 2, email); }
    assert Field(row, cols.certName, "") == "";
    assert Badge(RawBadge(row, cols.badge)) == "yes" by {
      assert IsBlankBadge(RawBadge(row, cols.badge));
    }
  }

  /** The record of a row that is not all None and has a link. */
  lemma RowRecord(row: seq<Cell>, cols: Columns)
    ensures !AllNull(row) && Field(row, cols.certLink, "") != "" ==>
      NormalizeRow(row, cols) == Some(Student(
      Field(row, cols.firstName, DefaultFirstName),
      Field(row, cols.lastName, DefaultLastName),
      Field(row, cols.email, DefaultEmail),
      Field(row, cols.certName, ""),
      Field(row, cols.certLink, ""),
      Badge(RawBadge(row, cols.badge))))
  {
  }

  /** A non-empty text cell with nothing to strip is read as it is. */
  lemma TextField(row: seq<Cell>, i: nat, w: string)
    requires i < |row| && row[i] == Text(w) && w != [] && IsStripped(w)
    ensures forall d :: Field(row, Some(i), d) == w
  {
  }

  /** A header cell that is none of the six labels changes no column. */
  lemma UnmatchedHeaderIgnored(headers: seq<Cell>, h: Cell)
    requires h !in [Text(FirstNameLabel), Text(LastNameLabel), Text(EmailLabel),
                    Text(CertNameLabel), Text(CertLinkLabel), Text(BadgeLabel)]
    ensures ColumnsOf(headers + [h]) == ColumnsOf(headers)
  {
    assert (headers + [h])[..|headers|] == headers;
  }

  /** A name cell holding only spaces is truthy, so it is read and stripped to
      the empty string instead of falling back to "Unknown". */
  lemma WhitespaceNameBecomesEmpty(row: seq<Cell>, cols: Columns, spaces: string)
    requires cols.firstName.Some? && cols.firstName.value < |row|
    requires row[cols.firstName.value] == Text(spaces)
    requires spaces != [] && AllSpace(spaces)
    ensures Field(row, cols.firstName, DefaultFirstName) == ""
    ensures NormalizeRow(row, cols).Some? ==> NormalizeRow(row, cols).value.firstName == ""
  {
  }

  /** Padding and letter case do not matter to a badge string that is not one
      of the blank values: it is read as yes exactly when its core, lower-cased,
      is a yes token. */
  lemma BadgePaddedToken(pre: string, u: string, post: string)
    requires AllSpace(pre) && AllSpace(post) && IsStripped(u)
    requires !IsBlankBadge(Text(pre + u + post))
    ensures Badge(Text(pre + u + post)) == "yes" <==> Lower(u) in YesTokens
  {
    StripPadded(pre, u, post);
  }

  /** A badge cell that is not blank and whose rendering has no whitespace
      at its ends is yes exactly when that rendering, lower-cased, is a yes
      token. */
  lemma BadgeOfUnpadded(c: Cell)
    requires !IsBlankBadge(c) && IsStripped(Str(c))
    ensures Badge(c) == "yes" <==> Lower(Str(c)) in YesTokens
  {
    assert Strip(Str(c)) == Str(c);
  }

  /** "NONE" is not one of the blank values (the comparison is case
      sensitive) and lower-cases to "none", which is no yes token: it means no. */
  lemma BadgeUpperNoneIsNo()
    ensures Badge(Text("NONE")) == "no"
  {
    NoneFacts();
    BadgeOfUnpadded(Text("NONE"));
  }

  lemma NoneFacts()
    ensures IsStripped("NONE") && !IsBlankBadge(Text("NONE"))
    ensures Lower("NONE") == "none" && "none" !in YesTokens
  {
    assert Lower("NONE") == "none";
  }

  /** Two spaces are not one of the blank values but strip to the empty
      string, which is no yes token: the cell means no. A single space is
      blank and means yes. */
  lemma BadgeSpacesEdge()
    ensures Badge(Text("  ")) == "no"
    ensures Badge(Text(" ")) == "yes"
  {
    assert AllSpace("  ");
    assert !IsBlankBadge(Text("  "));
    assert Lower("") == "";
  }

  /** A numeric badge cell means yes exactly for the number 1, since
      `str()` of an int reads back as the same int. */
  lemma BadgeOfInt(i: int)
    ensures Badge(Int(i)) == "yes" <==> i == 1
  {
    var d := IntToDecimal(i);
    BadgeOfNonText(Int(i));
    DecimalUnchangedByLower(i);
    DecimalYesToken(i);
  }

  lemma DecimalUnchangedByLower(i: int)
    ensures Lower(IntToDecimal(i)) == IntToDecimal(i)
  {
    var d := IntToDecimal(i);
    forall k | 0 <= k < |d| ensures Lower(d)[k] == d[k] {
      DecimalChars(i, k);
    }
  }

  /** The only yes token an int renders as is "1". */
  lemma DecimalYesToken(i: int)
    ensures IntToDecimal(i) in YesTokens <==> i == 1
  {
    var d := IntToDecimal(i);
    if d in YesTokens {
      DecimalChars(i, 0);
      assert d == "1";
      IntDecimalRoundTrip(i);
      assert ParseDecimal("1") == 1;
    }
    if i == 1 {
      assert d == "1";
    }
  }

  lemma DecimalChars(i: int, k: nat)
    requires k < |IntToDecimal(i)|
    ensures IntToDecimal(i)[k] == '-' || '0' <= IntToDecimal(i)[k] <= '9'
  {
  }

  /** A badge cell that is not a string and not None is never blank and
      renders with no whitespace around it: yes exactly when its rendering,
      lower-cased, is a yes token. */
  lemma BadgeOfNonText(c: Cell)
    requires !c.Text? && !c.Null?
    ensures Badge(c) == "yes" <==> Lower(Str(c)) in YesTokens
  {
    assert !IsBlankBadge(c);
    NonTextRendersStripped(c);
    BadgeOfUnpadded(c);
  }

  /** A boolean badge cell renders as "True" or "False": yes exactly for True. */
  lemma BadgeOfBool(b: bool)
    ensures Badge(Bool(b)) == (if b then "yes" else "no")
  {
    BadgeOfNonText(Bool(b));
    BoolWords();
  }

  lemma BoolWords()
    ensures Lower("True") == "true" && "true" in YesTokens
    ensures Lower("False") == "false" && "false" !in YesTokens
  {
    assert Lower("True") == "true";
    assert Lower("False") == "false";
  }
}

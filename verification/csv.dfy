/**
 * The CSV adapter of lib/utils/csv.ts: email-column selection and email
 * extraction over the records the CSV library produced, result export,
 * the email format check, file-name sanitising and the percentage helper.
 */
module Csv {
  import opened Wrappers
  import opened Types
  import Helpers

  // ---------------------------------------------------------------------
  // Whitespace, trimming and lower-casing
  // ---------------------------------------------------------------------

  /**
   * JavaScript's WhiteSpace and LineTerminator code points: exactly what a
   * regular-expression `\s` matches and what `String.prototype.trim` strips.
   */
  predicate IsWhiteSpace(c: char)
  {
    || c == '\t' || c == '\n' || c == '\U{000B}' || c == '\U{000C}' || c == '\r'
    || c == ' ' || c == '\U{00A0}' || c == '\U{1680}'
    || ('\U{2000}' <= c <= '\U{200A}')
    || c == '\U{2028}' || c == '\U{2029}' || c == '\U{202F}' || c == '\U{205F}'
    || c == '\U{3000}' || c == '\U{FEFF}'
  }

  /** Drops leading whitespace. */
  function TrimStart(s: string): (r: string)
    ensures |r| <= |s| && r == s[|s| - |r|..]
    ensures forall i :: 0 <= i < |s| - |r| ==> IsWhiteSpace(s[i])
    ensures |r| == 0 || !IsWhiteSpace(r[0])
  {
    if |s| > 0 && IsWhiteSpace(s[0]) then TrimStart(s[1..]) else s
  }

  /** Drops trailing whitespace. */
  function TrimEnd(s: string): (r: string)
    ensures |r| <= |s| && r == s[..|r|]
    ensures forall i :: |r| <= i < |s| ==> IsWhiteSpace(s[i])
    ensures |r| == 0 || !IsWhiteSpace(r[|r| - 1])
  {
    if |s| > 0 && IsWhiteSpace(s[|s| - 1]) then TrimEnd(s[..|s| - 1]) else s
  }

  /** `String.prototype.trim`. */
  function Trim(s: string): (r: string)
    ensures |r| == 0 || (!IsWhiteSpace(r[0]) && !IsWhiteSpace(r[|r| - 1]))
  {
    var t := TrimStart(s);
    var r := TrimEnd(t);
    assert |r| > 0 ==> r[0] == t[0];
    r
  }

  /** A string that neither starts nor ends with whitespace is its own trim. */
  lemma TrimOfTrimmed(s: string)
    requires |s| == 0 || (!IsWhiteSpace(s[0]) && !IsWhiteSpace(s[|s| - 1]))
    ensures Trim(s) == s
  {
  }

  /** Lower-cases ASCII capitals; every other character is kept. */
  function LowerChar(c: char): char
  {
    if 'A' <= c <= 'Z' then (c as int + 32) as char else c
  }

  /** `String.prototype.toLowerCase`, restricted to ASCII letters. */
  function ToLower(s: string): (r: string)
    ensures |r| == |s|
    ensures forall i :: 0 <= i < |s| ==> r[i] == LowerChar(s[i])
  {
    seq(|s|, i requires 0 <= i < |s| => LowerChar(s[i]))
  }

  /** The normalisation applied to every extracted address: trimmed, then lower-cased. */
  function Normalize(v: string): string
  {
    ToLower(Trim(v))
  }

  /** Lower-casing maps whitespace to whitespace and nothing else to whitespace. */
  lemma LowerCharWhiteSpace(c: char)
    ensures IsWhiteSpace(LowerChar(c)) <==> IsWhiteSpace(c)
    ensures LowerChar(LowerChar(c)) == LowerChar(c)
  {
  }

  /** Normalised addresses are fixed points of the normalisation. */
  lemma NormalizeIdempotent(v: string)
    ensures Normalize(Normalize(v)) == Normalize(v)
  {
    var t := Trim(v);
    var l := ToLower(t);
    if |l| > 0 {
      LowerCharWhiteSpace(t[0]);
      LowerCharWhiteSpace(t[|t| - 1]);
    }
    TrimOfTrimmed(l);
    forall i | 0 <= i < |l|
      ensures LowerChar(l[i]) == l[i]
    {
      LowerCharWhiteSpace(t[i]);
    }
    assert ToLower(l) == l;
  }

  // ---------------------------------------------------------------------
  // isValidEmailFormat: a run of address characters, '@', a run, '.', a run
  // ---------------------------------------------------------------------

  /** An address character: neither white space nor '@'. */
  predicate IsAddressChar(c: char)
  {
    !IsWhiteSpace(c) && c != '@'
  }

  /** A non-empty run of address characters. */
  predicate IsAddressRun(s: string)
  {
    |s| > 0 && forall i :: 0 <= i < |s| ==> IsAddressChar(s[i])
  }

  /** The domain part of the pattern: a run, a literal dot, a run, for every way of choosing the dot. */
  predicate MatchesDomain(d: string)
  {
    exists k :: 0 < k < |d| - 1 && d[k] == '.' && IsAddressRun(d[..k]) && IsAddressRun(d[k + 1..])
  }

  /** Whether the whole string matches the pattern, for every way of choosing the `@`. */
  predicate IsValidEmailFormat(s: string)
  {
    exists i :: 0 < i < |s| && s[i] == '@' && IsAddressRun(s[..i]) && MatchesDomain(s[i + 1..])
  }

  /** `s[at]` is the one and only `@` of `s`. */
  predicate OnlyAt(s: string, at: int)
  {
    0 <= at < |s| && s[at] == '@' && forall j :: 0 <= j < |s| && j != at ==> s[j] != '@'
  }

  predicate NoWhiteSpace(s: string)
  {
    forall j :: 0 <= j < |s| ==> !IsWhiteSpace(s[j])
  }

  /** A `.` after `s[at]` with at least one character on either side. */
  predicate HasDomainDot(s: string, at: nat)
  {
    exists k :: at + 1 < k < |s| - 1 && s[k] == '.'
  }

  /**
   * The plain-words reading of the pattern: no whitespace, exactly one `@`
   * with a non-empty local part before it, and a `.` in the domain with at
   * least one character on either side.
   */
  predicate HasEmailShape(s: string)
  {
    NoWhiteSpace(s) && exists at :: 0 < at < |s| && OnlyAt(s, at) && HasDomainDot(s, at)
  }

  /** Every character of a run at the head of `s` is an address character of `s`. */
  lemma RunAtStart(s: string, c: nat)
    requires c <= |s| && IsAddressRun(s[..c])
    ensures forall j :: 0 <= j < c ==> IsAddressChar(s[j])
  {
    forall j | 0 <= j < c
      ensures IsAddressChar(s[j])
    {
      assert s[j] == s[..c][j];
    }
  }

  /** Every character of a run at the head of `s[a..]` is an address character of `s`. */
  lemma RunAtHead(s: string, a: nat, c: nat)
    requires a + c <= |s| && IsAddressRun(s[a..][..c])
    ensures forall j :: a <= j < a + c ==> IsAddressChar(s[j])
  {
    forall j | a <= j < a + c
      ensures IsAddressChar(s[j])
    {
      assert s[j] == s[a..][..c][j - a];
    }
  }

  /** Every character of a run at the tail of `s[a..]` is an address character of `s`. */
  lemma RunAtTail(s: string, a: nat, b: nat)
    requires a + b <= |s| && IsAddressRun(s[a..][b..])
    ensures forall j :: a + b <= j < |s| ==> IsAddressChar(s[j])
  {
    forall j | a + b <= j < |s|
      ensures IsAddressChar(s[j])
    {
      assert s[j] == s[a..][b..][j - a - b];
    }
  }

  /** Address characters everywhere but an `@` and a later `.` with room on both sides make the shape. */
  lemma MarkedShape(s: string, at: nat, dot: nat)
    requires 0 < at && at + 1 < dot < |s| - 1 && s[at] == '@' && s[dot] == '.'
    requires forall j :: 0 <= j < |s| && j != at && j != dot ==> IsAddressChar(s[j])
    ensures HasEmailShape(s)
  {
    assert NoWhiteSpace(s);
    assert OnlyAt(s, at);
    assert HasDomainDot(s, at);
  }

  lemma FormatHasShape(s: string)
    requires IsValidEmailFormat(s)
    ensures HasEmailShape(s)
  {
    var i :| 0 < i < |s| && s[i] == '@' && IsAddressRun(s[..i]) && MatchesDomain(s[i + 1..]);
    var k :| 0 < k < |s[i + 1..]| - 1 && s[i + 1..][k] == '.' && IsAddressRun(s[i + 1..][..k]) && IsAddressRun(s[i + 1..][k + 1..]);
    RunAtStart(s, i);
    RunAtHead(s, i + 1, k);
    RunAtTail(s, i + 1, k + 1);
    MarkedShape(s, i, i + 1 + k);
  }

  lemma ShapeHasFormat(s: string)
    requires HasEmailShape(s)
    ensures IsValidEmailFormat(s)
  {
  }

  /** The format check accepts exactly the strings of the plain-words shape. */
  lemma EmailFormatCharacterization(s: string)
    ensures IsValidEmailFormat(s) <==> HasEmailShape(s)
  {
    if IsValidEmailFormat(s) {
      FormatHasShape(s);
    }
    if HasEmailShape(s) {
      ShapeHasFormat(s);
    }
  }

  // ---------------------------------------------------------------------
  // sanitizeFilename
  // ---------------------------------------------------------------------

  /** The characters `[A-Za-z0-9_.-]` a download file name may keep. */
  predicate IsFileNameChar(c: char)
  {
    ('a' <= c <= 'z') || ('A' <= c <= 'Z') || ('0' <= c <= '9') || c == '_' || c == '-' || c == '.'
  }

  /** The number of UTF-16 code units JavaScript stores for `c`: two outside the Basic Multilingual Plane. */
  function CodeUnits(c: char): nat
  {
    if c as int > 0xFFFF then 2 else 1
  }

  /** The `length` JavaScript reports for `s`: its number of UTF-16 code units. */
  function Utf16Length(s: string): (n: nat)
    ensures |s| <= n <= 2 * |s|
  {
    if |s| == 0 then 0 else CodeUnits(s[0]) + Utf16Length(s[1..])
  }

  /** What the replacement writes for one character: the character when allowed, otherwise one `_` per code unit. */
  function Replacement(c: char): string
  {
    if IsFileNameChar(c) then [c] else if c as int > 0xFFFF then "__" else "_"
  }

  /**
   * Replaces every character outside `[A-Za-z0-9_.-]` by `_`. The pattern
   * carries no `u` flag, so it matches UTF-16 code units one at a time: a
   * character outside the Basic Multilingual Plane becomes two `_`.
   */
  function SanitizeFilename(name: string): (r: string)
    ensures |r| == Utf16Length(name)
    ensures forall i :: 0 <= i < |r| ==> IsFileNameChar(r[i])
  {
    if |name| == 0 then ""
    else
      var rest := SanitizeFilename(name[1..]);
      var r := Replacement(name[0]) + rest;
      assert forall i :: |Replacement(name[0])| <= i < |r| ==> r[i] == rest[i - |Replacement(name[0])|];
      r
  }

  /** Sanitising a concatenation sanitises each part. */
  lemma {:induction false} SanitizeAppend(a: string, b: string)
    ensures SanitizeFilename(a + b) == SanitizeFilename(a) + SanitizeFilename(b)
  {
    if |a| == 0 {
      assert a + b == b;
    } else {
      assert (a + b)[1..] == a[1..] + b;
      SanitizeAppend(a[1..], b);
    }
  }

  /** Within the Basic Multilingual Plane the length is kept and each disallowed character becomes one `_`. */
  lemma {:induction false} SanitizeBasicPlane(name: string)
    requires forall i :: 0 <= i < |name| ==> name[i] as int <= 0xFFFF
    ensures |SanitizeFilename(name)| == |name|
    ensures forall i :: 0 <= i < |name| ==>
      SanitizeFilename(name)[i] == (if IsFileNameChar(name[i]) then name[i] else '_')
  {
    if |name| > 0 {
      SanitizeBasicPlane(name[1..]);
      var rest := SanitizeFilename(name[1..]);
      assert SanitizeFilename(name) == Replacement(name[0]) + rest;
      assert forall i :: 1 <= i < |name| ==> name[i] == name[1..][i - 1];
    }
  }

  /** A character outside the Basic Multilingual Plane turns into two `_`. */
  lemma SanitizeAstralExample()
    ensures SanitizeFilename("\U{1F600}.csv") == "__.csv"
  {
  }

  /** A name is left as it is exactly when every character is allowed. */
  lemma {:induction false} SanitizeKeepsSafeNames(name: string)
    ensures SanitizeFilename(name) == name <==> forall i :: 0 <= i < |name| ==> IsFileNameChar(name[i])
  {
    if |name| > 0 && forall i :: 0 <= i < |name| ==> IsFileNameChar(name[i]) {
      assert forall i :: 0 <= i < |name[1..]| ==> IsFileNameChar(name[1..][i]) by {
        forall i | 0 <= i < |name[1..]|
          ensures IsFileNameChar(name[1..][i])
        {
          assert name[1..][i] == name[i + 1];
        }
      }
      SanitizeKeepsSafeNames(name[1..]);
      assert SanitizeFilename(name) == [name[0]] + name[1..];
    }
  }

  /** Sanitising is idempotent. */
  lemma SanitizeIdempotent(name: string)
    ensures SanitizeFilename(SanitizeFilename(name)) == SanitizeFilename(name)
  {
    SanitizeKeepsSafeNames(SanitizeFilename(name));
  }

  // ---------------------------------------------------------------------
  // parseCSV, from the records the CSV library produced
  // ---------------------------------------------------------------------

  datatype ParseError = NoRecords | NoColumns

  datatype ParsedCsv = ParsedCsv(emails: seq<string>, headers: seq<string>, rows: seq<Row>, emailColumnName: string)

  /** The column at the requested index, or the first column when that one is absent or unnamed. */
  function EmailColumn(headers: seq<string>, index: int): (column: string)
    requires |headers| > 0
    ensures column in headers
    ensures 0 <= index < |headers| && headers[index] != "" ==> column == headers[index]
    ensures !(0 <= index < |headers| && headers[index] != "") ==> column == headers[0]
  {
    if 0 <= index < |headers| && headers[index] != "" then headers[index] else headers[0]
  }

  /** The row has a non-empty (truthy) cell under `column`. */
  predicate Filled(row: Row, column: string)
  {
    Lookup(row, column).Some? && Lookup(row, column).value != ""
  }

  /** What one row contributes: its normalised email cell when filled, nothing otherwise. */
  function RowEmails(row: Row, column: string): (r: seq<string>)
    ensures |r| <= 1
  {
    if Filled(row, column) then [Normalize(Lookup(row, column).value)] else []
  }

  /** The loop of `parseCSV`: the normalised cell of every filled row, in row order. */
  function ExtractEmails(rows: seq<Row>, column: string): (emails: seq<string>)
    ensures |emails| <= |rows|
  {
    if |rows| == 0 then [] else RowEmails(rows[0], column) + ExtractEmails(rows[1..], column)
  }

  /** Extraction distributes over concatenation of row lists: it keeps row order. */
  lemma {:induction false} ExtractEmailsAppend(a: seq<Row>, b: seq<Row>, column: string)
    ensures ExtractEmails(a + b, column) == ExtractEmails(a, column) + ExtractEmails(b, column)
  {
    if |a| == 0 {
      assert a + b == b;
    } else {
      var ab := a + b;
      assert ab[0] == a[0];
      assert ab[1..] == a[1..] + b;
      ExtractEmailsAppend(a[1..], b, column);
      calc {
        ExtractEmails(ab, column);
        RowEmails(a[0], column) + ExtractEmails(a[1..] + b, column);
        RowEmails(a[0], column) + (ExtractEmails(a[1..], column) + ExtractEmails(b, column));
        (RowEmails(a[0], column) + ExtractEmails(a[1..], column)) + ExtractEmails(b, column);
      }
    }
  }

  /** Every row with a filled email cell contributes exactly that cell, normalised. */
  predicate AlignedWith(emails: seq<string>, rows: seq<Row>, column: string)
  {
    |emails| == |rows| && forall i :: 0 <= i < |rows| ==> emails[i] == Normalize(Cell(rows[i], column))
  }

  /**
   * When every row has a filled email cell, the email list is aligned with
   * the rows: entry `i` is the normalised cell of row `i`.
   */
  lemma {:induction false} ExtractEmailsAligned(rows: seq<Row>, column: string)
    requires forall i :: 0 <= i < |rows| ==> Filled(rows[i], column)
    ensures AlignedWith(ExtractEmails(rows, column), rows, column)
  {
    if |rows| > 0 {
      var tail := rows[1..];
      ExtractEmailsAligned(tail, column);
      var rest := ExtractEmails(tail, column);
      var emails := RowEmails(rows[0], column) + rest;
      assert Cell(rows[0], column) == Lookup(rows[0], column).value;
      forall i | 0 <= i < |rows|
        ensures emails[i] == Normalize(Cell(rows[i], column))
      {
        if i > 0 {
          assert emails[i] == rest[i - 1];
          assert tail[i - 1] == rows[i];
        }
      }
    }
  }

  /** The list is as long as the rows exactly when no row lacks an email cell. */
  lemma {:induction false} ExtractEmailsComplete(rows: seq<Row>, column: string)
    ensures |ExtractEmails(rows, column)| == |rows| <==> forall i :: 0 <= i < |rows| ==> Filled(rows[i], column)
  {
    if |rows| > 0 {
      var tail := rows[1..];
      ExtractEmailsComplete(tail, column);
      assert forall i :: 0 <= i < |tail| ==> tail[i] == rows[i + 1];
      assert |RowEmails(rows[0], column)| == 1 <==> Filled(rows[0], column);
    }
  }

  /** Every extracted address is the normalised email cell of some row, and is itself normalised. */
  lemma {:induction false} ExtractEmailsSource(rows: seq<Row>, column: string, e: string)
    requires e in ExtractEmails(rows, column)
    ensures exists i :: 0 <= i < |rows| && Filled(rows[i], column) && e == Normalize(Lookup(rows[i], column).value)
    ensures Normalize(e) == e
  {
    if e in RowEmails(rows[0], column) {
      NormalizeIdempotent(Lookup(rows[0], column).value);
    } else {
      var tail := rows[1..];
      ExtractEmailsSource(tail, column, e);
      var i :| 0 <= i < |tail| && Filled(tail[i], column) && e == Normalize(Lookup(tail[i], column).value);
      assert tail[i] == rows[i + 1];
    }
  }

  /**
   * `parseCSV(buffer, emailColumnIndex)` after the library produced
   * `records`: fails on zero records or a first record without columns;
   * otherwise returns the records and their headers unchanged, the chosen
   * email column, and the extracted addresses.
   */
  function ParseCsv(records: seq<Row>, emailColumnIndex: int): (r: Result<ParsedCsv, ParseError>)
    ensures r == Err(NoRecords) <==> |records| == 0
    ensures r == Err(NoColumns) <==> |records| > 0 && |records[0]| == 0
    ensures r.Ok? ==>
      && |records| > 0 && |records[0]| > 0
      && r.value.rows == records
      && r.value.headers == Keys(records[0])
      && r.value.emailColumnName == EmailColumn(Keys(records[0]), emailColumnIndex)
      && r.value.emails == ExtractEmails(records, r.value.emailColumnName)
      && |r.value.emails| <= |r.value.rows|
  {
    if |records| == 0 then Err(NoRecords)
    else
      var headers := Keys(records[0]);
      if |headers| == 0 then Err(NoColumns)
      else
        var column := EmailColumn(headers, emailColumnIndex);
        Ok(ParsedCsv(ExtractEmails(records, column), headers, records, column))
  }

  // ---------------------------------------------------------------------
  // generateCSV
  // ---------------------------------------------------------------------

  /**
   * The document the CSV writer serialises: nothing at all, or a header
   * line followed by one line of fields per record. The textual encoding
   * (quoting, delimiters) belongs to the library.
   */
  datatype CsvText = EmptyText | Table(header: seq<string>, body: seq<seq<string>>)

  /** The field written for `column`: the cell, or empty when the record lacks it. */
  function Cell(row: Row, column: string): string
  {
    match Lookup(row, column)
    case Some(v) => v
    case None => ""
  }

  /** The fields of one record, in column order. */
  function Fields(row: Row, columns: seq<string>): (fs: seq<string>)
    ensures |fs| == |columns|
    ensures forall j :: 0 <= j < |columns| ==> fs[j] == Cell(row, columns[j])
  {
    if |columns| == 0 then []
    else
      var rest := Fields(row, columns[1..]);
      assert forall j :: 1 <= j < |columns| ==> columns[j] == columns[1..][j - 1];
      [Cell(row, columns[0])] + rest
  }

  function Lines(data: seq<Row>, columns: seq<string>): (lines: seq<seq<string>>)
    ensures |lines| == |data|
    ensures forall i :: 0 <= i < |data| ==> lines[i] == Fields(data[i], columns)
  {
    if |data| == 0 then []
    else
      var rest := Lines(data[1..], columns);
      assert forall i :: 1 <= i < |data| ==> data[i] == data[1..][i - 1];
      [Fields(data[0], columns)] + rest
  }

  /**
   * `generateCSV(data, columns)`: no output at all (not even a header) for
   * no data; otherwise the header and one line per record, in order.
   */
  function GenerateCsv(data: seq<Row>, columns: seq<string>): (r: CsvText)
    ensures r == EmptyText <==> |data| == 0
    ensures r.Table? ==>
      && r.header == columns
      && |r.body| == |data|
      && forall i :: 0 <= i < |data| ==> r.body[i] == Fields(data[i], columns)
  {
    if |data| == 0 then EmptyText else Table(columns, Lines(data, columns))
  }

  // ---------------------------------------------------------------------
  // calculatePercentage
  // ---------------------------------------------------------------------

  /**
   * `calculatePercentage(current, total)`: 0 for a zero total, otherwise
   * `100 * current / total` rounded half up, computed exactly.
   */
  function CalculatePercentage(current: nat, total: nat): (p: int)
    ensures total == 0 ==> p == 0
    ensures total > 0 ==> p * (2 * total) <= 200 * current + total < p * (2 * total) + 2 * total
    ensures current <= total ==> 0 <= p <= 100
  {
    if total == 0 then 0
    else
      var q := (200 * current + total) / (2 * total);
      Helpers.FloorBelow(200 * current + total, 2 * total);
      if current <= total then
        assert 200 * current + total < 101 * (2 * total);
        Helpers.QuotientInRange(200 * current + total, 2 * total, 101);
        q
      else q
  }
}

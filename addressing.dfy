/**
 * Cell addressing: spreadsheet column letters (bijective base 26: A..Z, AA, AB, ...)
 * as excelize.ColumnNumberToName produces them, and the "A<row>" addresses of the write cursor.
 */
module Addressing {
  import opened Results
  import opened Strings

  /** excelize's column bounds: a worksheet has columns 1..16384 (A..XFD). */
  const MinColumns := 1
  const MaxColumns := 16384

  predicate IsColumnLetters(s: string) {
    |s| > 0 && forall i :: 0 <= i < |s| ==> 'A' <= s[i] <= 'Z'
  }

  /** The letter name of column n: 1 -> "A", 26 -> "Z", 27 -> "AA". */
  function ColumnName(n: int): (s: string)
    requires n >= 1
    ensures IsColumnLetters(s)
    decreases n
  {
    var letter := ((n - 1) % 26 + 'A' as int) as char;
    if n <= 26 then [letter] else ColumnName((n - 1) / 26) + [letter]
  }

  /** The column number a name denotes; the inverse of ColumnName on upper-case names. */
  function ColumnNumber(s: string): (n: int)
    ensures IsColumnLetters(s) ==> n >= 1
    decreases |s|
  {
    if s == [] then 0 else ColumnNumber(s[..|s| - 1]) * 26 + (s[|s| - 1] as int - 'A' as int + 1)
  }

  /** Every column number has a name that denotes it. */
  lemma {:induction false} ColumnNumberOfName(n: int)
    requires n >= 1
    ensures ColumnNumber(ColumnName(n)) == n
    decreases n
  {
    var s := ColumnName(n);
    if n > 26 {
      ColumnNumberOfName((n - 1) / 26);
      assert s[..|s| - 1] == ColumnName((n - 1) / 26);
    }
  }

  /** Every upper-case name is the name of the column it denotes: names and numbers are in bijection. */
  lemma {:induction false} ColumnNameOfNumber(s: string)
    requires IsColumnLetters(s)
    ensures ColumnName(ColumnNumber(s)) == s
    decreases |s|
  {
    var init := s[..|s| - 1];
    var d := s[|s| - 1] as int - 'A' as int + 1;
    if init == [] {
      assert s == [s[0]];
    } else {
      assert IsColumnLetters(init);
      ColumnNameOfNumber(init);
      var q := ColumnNumber(init);
      assert (q * 26 + d - 1) / 26 == q;
      assert (q * 26 + d - 1) % 26 == d - 1;
      assert s == init + [s[|s| - 1]];
    }
  }

  /** excelize.ColumnNumberToName: the name of a column in range, an error otherwise. */
  function ColumnNumberToName(n: int): (r: Result<string>)
    ensures r.Ok? <==> MinColumns <= n <= MaxColumns
    ensures r.Ok? ==> IsColumnLetters(r.value) && ColumnNumber(r.value) == n
    ensures r.Err? ==> r.error == ColumnNumberOutOfRange
  {
    if n < MinColumns || n > MaxColumns then Err(ColumnNumberOutOfRange)
    else ColumnNumberOfName(n); Ok(ColumnName(n))
  }

  /** The write cursor's address "A" + strconv.FormatInt(row, 10). */
  function RowAddress(row: int): (r: string)
    ensures |r| >= 2 && r[0] == 'A'
  {
    "A" + FormatInt(row)
  }

  /** Reads back the row of an "A<row>" address. */
  function ParseRowAddress(s: string): Option<int> {
    if |s| > 0 && s[0] == 'A' then ParseInt(s[1..]) else None
  }

  /** Distinct rows get distinct addresses: each address names exactly its row. */
  lemma RowAddressRoundTrip(row: int)
    ensures ParseRowAddress(RowAddress(row)) == Some(row)
  {
    ParseFormatInt(row);
    assert RowAddress(row)[1..] == FormatInt(row);
  }
}

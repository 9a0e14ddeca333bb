/**
  Spreadsheet cell references: column letters are a numeration without zero.
  Source: frontend/src/utils/antennaTemplate.js, frontend/src/utils/antennaImport.js
*/
module CellReference {
  import opened Arithmetic

  predicate IsUpper(c: char) {
    'A' <= c <= 'Z'
  }

  predicate IsLetter(c: char) {
    IsUpper(c) || 'a' <= c <= 'z'
  }

  function Letter(remainder: nat): (c: char)
    requires remainder < 26
    ensures IsUpper(c)
  {
    (65 + remainder) as char
  }

  /** The letters of a column number, most significant first; none for zero. */
  function Letters(column: nat): string {
    if column == 0 then "" else Letters((column - 1) / 26) + [Letter((column - 1) % 26)]
  }

  function Digits(n: nat): (s: string)
    ensures s != "" && forall i :: 0 <= i < |s| ==> '0' <= s[i] <= '9'
  {
    (if n < 10 then "" else Digits(n / 10)) + [(48 + n % 10) as char]
  }

  method CellReferenceOf(column: nat, row: nat) returns (reference: string)
    ensures reference == Letters(column) + Digits(row)
  {
    var letters, value := "", column;
    while value > 0
      invariant Letters(value) + letters == Letters(column)
    {
      var remainder := (value - 1) % 26;
      letters := [(65 + remainder) as char] + letters;
      value := (value - 1) / 26;
    }
    reference := letters + Digits(row);
  }

  /** The number that decimal digits denote. */
  function Decimal(s: string): int {
    if s == "" then 0 else 10 * Decimal(s[..|s| - 1]) + (s[|s| - 1] as int - 48)
  }

  /** The row is written in decimal, without leading zeros. */
  lemma {:induction false} DigitsAreDecimal(n: nat)
    ensures Decimal(Digits(n)) == n
    ensures n > 0 ==> Digits(n)[0] != '0'
  {
    if n >= 10 {
      DigitsAreDecimal(n / 10);
      assert Digits(n)[..|Digits(n)| - 1] == Digits(n / 10);
    }
  }

  /** A, Z, AA, ZZ, AAA. */
  lemma FirstLettersOfColumns()
    ensures Letters(1) == "A" && Letters(26) == "Z" && Letters(27) == "AA" && Letters(702) == "ZZ" && Letters(703) == "AAA"
  {
    assert Letters(0) == "" && Letters(1) == "A" && Letters(26) == "Z";
    assert Letters(27) == Letters(1) + [Letter(0)];
    assert Letters(702) == Letters(26) + [Letter(25)];
    assert Letters(703) == Letters(27) + [Letter(0)];
  }

  function Upper(c: char): char {
    if 'a' <= c <= 'z' then (c as int - 32) as char else c
  }

  /** The first run of letters, which is what the reader's pattern matches. */
  function FirstLetters(s: string): string {
    if s == "" then ""
    else if IsLetter(s[0]) then LeadingLetters(s)
    else FirstLetters(s[1..])
  }

  function LeadingLetters(s: string): string {
    if s == "" || !IsLetter(s[0]) then "" else [s[0]] + LeadingLetters(s[1..])
  }

  /** The reader's fold over the letters. */
  function ColumnNumber(letters: string): int {
    if letters == "" then 0
    else
      var n := |letters| - 1;
      ColumnNumber(letters[..n]) * 26 + Upper(letters[n]) as int - 64
  }

  function ColumnIndexFromReference(reference: string): int {
    var letters := FirstLetters(reference);
    ColumnNumber(if letters == "" then "A" else letters) - 1
  }

  lemma {:induction false} NumberOfLetters(column: nat)
    ensures ColumnNumber(Letters(column)) == column
    ensures forall i :: 0 <= i < |Letters(column)| ==> IsUpper(Letters(column)[i])
    ensures column > 0 ==> Letters(column) != ""
  {
    if column > 0 {
      NumberOfLetters((column - 1) / 26);
      var init := Letters((column - 1) / 26);
      assert Letters(column)[..|init|] == init;
    }
  }

  lemma {:induction false} LeadingIsWhole(letters: string, rest: string)
    requires forall i :: 0 <= i < |letters| ==> IsLetter(letters[i])
    requires rest != "" ==> !IsLetter(rest[0])
    ensures LeadingLetters(letters + rest) == letters
  {
    if letters == "" {
      assert letters + rest == rest;
    } else {
      assert (letters + rest)[1..] == letters[1..] + rest;
      LeadingIsWhole(letters[1..], rest);
    }
  }

  /** Reading a written reference gives back its column, counted from zero, for every column and row. */
  lemma ReferenceRoundTrip(column: nat, row: nat)
    requires column >= 1
    ensures ColumnIndexFromReference(Letters(column) + Digits(row)) == column - 1
  {
    NumberOfLetters(column);
    LeadingIsWhole(Letters(column), Digits(row));
    assert (Letters(column) + Digits(row))[0] == Letters(column)[0];
  }

  /** No two letter strings name the same column: every upper-case string is the writer's own for its number. */
  lemma {:induction false} LettersOfNumber(letters: string)
    requires forall i :: 0 <= i < |letters| ==> IsUpper(letters[i])
    ensures ColumnNumber(letters) >= 0 && Letters(ColumnNumber(letters)) == letters
  {
    if letters != "" {
      var n := |letters| - 1;
      LettersOfNumber(letters[..n]);
      var high, digit := ColumnNumber(letters[..n]), letters[n] as int - 65;
      DivModUnique(high * 26 + digit, 26, high, digit);
      assert letters == letters[..n] + [letters[n]];
    }
  }
}

/**
 * Sheet names on export: the dataset's title when it has one, otherwise
 * "Tablib Dataset" for a single dataset or "Sheet<i>" for the dataset at
 * zero-based position i of a book.
 */
module SheetNaming {
  import opened Wrappers

  const DefaultName: string := "Tablib Dataset"
  const BookPrefix: string := "Sheet"

  /** Python truthiness of a title: None and "" are both false. */
  predicate HasTitle(title: Option<string>)
  {
    title.Some? && title.value != ""
  }

  function DigitChar(d: nat): (c: char)
    requires d < 10
  {
    "0123456789"[d]
  }

  function DigitValue(c: char): (d: nat)
  {
    if '0' <= c <= '9' then (c - '0') as nat else 0
  }

  /** `str(n)` for a natural number. */
  function Decimal(n: nat): (s: string)
    ensures |s| >= 1
    ensures forall k :: 0 <= k < |s| ==> '0' <= s[k] <= '9'
    ensures |s| > 1 ==> s[0] != '0'
  {
    if n < 10 then [DigitChar(n)] else Decimal(n / 10) + [DigitChar(n % 10)]
  }

  /** `int(s)` for a string of decimal digits. */
  function ParseDecimal(s: string): (n: nat)
  {
    if s == [] then 0 else ParseDecimal(s[..|s| - 1]) * 10 + DigitValue(s[|s| - 1])
  }

  lemma {:induction false} ParseDecimalOfDecimal(n: nat)
    ensures ParseDecimal(Decimal(n)) == n
    decreases n
  {
    if n >= 10 {
      ParseDecimalOfDecimal(n / 10);
      var s := Decimal(n);
      assert s[..|s| - 1] == Decimal(n / 10);
    }
  }

  /** `export_set`'s table name. */
  function DatasetSheetName(title: Option<string>): (name: string)
    ensures HasTitle(title) ==> name == title.value
    ensures !HasTitle(title) ==> name == DefaultName
    ensures name != ""
  {
    if HasTitle(title) then title.value else DefaultName
  }

  /** `export_book`'s table name for the dataset at position i. */
  function BookSheetName(title: Option<string>, i: nat): (name: string)
    ensures HasTitle(title) ==> name == title.value
    ensures !HasTitle(title) ==> name == BookPrefix + Decimal(i)
    ensures name != ""
  {
    if HasTitle(title) then title.value else BookPrefix + Decimal(i)
  }

  /** The fallback name reads back as the sheet's position, so untitled sheets never share a name. */
  lemma UntitledBookNames(i: nat, j: nat)
    ensures |BookSheetName(None, i)| > |BookPrefix|
    ensures ParseDecimal(BookSheetName(None, i)[|BookPrefix|..]) == i
    ensures i != j ==> BookSheetName(None, i) != BookSheetName(None, j)
  {
    var a, b := BookSheetName(None, i), BookSheetName(None, j);
    assert a[|BookPrefix|..] == Decimal(i);
    assert b[|BookPrefix|..] == Decimal(j);
    ParseDecimalOfDecimal(i);
    ParseDecimalOfDecimal(j);
  }
}

/**
 * Reading one spreadsheet cell back into a value (`getvalue`, `convert` and
 * `plaintext` in `_import_set`): the cell's office:value-type tag decides
 * which attribute carries the raw value and how it is converted.
 */
module CellDecoding {
  import opened Wrappers
  import opened Tabular

  /** A child node of a text:p element: only text nodes are read. */
  datatype Node = TextNode(data: string) | OtherNode

  type Paragraph = seq<Node>

  /** A table:table-cell element as the document library hands it over. */
  datatype Cell = Cell(
    valueType: Option<string>,     // office:value-type
    attrs: map<string, string>,    // the other attributes, by the library's attribute names
    paragraphs: seq<Paragraph>,    // the text:p elements under the cell, in document order
    repeat: Option<int>)           // table:number-columns-repeated

  /** The exceptions that escape an import. */
  datatype ImportError =
    | KeyError(tag: string)        // a value-type tag outside the dispatch table
    | IndexError                   // a document without any table

  const NumericTypes: set<string> := {"float", "percentage", "currency"}

  /** Which attribute holds the raw value, per value-type tag. */
  const TypeValueMap: map<string, string> := map[
    "string" := "stringvalue",
    "float" := "value",
    "percentage" := "value",
    "currency" := "value",
    "date" := "datevalue",
    "time" := "timevalue",
    "boolean" := "booleanvalue"]

  function GetAttribute(c: Cell, name: string): (r: Option<string>)
  {
    if name in c.attrs then Some(c.attrs[name]) else None
  }

  /** `convert`: an absent attribute stays None, numeric tags keep their literal as a Float, booleans are compared with "true". */
  function Convert(value: Option<string>, valueType: string): (v: Value)
    ensures v.Null? <==> value.None?
    ensures v.Float? <==> value.Some? && valueType in NumericTypes
    ensures v.Float? ==> v.literal == value.value
    ensures v.Bool? <==> value.Some? && valueType == "boolean"
    ensures v.Bool? ==> (v.b <==> value.value == "true")
    ensures v.Text? ==> v.s == value.value
  {
    match value
    case None => Null
    case Some(raw) =>
      if valueType in NumericTypes then Float(raw)
      else if valueType == "boolean" then Bool(raw == "true")
      else Text(raw)
  }

  /** The data of every text-node child of every paragraph, in document order. */
  function TextNodes(ps: seq<Paragraph>): (r: seq<string>)
  {
    if ps == [] then [] else TextNodes(ps[..|ps| - 1]) + ParagraphText(ps[|ps| - 1])
  }

  function ParagraphText(p: Paragraph): (r: seq<string>)
  {
    if p == [] then []
    else ParagraphText(p[..|p| - 1]) + (if p[|p| - 1].TextNode? then [p[|p| - 1].data] else [])
  }

  /** `sep.join(parts)`. */
  function Join(parts: seq<string>, sep: char): (s: string)
  {
    if parts == [] then ""
    else if |parts| == 1 then parts[0]
    else parts[0] + [sep] + Join(parts[1..], sep)
  }

  /** `s.split(sep)`: the inverse of Join for parts free of the separator. */
  function Split(s: string, sep: char): (r: seq<string>)
    ensures |r| >= 1
  {
    if s == [] then [""]
    else
      var rest := Split(s[1..], sep);
      if s[0] == sep then [""] + rest else [[s[0]] + rest[0]] + rest[1..]
  }

  /**
   * `plaintext`: the text nodes joined by newlines.  No text node gives the
   * empty string; newline-free text nodes can be split back out of it.
   */
  function PlainText(ps: seq<Paragraph>): (s: string)
    ensures TextNodes(ps) == [] ==> s == ""
    ensures |TextNodes(ps)| >= 1 && (forall k :: 0 <= k < |TextNodes(ps)| ==> '\n' !in TextNodes(ps)[k]) ==>
              Split(s, '\n') == TextNodes(ps)
  {
    var parts := TextNodes(ps);
    if |parts| >= 1 && forall k :: 0 <= k < |parts| ==> '\n' !in parts[k] then
      SplitJoin(parts, '\n');
      Join(parts, '\n')
    else
      Join(parts, '\n')
  }

  /** `getvalue`: dispatch on the value-type tag. */
  function DecodeCell(c: Cell): (r: Result<Value, ImportError>)
    ensures c.valueType.None? ==> r == Ok(Null)
    ensures r.Err? <==> c.valueType.Some? && c.valueType.value !in TypeValueMap
    ensures r.Err? ==> r.error == KeyError(c.valueType.value)
    ensures c.valueType == Some("string") ==> r == Ok(Text(PlainText(c.paragraphs)))
    ensures r == Ok(Bool(true)) <==>
              c.valueType == Some("boolean") && GetAttribute(c, "booleanvalue") == Some("true")
    ensures r.Ok? && r.value.Bool? ==>
              c.valueType == Some("boolean") && GetAttribute(c, "booleanvalue").Some?
    ensures r.Ok? && r.value.Float? ==>
              c.valueType.value in NumericTypes && GetAttribute(c, "value") == Some(r.value.literal)
  {
    match c.valueType
    case None => Ok(Null)
    case Some(t) =>
      if t == "string" then Ok(Text(PlainText(c.paragraphs)))
      else if t in TypeValueMap then Ok(Convert(GetAttribute(c, TypeValueMap[t]), t))
      else Err(KeyError(t))
  }

  /** The closed set of value types of section 19.385 of OpenDocument v1.2 Part 1. */
  datatype ValueType =
    | StringType | FloatType | PercentageType | CurrencyType | DateType | TimeType | BooleanType

  function TagOf(t: ValueType): (tag: string)
  {
    match t
    case StringType => "string"
    case FloatType => "float"
    case PercentageType => "percentage"
    case CurrencyType => "currency"
    case DateType => "date"
    case TimeType => "time"
    case BooleanType => "boolean"
  }

  function ParseTag(tag: string): (t: Option<ValueType>)
  {
    if tag == "string" then Some(StringType)
    else if tag == "float" then Some(FloatType)
    else if tag == "percentage" then Some(PercentageType)
    else if tag == "currency" then Some(CurrencyType)
    else if tag == "date" then Some(DateType)
    else if tag == "time" then Some(TimeType)
    else if tag == "boolean" then Some(BooleanType)
    else None
  }

  /** The tags the dispatch table knows are exactly the spellings of the closed set. */
  lemma ParseTagMatchesTable(tag: string)
    ensures ParseTag(tag).Some? <==> tag in TypeValueMap
    ensures ParseTag(tag).Some? ==> TagOf(ParseTag(tag).value) == tag
  {
  }

  lemma ParseTagOfTag(t: ValueType)
    ensures ParseTag(TagOf(t)) == Some(t)
  {
  }

  /** One handler per value type: the reference decoder for a known tag. */
  function DecodeTyped(t: ValueType, c: Cell): (v: Value)
  {
    match t
    case StringType => Text(PlainText(c.paragraphs))
    case FloatType | PercentageType | CurrencyType =>
      (match GetAttribute(c, "value") case None => Null case Some(raw) => Float(raw))
    case DateType =>
      (match GetAttribute(c, "datevalue") case None => Null case Some(raw) => Text(raw))
    case TimeType =>
      (match GetAttribute(c, "timevalue") case None => Null case Some(raw) => Text(raw))
    case BooleanType =>
      (match GetAttribute(c, "booleanvalue") case None => Null case Some(raw) => Bool(raw == "true"))
  }

  /** The string-keyed dispatch agrees with the closed-variant decoder on every cell. */
  lemma DecodeCellIsTyped(c: Cell)
    ensures DecodeCell(c) ==
      match c.valueType
      case None => Ok(Null)
      case Some(tag) =>
        match ParseTag(tag)
        case None => Err(KeyError(tag))
        case Some(t) => Ok(DecodeTyped(t, c))
  {
  }

  /** A boolean cell is true exactly for the raw text "true"; any other text is false. */
  lemma BooleanCellDecode(c: Cell, raw: string)
    requires c.valueType == Some("boolean") && GetAttribute(c, "booleanvalue") == Some(raw)
    ensures DecodeCell(c) == Ok(Bool(raw == "true"))
  {
  }

  /** Date and time cells give their raw attribute back unchanged. */
  lemma DateTimeCellPassesThrough(c: Cell, raw: string)
    requires || (c.valueType == Some("date") && GetAttribute(c, "datevalue") == Some(raw))
             || (c.valueType == Some("time") && GetAttribute(c, "timevalue") == Some(raw))
    ensures DecodeCell(c) == Ok(Text(raw))
  {
  }

  /** A known, non-string tag whose value attribute is absent decodes to None, not to a default. */
  lemma AbsentAttributeIsNull(c: Cell)
    requires c.valueType.Some? && c.valueType.value in TypeValueMap && c.valueType.value != "string"
    requires TypeValueMap[c.valueType.value] !in c.attrs
    ensures DecodeCell(c) == Ok(Null)
  {
  }

  lemma {:induction false} SplitNoSep(s: string, sep: char)
    requires sep !in s
    ensures Split(s, sep) == [s]
    decreases |s|
  {
    if s != [] {
      SplitNoSep(s[1..], sep);
      assert [s[0]] + s[1..] == s;
    }
  }

  lemma {:induction false} SplitAfterPart(p: string, sep: char, t: string)
    requires sep !in p
    ensures Split(p + [sep] + t, sep) == [p] + Split(t, sep)
    decreases |p|
  {
    var s := p + [sep] + t;
    if p == [] {
      assert s[1..] == t;
    } else {
      assert s[1..] == p[1..] + [sep] + t;
      SplitAfterPart(p[1..], sep, t);
      assert [p[0]] + p[1..] == p;
    }
  }

  /** Splitting the joined text on the separator gives the parts back, when no part holds it. */
  lemma {:induction false} SplitJoin(parts: seq<string>, sep: char)
    requires |parts| >= 1
    requires forall k :: 0 <= k < |parts| ==> sep !in parts[k]
    ensures Split(Join(parts, sep), sep) == parts
    decreases |parts|
  {
    if |parts| == 1 {
      SplitNoSep(parts[0], sep);
    } else {
      SplitJoin(parts[1..], sep);
      SplitAfterPart(parts[0], sep, Join(parts[1..], sep));
    }
  }

  /** How many times `ch` occurs in `s`. */
  function Count(s: string, ch: char): (n: nat)
  {
    if s == [] then 0 else Count(s[..|s| - 1], ch) + (if s[|s| - 1] == ch then 1 else 0)
  }

  lemma {:induction false} CountAppend(a: string, b: string, ch: char)
    ensures Count(a + b, ch) == Count(a, ch) + Count(b, ch)
    decreases |b|
  {
    if b == [] {
      assert a + b == a;
    } else {
      assert (a + b)[..|a + b| - 1] == a + b[..|b| - 1];
      CountAppend(a, b[..|b| - 1], ch);
    }
  }

  /** The newline count of the joined text: text nodes free of newlines are separated by exactly one newline each. */
  lemma {:induction false} JoinNewlineCount(parts: seq<string>)
    requires |parts| >= 1
    requires forall k :: 0 <= k < |parts| ==> '\n' !in parts[k]
    ensures Count(Join(parts, '\n'), '\n') == |parts| - 1
    decreases |parts|
  {
    if |parts| == 1 {
      NoCharCount(parts[0], '\n');
    } else {
      JoinNewlineCount(parts[1..]);
      CountAppend(parts[0] + ['\n'], Join(parts[1..], '\n'), '\n');
      CountAppend(parts[0], ['\n'], '\n');
      NoCharCount(parts[0], '\n');
      assert ['\n'][..0] == [];
    }
  }

  lemma {:induction false} NoCharCount(s: string, ch: char)
    requires ch !in s
    ensures Count(s, ch) == 0
    decreases |s|
  {
    if s != [] {
      assert s[|s| - 1] in s;
      NoCharCount(s[..|s| - 1], ch);
    }
  }
}

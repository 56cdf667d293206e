/**
 JSON text: what the parser makes of every text, what the printer makes of a value, and that parsing
 undoes printing.
 */
module Json {
  import opened Bytes
  import opened ByteCode

  /** A parsed value. The conversion of fractions and hexadecimal numbers is not modelled. */
  datatype Json =
    | Null
    | Bool(b: bool)
    | Num(n: int)
    | Other(text: string)
    | Str(s: string)
    | Arr(items: seq<Json>)
    | Obj(fields: seq<Field>)

  datatype Field = Field(name: string, value: Json)

  /** A value with the text that is left, or an exception. */
  datatype Parsed<+T> = Parsed(value: T, rest: string) | Failed

  predicate IsSpace(c: char) {
    c == ' ' || '\t' <= c <= '\r'
  }

  predicate IsDigit(c: char) {
    '0' <= c <= '9'
  }

  predicate IsDelimiter(c: char) {
    c == ':' || c == ',' || c == '}' || c == ']'
  }

  const BACKSPACE: char := '\U{8}'
  const FORM_FEED: char := '\U{C}'

  // ---------------------------------------------------------------------------------------------
  // Words

  datatype Flags = Flags(
    isNumber: bool, isHex: bool, isFloat: bool, isNegative: bool, hasExp: bool, hasExpSign: bool, length: nat)

  const NO_FLAGS := Flags(false, false, false, false, false, false, 0)

  /** The flags after one more character, or None if the word is not a number. */
  function NextFlags(f: Flags, c: char): Option<Flags> {
    var next := f.(length := f.length + 1);
    if IsDigit(c) then Some(next.(isNumber := true))
    else if c == '-' && !f.isNumber then Some(next.(isNegative := true))
    else if c == '+' && !f.isNumber then Some(next)
    else if (c == '-' || c == '+') && f.hasExp && !f.hasExpSign then Some(next.(hasExpSign := true))
    else if (c == '.' || c == ',') && f.isNumber && !f.isFloat then Some(next.(isFloat := true))
    else if (c == 'e' || c == 'E') && f.isNumber && !f.hasExp && !f.isHex then
      Some(next.(isFloat := true, hasExp := true))
    else if c == 'x' && f.isNumber && !f.isHex && f.length == 1 then Some(next.(isHex := true))
    else if f.isHex then Some(next) // the check for hexadecimal digits never fails
    else None
  }

  function FlagsOf(word: string, f: Flags): Option<Flags> {
    if word == [] then Some(f)
    else
      var next := NextFlags(f, word[0]);
      if next.None? then None else FlagsOf(word[1..], next.value)
  }

  /** The number in a run of digits, as far as they go. */
  function DigitsValue(word: string, n: nat): nat {
    if word == [] || !IsDigit(word[0]) then n
    else DigitsValue(word[1..], 10 * n + (word[0] as nat - '0' as nat))
  }

  /** `stoll` and `stoull` to base 10: one sign at most, then digits, and the result must fit. */
  function ToInteger(word: string, isNegative: bool): Option<int> {
    var sign := word != [] && (word[0] == '-' || word[0] == '+');
    var digits := if sign then word[1..] else word;
    if digits == [] || !IsDigit(digits[0]) then None
    else
      var n: int := if word[0] == '-' then 0 - DigitsValue(digits, 0) else DigitsValue(digits, 0);
      if (if isNegative then -0x8000_0000_0000_0000 <= n < 0x8000_0000_0000_0000 else n < 0x1_0000_0000_0000_0000)
      then Some(n) else None
  }

  /** A word without quotes: a number, a literal, or a string; None if a number does not fit. */
  function WordValue(word: string): Option<Json> {
    var flags := FlagsOf(word, NO_FLAGS);
    if flags.Some? && flags.value.isNumber then
      if flags.value.isFloat || flags.value.isHex then Some(Other(word))
      else
        var n := ToInteger(word, flags.value.isNegative);
        if n.None? then None else Some(Num(n.value))
    else if word == "true" then Some(Bool(true))
    else if word == "false" then Some(Bool(false))
    else if word == "null" then Some(Null)
    else Some(Str(word))
  }

  // ---------------------------------------------------------------------------------------------
  // The parser

  /** How the scan of one value ends. */
  datatype Scanned =
    | StringEnd(value: string, rest: string)
    | WordEnd(value: string, rest: string)
    | ArrayAt(rest: string)
    | ObjectAt(rest: string)

  function Unescape(c: char): char {
    if c == 't' then '\t'
    else if c == 'r' then '\r'
    else if c == 'n' then '\n'
    else if c == 'b' then BACKSPACE
    else if c == 'f' then FORM_FEED
    else c
  }

  function Scan(text: string, value: string, isString: bool, escape: bool): (r: Scanned)
    ensures |r.rest| <= |text|
    ensures (r.StringEnd? || (r.WordEnd? && value == [] && r.value != [])) ==> |r.rest| < |text|
    ensures (r.ArrayAt? ==> r.rest != [] && r.rest[0] == '[') && (r.ObjectAt? ==> r.rest != [] && r.rest[0] == '{')
    decreases |text|
  {
    if text == [] then WordEnd(value, text)
    else
      var c, rest := text[0], text[1..];
      if isString then
        if c == '"' && !escape then StringEnd(value, rest)
        else if c == '\\' && !escape then Scan(rest, value, true, true)
        else Scan(rest, value + [if escape then Unescape(c) else c], true, false)
      else if c == '"' then Scan(rest, value, true, escape)
      else if c == '[' then ArrayAt(text)
      else if c == '{' then ObjectAt(text)
      else if IsDelimiter(c) then WordEnd(value, text)
      else Scan(rest, if IsSpace(c) then value else value + [c], false, false)
  }

  /** `read_json_ex`; no value at all is None. */
  function ReadJson(text: string, depth: nat): (r: Parsed<Option<Json>>)
    ensures r.Parsed? ==> |r.rest| <= |text| && (r.value.Some? ==> |r.rest| < |text|)
    decreases |text|, 2
  {
    if depth + 1 > MAX_RECURSION then Failed
    else
      match Scan(text, "", false, false)
      case StringEnd(value, rest) => Parsed(Some(Str(value)), rest)
      case ArrayAt(rest) =>
        var r := ReadItems(rest[1..], [], depth + 1);
        if r.Parsed? then Parsed(Some(Arr(r.value)), r.rest) else Failed
      case ObjectAt(rest) =>
        var r := ReadFields(rest[1..], [], depth + 1);
        if r.Parsed? then Parsed(Some(Obj(r.value)), r.rest) else Failed
      case WordEnd(value, rest) =>
        if value == [] then Parsed(None, rest)
        else
          var v := WordValue(value);
          if v.None? then Failed else Parsed(v, rest)
  }

  /** The loop of `read_array`, behind the opening bracket. */
  function ReadItems(text: string, items: seq<Json>, depth: nat): (r: Parsed<seq<Json>>)
    ensures r.Parsed? ==> |r.rest| <= |text|
    decreases |text|, 3
  {
    if text == [] then Failed
    else if text[0] == ']' then Parsed(items, text[1..])
    else if IsSpace(text[0]) || text[0] == ',' then ReadItems(text[1..], items, depth)
    else
      var r := ReadJson(text, depth);
      if r.Failed? then Failed
      else if r.value.None? then Parsed(items, r.rest)
      else ReadItems(r.rest, items + [r.value.value], depth)
  }

  /** Skips spaces up to one of the two characters; the text behind it, or None. */
  function SkipTo(text: string, a: char, b: char): (r: Option<(char, string)>)
    ensures r.Some? ==> |r.value.1| < |text| && (r.value.0 == a || r.value.0 == b)
  {
    if text == [] then None
    else if text[0] == a || text[0] == b then Some((text[0], text[1..]))
    else if IsSpace(text[0]) then SkipTo(text[1..], a, b)
    else None
  }

  /** The loop of `read_object`, behind the opening brace. A name that is not a string is skipped. */
  function ReadFields(text: string, fields: seq<Field>, depth: nat): (r: Parsed<seq<Field>>)
    ensures r.Parsed? ==> |r.rest| <= |text|
    decreases |text|, 3
  {
    var name := ReadJson(text, depth);
    if name.Failed? then Failed
    else
      var one := if name.value.Some? && name.value.value.Str? then
                   ReadField(name.value.value.s, name.rest, fields, depth)
                 else Parsed(fields, name.rest);
      if one.Failed? then Failed
      else
        var end := SkipTo(one.rest, ',', '}');
        if end.None? then Failed
        else if end.value.0 == '}' then Parsed(one.value, end.value.1)
        else ReadFields(end.value.1, one.value, depth)
  }

  /** What comes after the name of a field. */
  function ReadField(name: string, text: string, fields: seq<Field>, depth: nat): (r: Parsed<seq<Field>>)
    ensures r.Parsed? ==> |r.rest| <= |text|
    decreases |text|, 1
  {
    var colon := SkipTo(text, ':', ':');
    if colon.None? then Failed
    else
      var r := ReadJson(colon.value.1, depth);
      if r.Failed? || r.value.None? then Failed else Parsed(Insert(fields, name, r.value.value), r.rest)
  }

  /** Names in the order of a `std::map`. */
  predicate Less(a: string, b: string) {
    if a == [] || b == [] then a == [] && b != []
    else if a[0] != b[0] then a[0] < b[0]
    else Less(a[1..], b[1..])
  }

  function Insert(fields: seq<Field>, name: string, value: Json): seq<Field> {
    if fields == [] || Less(name, fields[0].name) then [Field(name, value)] + fields
    else if fields[0].name == name then [Field(name, value)] + fields[1..]
    else [fields[0]] + Insert(fields[1..], name, value)
  }

  // ---------------------------------------------------------------------------------------------
  // The printer

  function Escape(c: char): string {
    if c == '\t' then "\\t"
    else if c == '\r' then "\\r"
    else if c == '\n' then "\\n"
    else if c == BACKSPACE then "\\b"
    else if c == FORM_FEED then "\\f"
    else if c == '"' || c == '\\' then ['\\', c]
    else [c]
  }

  function Escaped(s: string): string {
    if s == [] then [] else Escape(s[0]) + Escaped(s[1..])
  }

  function Digits(n: nat): (d: string)
    ensures |d| > 0 && forall c :: c in d ==> IsDigit(c)
  {
    if n < 10 then ['0' + n as char] else Digits(n / 10) + ['0' + (n % 10) as char]
  }

  function Print(j: Json): string
    decreases j, 1
  {
    match j
    case Null => "null"
    case Bool(b) => if b then "true" else "false"
    case Num(n) => if n < 0 then "-" + Digits(-n) else Digits(n)
    case Other(text) => text
    case Str(s) => "\"" + Escaped(s) + "\""
    case Arr(items) => "[" + PrintItems(items, 0)
    case Obj(fields) => "{" + PrintFields(fields, 0)
  }

  /** The items from the i-th on, and the closing bracket. */
  function PrintItems(items: seq<Json>, i: nat): (r: string)
    requires i <= |items|
    ensures r != []
    decreases items, 0, |items| - i
  {
    if i == |items| then "]" else (if i > 0 then ", " else "") + Print(items[i]) + PrintItems(items, i + 1)
  }

  function PrintFields(fields: seq<Field>, i: nat): (r: string)
    requires i <= |fields|
    ensures r != []
    decreases fields, 0, |fields| - i
  {
    if i == |fields| then "}"
    else
      (if i > 0 then ", " else "") + "\"" + fields[i].name + "\": " + Print(fields[i].value)
      + PrintFields(fields, i + 1)
  }
}

/** Parsing undoes printing. */
module JsonLaws {
  import opened Bytes
  import opened ByteCode
  import opened Json

  /** Names are printed as they are. */
  predicate PlainName(name: string) {
    forall c :: c in name ==> c != '"' && c != '\\'
  }

  /** Trees that are printed unambiguously, with numbers of 64 bits and fields in the order of a map. */
  predicate Printable(j: Json) {
    match j
    case Num(n) => -0x8000_0000_0000_0000 <= n < 0x1_0000_0000_0000_0000
    case Other(_) => false
    case Arr(items) => forall k :: 0 <= k < |items| ==> Printable(items[k])
    case Obj(fields) =>
      && SortedNames(fields)
      && forall k :: 0 <= k < |fields| ==> PlainName(fields[k].name) && Printable(fields[k].value)
    case _ => true
  }

  predicate SortedNames(fields: seq<Field>) {
    forall i, j :: 0 <= i < j < |fields| ==> Less(fields[i].name, fields[j].name)
  }

  function Levels(j: Json): nat
    decreases j, 1
  {
    match j
    case Arr(items) => 1 + LevelsOfItems(items, 0)
    case Obj(fields) => 1 + LevelsOfFields(fields, 0)
    case _ => 1
  }

  function LevelsOfItems(items: seq<Json>, i: nat): (n: nat)
    requires i <= |items|
    decreases items, 0, |items| - i
  {
    if i == |items| then 0 else Max(Levels(items[i]), LevelsOfItems(items, i + 1))
  }

  /** A name takes a level of its own. */
  function LevelsOfFields(fields: seq<Field>, i: nat): (n: nat)
    requires i <= |fields|
    ensures n > 0
    decreases fields, 0, |fields| - i
  {
    if i == |fields| then 1 else Max(Levels(fields[i].value), LevelsOfFields(fields, i + 1))
  }

  /** Text in front of which a word ends. */
  predicate Stops(rest: string) {
    rest == [] || IsDelimiter(rest[0])
  }

  /** Strings. */
  lemma {:induction false} ScanEscaped(s: string, value: string, rest: string)
    ensures Scan(Escaped(s) + "\"" + rest, value, true, false) == StringEnd(value + s, rest)
    decreases s
  {
    if s == [] {
      assert Escaped(s) + "\"" + rest == ['"'] + rest;
      assert value + s == value;
    } else {
      var c, more := s[0], Escaped(s[1..]) + "\"" + rest;
      var text := Escape(c) + more;
      assert Escaped(s) + "\"" + rest == text;
      ScanEscaped(s[1..], value + [c], rest);
      assert value + [c] + s[1..] == value + s;
      hide Escaped;
      ScanEscape(c, value, more);
    }
  }

  lemma {:induction false} ScanEscape(c: char, value: string, more: string)
    ensures Scan(Escape(c) + more, value, true, false) == Scan(more, value + [c], true, false)
  {
    var e := Escape(c);
    if |e| == 2 {
      var text := e + more;
      assert text[0] == '\\' && text[1] == e[1] && text[1..] == [e[1]] + more;
      ScanEscapedChar(e[1], value, more);
      assert Unescape(e[1]) == c;
    } else {
      assert (e + more)[1..] == more;
    }
  }

  lemma ScanEscapedChar(c: char, value: string, more: string)
    ensures Scan([c] + more, value, true, true) == Scan(more, value + [Unescape(c)], true, false)
  {
    assert ([c] + more)[1..] == more;
  }

  /** Names. */
  lemma {:induction false} ScanName(name: string, value: string, rest: string)
    requires PlainName(name)
    ensures Scan(name + "\"" + rest, value, true, false) == StringEnd(value + name, rest)
    decreases name
  {
    if name == [] {
      assert name + "\"" + rest == ['"'] + rest;
      assert value + name == value;
    } else {
      assert name[0] in name && forall c :: c in name[1..] ==> c in name;
      ScanName(name[1..], value + [name[0]], rest);
      assert (name + "\"" + rest)[1..] == name[1..] + "\"" + rest;
      assert value + [name[0]] + name[1..] == value + name;
    }
  }

  /** Words: no character of a word ends it. */
  predicate Plain(word: string) {
    forall c :: c in word ==> !IsDelimiter(c) && !IsSpace(c) && c != '"' && c != '[' && c != '{'
  }

  lemma {:induction false} ScanWord(word: string, value: string, rest: string)
    requires Plain(word) && Stops(rest)
    ensures Scan(word + rest, value, false, false) == WordEnd(value + word, rest)
    decreases word
  {
    if word == [] {
      assert word + rest == rest && value + word == value;
    } else {
      assert word[0] in word && forall c :: c in word[1..] ==> c in word;
      ScanWord(word[1..], value + [word[0]], rest);
      assert (word + rest)[1..] == word[1..] + rest;
      assert value + [word[0]] + word[1..] == value + word;
    }
  }

  // ---------------------------------------------------------------------------------------------
  // Numbers

  lemma {:induction false} DigitsValueAppend(word: string, c: char, n: nat)
    requires IsDigit(c) && forall d :: d in word ==> IsDigit(d)
    ensures DigitsValue(word + [c], n) == 10 * DigitsValue(word, n) + (c as nat - '0' as nat)
    decreases word
  {
    if word == [] {
      assert word + [c] == [c] && [c][1..] == [];
    } else {
      assert (word + [c])[1..] == word[1..] + [c];
      assert IsDigit(word[0]);
      DigitsValueAppend(word[1..], c, 10 * n + (word[0] as nat - '0' as nat));
    }
  }

  lemma {:induction false} DigitsValueOfDigits(n: nat)
    ensures DigitsValue(Digits(n), 0) == n
  {
    if n < 10 {
      assert Digits(n)[1..] == [];
    } else {
      DigitsValueOfDigits(n / 10);
      DigitsValueAppend(Digits(n / 10), '0' + (n % 10) as char, 0);
    }
  }

  lemma {:induction false} FlagsOfDigits(word: string, f: Flags)
    requires forall d :: d in word ==> IsDigit(d)
    ensures FlagsOf(word, f) == Some(f.(isNumber := f.isNumber || word != [], length := f.length + |word|))
    decreases word
  {
    if word != [] {
      FlagsOfDigits(word[1..], f.(isNumber := true, length := f.length + 1));
    }
  }

  /** Every printed integer is one word, which is read as that number exactly if it fits in 64 bits. */
  lemma {:induction false} WordOfInteger(n: int)
    ensures Plain(Print(Num(n))) && Print(Num(n)) != []
    ensures WordValue(Print(Num(n)))
            == if -0x8000_0000_0000_0000 <= n < 0x1_0000_0000_0000_0000 then Some(Num(n)) else None
  {
    var word := Print(Num(n));
    if n < 0 {
      var digits := Digits(-n);
      DigitsValueOfDigits(-n);
      FlagsOfDigits(digits, NO_FLAGS.(isNegative := true, length := 1));
      assert word[0] == '-' && word[1..] == digits;
      assert FlagsOf(word, NO_FLAGS) == FlagsOf(digits, NO_FLAGS.(isNegative := true, length := 1));
      assert digits[0] in digits;
    } else {
      DigitsValueOfDigits(n);
      FlagsOfDigits(word, NO_FLAGS);
      assert word[0] in word;
    }
  }

  lemma WordOfNumber(n: int)
    requires -0x8000_0000_0000_0000 <= n < 0x1_0000_0000_0000_0000
    ensures Plain(Print(Num(n))) && Print(Num(n)) != [] && WordValue(Print(Num(n))) == Some(Num(n))
  {
    hide *;
    WordOfInteger(n);
  }

  lemma WordOfLiteral(j: Json)
    requires j.Null? || j.Bool?
    ensures Plain(Print(j)) && Print(j) != [] && WordValue(Print(j)) == Some(j)
  {
    var word := Print(j);
    assert NextFlags(NO_FLAGS, word[0]).None?;
    assert FlagsOf(word, NO_FLAGS).None?;
  }

  // ---------------------------------------------------------------------------------------------
  // Trees

  /** What reading back gives, at a depth of so many levels. */
  function Expected<T>(value: T, rest: string, levels: nat): Parsed<T> {
    if levels <= MAX_RECURSION then Parsed(value, rest) else Failed
  }

  lemma SpaceSkipped(text: string, depth: nat)
    ensures ReadJson([' '] + text, depth) == ReadJson(text, depth)
  {
    hide ReadItems, ReadFields;
    assert ([' '] + text)[1..] == text;
    assert Scan([' '] + text, "", false, false) == Scan(text, "", false, false);
  }

  lemma {:induction false} ReadQuoted(text: string, s: string, rest: string, depth: nat)
    requires Scan(text, "", true, false) == StringEnd(s, rest)
    ensures ReadJson(['"'] + text, depth) == Expected(Some(Str(s)), rest, depth + 1)
  {
    hide ReadItems, ReadFields;
    assert (['"'] + text)[1..] == text;
    assert Scan(['"'] + text, "", false, false) == Scan(text, "", true, false);
  }

  lemma {:induction false} ReadString(s: string, rest: string, depth: nat)
    ensures ReadJson(Print(Str(s)) + rest, depth) == Expected(Some(Str(s)), rest, depth + 1)
  {
    hide ReadJson, Scan, Escaped;
    ScanEscaped(s, "", rest);
    assert "" + s == s;
    assert Print(Str(s)) + rest == ['"'] + (Escaped(s) + "\"" + rest);
    ReadQuoted(Escaped(s) + "\"" + rest, s, rest, depth);
  }

  lemma {:induction false} ReadName(name: string, rest: string, depth: nat)
    requires PlainName(name)
    ensures ReadJson("\"" + name + "\"" + rest, depth) == Expected(Some(Str(name)), rest, depth + 1)
  {
    hide ReadJson, Scan, PlainName;
    ScanName(name, "", rest);
    assert "" + name == name;
    assert "\"" + name + "\"" + rest == ['"'] + (name + "\"" + rest);
    ReadQuoted(name + "\"" + rest, name, rest, depth);
  }

  lemma {:induction false} ReadWord(word: string, j: Json, rest: string, depth: nat)
    requires Plain(word) && word != [] && WordValue(word) == Some(j) && Stops(rest)
    ensures ReadJson(word + rest, depth) == Expected(Some(j), rest, depth + 1)
  {
    hide ReadItems, ReadFields, WordValue;
    ScanWord(word, "", rest);
    assert "" + word == word;
  }

  /** A printed value does not start with something a list skips or ends at. */
  lemma {:induction false} FirstChar(j: Json)
    requires Printable(j)
    ensures Print(j) != [] && Print(j)[0] != ']' && Print(j)[0] != ',' && !IsSpace(Print(j)[0])
  {
    if j.Num? {
      WordOfNumber(j.n);
      assert Print(j)[0] in Print(j);
    } else if j.Null? || j.Bool? {
      WordOfLiteral(j);
      assert Print(j)[0] in Print(j);
    }
  }

  lemma ItemsStop(items: seq<Json>, i: nat, rest: string)
    requires i <= |items| && (i > 0 || items == [])
    ensures Stops(PrintItems(items, i) + rest)
  {
    hide Print;
  }

  lemma FieldsStop(fields: seq<Field>, i: nat, rest: string)
    requires 0 < i <= |fields|
    ensures Stops(PrintFields(fields, i) + rest)
  {
    hide Print;
  }

  /**
   Parsing a printed tree gives the tree back and stops right behind it, unless it is nested too
   deeply; then it throws.
   */
  lemma {:induction false} ReadPrinted(j: Json, rest: string, depth: nat)
    requires Printable(j) && Stops(rest)
    ensures ReadJson(Print(j) + rest, depth) == Expected(Some(j), rest, depth + Levels(j))
    decreases j, 1
  {
    hide ReadJson, Print, PrintItems, PrintFields, ReadItems, ReadFields, Stops, Plain, WordValue;
    match j
    case Str(s) => ReadString(s, rest, depth);
    case Num(n) =>
      WordOfNumber(n);
      ReadWord(Print(j), j, rest, depth);
    case Arr(items) =>
      if depth + 1 <= MAX_RECURSION {
        ReadPrintedItems(items, 0, rest, depth + 1);
      }
      ReadArray(items, rest, depth);
    case Obj(fields) =>
      if depth + 1 <= MAX_RECURSION {
        ReadPrintedFields(fields, 0, rest, depth + 1);
      }
      ReadObject(fields, rest, depth);
    case _ =>
      WordOfLiteral(j);
      ReadWord(Print(j), j, rest, depth);
  }

  lemma {:induction false} ReadArray(items: seq<Json>, rest: string, depth: nat)
    requires depth + 1 <= MAX_RECURSION ==>
               ReadItems(PrintItems(items, 0) + rest, [], depth + 1)
               == Expected(items, rest, depth + 1 + LevelsOfItems(items, 0))
    ensures ReadJson(Print(Arr(items)) + rest, depth)
            == Expected(Some(Arr(items)), rest, depth + 1 + LevelsOfItems(items, 0))
  {
    hide ReadItems, ReadFields, PrintItems, LevelsOfItems;
    var text := Print(Arr(items)) + rest;
    assert text[1..] == PrintItems(items, 0) + rest && text[0] == '[';
  }

  lemma {:induction false} ReadObject(fields: seq<Field>, rest: string, depth: nat)
    requires depth + 1 <= MAX_RECURSION ==>
               ReadFields(PrintFields(fields, 0) + rest, [], depth + 1)
               == Expected(fields, rest, depth + 1 + LevelsOfFields(fields, 0))
    ensures ReadJson(Print(Obj(fields)) + rest, depth)
            == Expected(Some(Obj(fields)), rest, depth + 1 + LevelsOfFields(fields, 0))
  {
    hide ReadItems, ReadFields, PrintFields, LevelsOfFields;
    var text := Print(Obj(fields)) + rest;
    assert text[1..] == PrintFields(fields, 0) + rest && text[0] == '{';
  }

  lemma {:induction false} ReadPrintedItems(items: seq<Json>, i: nat, rest: string, depth: nat)
    requires i <= |items| && depth <= MAX_RECURSION
    requires forall k :: 0 <= k < |items| ==> Printable(items[k])
    ensures ReadItems(PrintItems(items, i) + rest, items[..i], depth)
            == Expected(items, rest, depth + LevelsOfItems(items, i))
    decreases items, 0, |items| - i
  {
    hide ReadJson, ReadItems, Print, PrintItems, Levels, LevelsOfItems, Printable;
    ItemsNext(items, i, rest);
    if i == |items| {
      ItemsEnd(items, rest, depth);
      assert items[..i] == items;
    } else {
      var tail := PrintItems(items, i + 1) + rest;
      ItemsStop(items, i + 1, rest);
      FirstChar(items[i]);
      ReadPrinted(items[i], tail, depth);
      var text := Print(items[i]) + tail;
      assert items[..i] + [items[i]] == items[..i + 1];
      if depth + Levels(items[i]) <= MAX_RECURSION {
        ReadPrintedItems(items, i + 1, rest, depth);
      }
      OneItem(items, i, text, tail, depth);
      SeparatorSkipped(text, items[..i], depth);
    }
  }

  lemma ItemsNext(items: seq<Json>, i: nat, rest: string)
    requires i <= |items|
    ensures LevelsOfItems(items, i) == if i == |items| then 0 else Max(Levels(items[i]), LevelsOfItems(items, i + 1))
    ensures PrintItems(items, i) + rest ==
              if i == |items| then "]" + rest
              else (if i > 0 then ", " else "") + (Print(items[i]) + (PrintItems(items, i + 1) + rest))
  {
    hide Print, Levels;
    if i < |items| {
      Regroup(if i > 0 then ", " else "", Print(items[i]), PrintItems(items, i + 1), rest);
    }
  }

  lemma Regroup(a: string, b: string, c: string, d: string)
    ensures a + b + c + d == a + (b + (c + d))
  {
  }

  lemma ItemsEnd(items: seq<Json>, rest: string, depth: nat)
    ensures ReadItems("]" + rest, items, depth) == Parsed(items, rest)
  {
    hide ReadJson;
    assert ("]" + rest)[1..] == rest;
  }

  lemma {:induction false} OneItem(items: seq<Json>, i: nat, text: string, tail: string, depth: nat)
    requires i < |items| && text != [] && text[0] != ']' && text[0] != ',' && !IsSpace(text[0])
    requires ReadJson(text, depth) == Expected(Some(items[i]), tail, depth + Levels(items[i]))
    ensures ReadItems(text, items[..i], depth) ==
              if depth + Levels(items[i]) <= MAX_RECURSION then ReadItems(tail, items[..i] + [items[i]], depth)
              else Failed
  {
    hide ReadJson, Levels;
  }

  lemma {:induction false} SeparatorSkipped(text: string, items: seq<Json>, depth: nat)
    ensures ReadItems(", " + text, items, depth) == ReadItems(text, items, depth)
    ensures "" + text == text
  {
    hide ReadJson;
    assert (", " + text)[1..] == " " + text && (" " + text)[1..] == text;
  }

  /** A field behind all others of a sorted list is put at the end. */
  lemma {:induction false} InsertLast(fields: seq<Field>, f: Field)
    requires forall k :: 0 <= k < |fields| ==> Less(fields[k].name, f.name)
    ensures Insert(fields, f.name, f.value) == fields + [f]
  {
    if fields != [] {
      LessIsStrict(fields[0].name, f.name);
      InsertLast(fields[1..], f);
      assert fields == [fields[0]] + fields[1..];
    }
  }

  lemma {:induction false} LessIsStrict(a: string, b: string)
    requires Less(a, b)
    ensures a != b && !Less(b, a)
  {
    if a != [] && b != [] && a[0] == b[0] {
      LessIsStrict(a[1..], b[1..]);
    }
  }

  /** Names are ordered at the first character in which they differ, or else by length. */
  lemma {:induction false} LessExactly(a: string, b: string, k: nat)
    requires k <= |a| && k <= |b| && a[..k] == b[..k]
    requires k < |a| && k < |b| ==> a[k] != b[k]
    ensures Less(a, b) <==> if k < |a| && k < |b| then a[k] < b[k] else |a| < |b|
  {
    if k > 0 {
      assert a[..k][0] == a[0] && b[..k][0] == b[0];
      assert a[1..][..k - 1] == a[..k][1..] && b[1..][..k - 1] == b[..k][1..];
      LessExactly(a[1..], b[1..], k - 1);
    }
  }

  /** The fields from the i-th on, behind the opening brace or the comma. */
  lemma {:induction false} ReadPrintedFields(fields: seq<Field>, i: nat, rest: string, depth: nat)
    requires depth <= MAX_RECURSION && i <= |fields| && (i == |fields| ==> i == 0) && SortedNames(fields)
    requires forall k :: 0 <= k < |fields| ==> PlainName(fields[k].name) && Printable(fields[k].value)
    ensures ReadFields((PrintFields(fields, i) + rest)[if i > 0 then 1 else 0..], fields[..i], depth)
            == Expected(fields, rest, depth + LevelsOfFields(fields, i))
    decreases fields, 0, |fields| - i
  {
    hide ReadJson, ReadFields, ReadField, Print, PrintFields, Levels, LevelsOfFields, Printable, Insert, SkipTo, Less,
      PlainName, Stops;
    FieldsNext(fields, i);
    var text := (PrintFields(fields, i) + rest)[if i > 0 then 1 else 0..];
    if i == |fields| {
      assert text == "}" + rest && fields == [] && fields[..0] == [];
      NoFields(rest, depth);
    } else {
      var name, value, more := fields[i].name, fields[i].value, PrintFields(fields, i + 1) + rest;
      FieldText(fields, i, rest, text, more);
      ReadNameAfter(i > 0, name, ": " + Print(value) + more, depth);
      FieldsNext(fields, i + 1);
      FieldsStop(fields, i + 1, rest);
      ReadPrinted(value, more, depth);
      ReadValueAfter(name, Print(value) + more, fields[..i], value, more, depth, Levels(value));
      assert ": " + (Print(value) + more) == ": " + Print(value) + more;
      assert fields[..i] + [fields[i]] == fields[..i + 1];
      InsertLast(fields[..i], fields[i]);
      if i + 1 < |fields| {
        ReadPrintedFields(fields, i + 1, rest, depth);
      }
      FieldStep(text, name, ": " + Print(value) + more, fields[..i], fields[..i + 1], more, depth, Levels(value));
      AfterField(fields, i + 1, rest);
    }
  }

  lemma FieldsNext(fields: seq<Field>, i: nat)
    requires i <= |fields|
    ensures LevelsOfFields(fields, i) ==
              if i == |fields| then 1 else Max(Levels(fields[i].value), LevelsOfFields(fields, i + 1))
    ensures i == |fields| ==> PrintFields(fields, i) == "}"
  {
    hide Levels, Print;
    if i + 1 == |fields| {
      assert LevelsOfFields(fields, i + 1) == 1;
    }
  }

  lemma FieldText(fields: seq<Field>, i: nat, rest: string, text: string, more: string)
    requires i < |fields| && text == (PrintFields(fields, i) + rest)[if i > 0 then 1 else 0..]
    requires more == PrintFields(fields, i + 1) + rest
    ensures text ==
              (if i > 0 then " " else "") + ("\"" + fields[i].name + "\"" + (": " + Print(fields[i].value) + more))
  {
    hide Print;
    JoinText(if i > 0 then ", " else "", fields[i].name, Print(fields[i].value), PrintFields(fields, i + 1), rest);
  }

  lemma JoinText(separator: string, name: string, value: string, tail: string, rest: string)
    requires separator == ", " || separator == ""
    ensures (separator + "\"" + name + "\": " + value + tail + rest)[if separator == "" then 0 else 1..]
            == (if separator == "" then "" else " ") + ("\"" + name + "\"" + (": " + value + (tail + rest)))
  {
    var whole := separator + "\"" + name + "\": " + value + tail + rest;
    assert whole == separator + ("\"" + name + "\"" + (": " + value + (tail + rest)));
  }

  lemma {:induction false} ReadNameAfter(space: bool, name: string, tail: string, depth: nat)
    requires PlainName(name)
    ensures ReadJson((if space then " " else "") + ("\"" + name + "\"" + tail), depth)
            == Expected(Some(Str(name)), tail, depth + 1)
  {
    hide ReadJson;
    ReadName(name, tail, depth);
    SpaceSkipped("\"" + name + "\"" + tail, depth);
    assert "" + ("\"" + name + "\"" + tail) == "\"" + name + "\"" + tail;
  }

  lemma {:induction false} ReadValueAfter(
      name: string, text: string, fields: seq<Field>, value: Json, more: string, depth: nat, levels: nat)
    requires ReadJson(text, depth) == Expected(Some(value), more, depth + levels)
    ensures ReadField(name, ": " + text, fields, depth) == Expected(Insert(fields, name, value), more, depth + levels)
  {
    hide ReadJson, Insert;
    SpaceSkipped(text, depth);
    assert (": " + text)[1..] == [' '] + text;
    assert SkipTo(": " + text, ':', ':') == Some((':', [' '] + text));
  }

  lemma NoFields(rest: string, depth: nat)
    ensures ReadFields("}" + rest, [], depth) == Expected([], rest, depth + 1)
  {
    hide ReadField, ReadItems;
    var text := "}" + rest;
    assert text[1..] == rest;
    assert Scan(text, "", false, false) == WordEnd("", text);
  }

  lemma {:induction false} FieldStep(
      text: string, name: string, tail: string, before: seq<Field>, after: seq<Field>, more: string,
      depth: nat, levels: nat)
    requires ReadJson(text, depth) == Expected(Some(Str(name)), tail, depth + 1)
    requires ReadField(name, tail, before, depth) == Expected(after, more, depth + levels)
    ensures ReadFields(text, before, depth) ==
              if depth + 1 > MAX_RECURSION || depth + levels > MAX_RECURSION then Failed
              else
                var end := SkipTo(more, ',', '}');
                if end.None? then Failed
                else if end.value.0 == '}' then Parsed(after, end.value.1)
                else ReadFields(end.value.1, after, depth)
  {
    hide ReadJson, ReadField, SkipTo;
  }

  lemma AfterField(fields: seq<Field>, i: nat, rest: string)
    requires 0 < i <= |fields|
    ensures var more := PrintFields(fields, i) + rest;
            && more != []
            && SkipTo(more, ',', '}') == Some((if i < |fields| then ',' else '}', more[1..]))
            && (i == |fields| ==> more[1..] == rest && fields[..i] == fields)
  {
    hide Print;
  }

  /** A printed document is read back as the same tree, to the end, within the depth limit. */
  lemma {:induction false} RoundTrip(j: Json)
    requires Printable(j)
    ensures ReadJson(Print(j), 0) == if Levels(j) <= MAX_RECURSION then Parsed(Some(j), "") else Failed
  {
    hide ReadJson, Print, Levels, Printable;
    ReadPrinted(j, "", 0);
    assert Print(j) + "" == Print(j);
  }

  // ---------------------------------------------------------------------------------------------
  // Names that are printed as they are

  /** Scanning only adds to a value. */
  lemma {:induction false} ScanExtends(text: string, value: string, escape: bool)
    ensures var r := Scan(text, value, true, escape); (r.StringEnd? || r.WordEnd?) && value <= r.value
    decreases |text|
  {
    if text != [] {
      var c := text[0];
      if c == '\\' && !escape {
        ScanExtends(text[1..], value, true);
      } else if c != '"' || escape {
        ScanExtends(text[1..], value + [if escape then Unescape(c) else c], false);
      }
    }
  }

  function Backslashes(n: nat): string {
    seq(n, _ => '\\')
  }

  /** Of a run of n backslashes no more than n / 2 come back. */
  lemma {:induction false} HalfComesBack(n: nat, after: string, value: string)
    requires after != [] && after[0] != '\\'
    ensures var r := Scan(Backslashes(n) + after, value, true, false);
            && (r.StringEnd? || r.WordEnd?) && |r.value| >= |value|
            && (r.StringEnd? ==> |r.value| <= |value| + n / 2 || r.value[|value| + n / 2] != '\\')
  {
    var text := Backslashes(n) + after;
    ScanExtends(text, value, false);
    if n == 0 {
      assert text == after;
      if after[0] != '"' {
        ScanExtends(after[1..], value + [after[0]], false);
      }
    } else if n == 1 {
      assert text[0] == '\\' && text[1..] == after;
      var next := value + [Unescape(after[0])];
      ScanExtends(after[1..], next, false);
    } else {
      var rest := Backslashes(n - 2) + after;
      assert text[0] == '\\' && text[1..][0] == '\\' && text[1..][1..] == rest;
      ScanExtends(text[1..], value, true);
      HalfComesBack(n - 2, after, value + ['\\']);
    }
  }

  function LeadingBackslashes(s: string): (n: nat)
    ensures n <= |s| && s[..n] == Backslashes(n) && (n < |s| ==> s[n] != '\\')
  {
    if s == [] || s[0] != '\\' then 0
    else
      var n := LeadingBackslashes(s[1..]);
      assert s[..n + 1] == [s[0]] + s[1..][..n];
      n + 1
  }

  lemma {:induction false} NotPlainIsLost(name: string, value: string, rest: string)
    requires !PlainName(name)
    ensures var r := Scan(name + "\"" + rest, value, true, false); r.StringEnd? ==> r.value != value + name
    decreases name
  {
    var text := name + "\"" + rest;
    var c := name[0];
    if c == '\\' {
      var n := LeadingBackslashes(name);
      var after := name[n..] + "\"" + rest;
      assert text == Backslashes(n) + after;
      HalfComesBack(n, after, value);
      assert name[n / 2] == name[..n][n / 2] == '\\';
      assert (value + name)[|value| + n / 2] == name[n / 2];
    } else if c != '"' {
      assert text[1..] == name[1..] + "\"" + rest;
      assert forall d :: d in name ==> d == c || d in name[1..];
      NotPlainIsLost(name[1..], value + [c], rest);
      assert value + [c] + name[1..] == value + name;
    }
  }

  /** Where a name was printed, it is read as that name exactly if it has no quote and no backslash. */
  lemma {:induction false} NameIsReadExactly(name: string, rest: string)
    ensures (var r := Scan(name + "\"" + rest, "", true, false); r.StringEnd? && r.value == name) <==> PlainName(name)
  {
    assert "" + name == name;
    if PlainName(name) {
      ScanName(name, "", rest);
    } else {
      NotPlainIsLost(name, "", rest);
    }
  }

  /** Fields that were read stay, whatever is read after them. */
  lemma {:induction false} NamesKept(text: string, fields: seq<Field>, depth: nat, name: string)
    requires exists f :: f in fields && f.name == name
    ensures var r := ReadFields(text, fields, depth); r.Parsed? ==> exists f :: f in r.value && f.name == name
    decreases |text|
  {
    hide ReadJson, SkipTo, Less;
    var head := ReadJson(text, depth);
    if head.Parsed? {
      var one := if head.value.Some? && head.value.value.Str? then
                   ReadField(head.value.value.s, head.rest, fields, depth)
                 else Parsed(fields, head.rest);
      if one.Parsed? {
        if head.value.Some? && head.value.value.Str? {
          ReadFieldInserts(head.value.value.s, head.rest, fields, depth, name);
        }
        var end := SkipTo(one.rest, ',', '}');
        if end.Some? && end.value.0 != '}' {
          NamesKept(end.value.1, one.value, depth, name);
        }
      }
    }
  }

  lemma {:induction false} ReadFieldInserts(first: string, text: string, fields: seq<Field>, depth: nat, name: string)
    requires name == first || exists f :: f in fields && f.name == name
    ensures var r := ReadField(first, text, fields, depth); r.Parsed? ==> exists f :: f in r.value && f.name == name
  {
    hide ReadJson, Insert;
    var colon := SkipTo(text, ':', ':');
    if colon.Some? {
      var v := ReadJson(colon.value.1, depth);
      if v.Parsed? && v.value.Some? {
        InsertKeeps(fields, first, v.value.value, name);
      }
    }
  }

  lemma {:induction false} InsertKeeps(fields: seq<Field>, first: string, value: Json, name: string)
    requires name == first || exists f :: f in fields && f.name == name
    ensures exists f :: f in Insert(fields, first, value) && f.name == name
  {
    var r := Insert(fields, first, value);
    if name == first {
      InsertPuts(fields, first, value);
    } else {
      var f :| f in fields && f.name == name;
      if fields[0] == f {
        assert f in r;
      } else {
        assert f in fields[1..];
        if !Less(first, fields[0].name) && fields[0].name != first {
          InsertKeeps(fields[1..], first, value, name);
        } else {
          assert f in r;
        }
      }
    }
  }

  lemma {:induction false} InsertPuts(fields: seq<Field>, name: string, value: Json)
    ensures Field(name, value) in Insert(fields, name, value)
  {
    if fields != [] && !Less(name, fields[0].name) && fields[0].name != name {
      InsertPuts(fields[1..], name, value);
    }
  }

  /** An object comes back exactly if its name has no quote and no backslash. */
  lemma {:induction false} NameComesBack(name: string, value: Json)
    requires Printable(value) && Levels(Obj([Field(name, value)])) <= MAX_RECURSION
    ensures var j := Obj([Field(name, value)]); ReadJson(Print(j), 0) == Parsed(Some(j), "") <==> PlainName(name)
  {
    hide Print, PrintFields, Levels, LevelsOfFields, ReadJson, ReadFields;
    var fields := [Field(name, value)];
    if PlainName(name) {
      RoundTrip(Obj(fields));
    } else {
      var text := PrintFields(fields, 0);
      var more := PrintFields(fields, 1);
      assert text + "" == text && more + "" == more && text[0..] == text;
      FieldText(fields, 0, "", text, more);
      var tail := ": " + Print(value) + more;
      assert "" + ("\"" + name + "\"" + tail) == "\"" + (name + "\"" + tail);
      NotPlainIsLost(name, "", tail);
      assert "" + name == name;
      FirstNameIsLost(name, name + "\"" + tail, fields);
      ObjectText(fields);
    }
  }

  lemma ObjectText(fields: seq<Field>)
    ensures var r := ReadJson(Print(Obj(fields)), 0); r == Parsed(Some(Obj(fields)), "") ==>
              ReadFields(PrintFields(fields, 0), [], 1) == Parsed(fields, "")
  {
    hide ReadItems, ReadFields, PrintFields;
    var text := Print(Obj(fields));
    assert text[1..] == PrintFields(fields, 0) && text[0] == '{';
  }

  lemma {:induction false} FirstNameIsLost(name: string, text: string, fields: seq<Field>)
    requires |fields| == 1 && fields[0].name == name
    requires var r := Scan(text, "", true, false); r.StringEnd? ==> r.value != name
    ensures ReadFields("\"" + text, [], 1) != Parsed(fields, "")
  {
    hide ReadItems, WordValue;
    var whole := "\"" + text;
    assert whole[1..] == text;
    var r := Scan(text, "", true, false);
    assert Scan(whole, "", false, false) == r;
    ScanExtends(text, "", false);
    var head := ReadJson(whole, 1);
    hide ReadJson, Scan;
    if r.StringEnd? {
      assert head == Parsed(Some(Str(r.value)), r.rest);
      NameStays(whole, r.value, r.rest);
    } else {
      Unterminated(text, "", false);
      assert head.Parsed? ==> head.rest == "";
      NothingAfter(whole);
    }
  }

  /** A string that does not end takes all of the text. */
  lemma {:induction false} Unterminated(text: string, value: string, escape: bool)
    ensures var r := Scan(text, value, true, escape); !r.StringEnd? ==> r.rest == ""
    decreases |text|
  {
    if text != [] {
      var c := text[0];
      if c == '\\' && !escape {
        Unterminated(text[1..], value, true);
      } else if c != '"' || escape {
        Unterminated(text[1..], value + [if escape then Unescape(c) else c], false);
      }
    }
  }

  lemma {:induction false} NothingAfter(text: string)
    requires ReadJson(text, 1).Parsed? ==> ReadJson(text, 1).rest == ""
    ensures ReadFields(text, [], 1).Failed?
  {
    hide ReadJson;
    assert SkipTo("", ':', ':').None? && SkipTo("", ',', '}').None?;
  }

  lemma {:induction false} NameStays(text: string, first: string, rest: string)
    requires ReadJson(text, 1) == Parsed(Some(Str(first)), rest)
    ensures var r := ReadFields(text, [], 1); r.Parsed? ==> exists f :: f in r.value && f.name == first
  {
    hide ReadJson, ReadField, SkipTo;
    var one := ReadField(first, rest, [], 1);
    ReadFieldInserts(first, rest, [], 1, first);
    if one.Parsed? {
      var end := SkipTo(one.rest, ',', '}');
      if end.Some? && end.value.0 != '}' {
        NamesKept(end.value.1, one.value, 1, first);
      }
    }
  }
}

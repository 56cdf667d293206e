/** White space between the tokens of a JSON text makes no difference to the parser. */
module JsonLayout {
  import opened Bytes
  import opened ByteCode
  import opened Json
  import opened JsonLaws

  /** Space, tab, line feed, vertical tab, form feed and carriage return. */
  predicate IsBlank(c: char) {
    c == ' ' || c == '\U{9}' || c == '\U{A}' || c == '\U{B}' || c == '\U{C}' || c == '\U{D}'
  }

  predicate Blank(text: string) {
    forall c :: c in text ==> IsBlank(c)
  }

  /** A text for every place between two tokens: the way to an array or object, and the place inside. */
  type Layout = (seq<nat>, nat) -> string

  ghost predicate BlankLayout(gap: Layout) {
    forall path, k :: Blank(gap(path, k))
  }

  /** The tokens of a tree with what the layout puts between them. */
  function Spread(j: Json, path: seq<nat>, gap: Layout): string
    decreases j, 1
  {
    match j
    case Arr(items) => "[" + if items == [] then gap(path, 0) + "]" else SpreadItems(items, 0, path, gap)
    case Obj(fields) => "{" + if fields == [] then gap(path, 0) + "}" else SpreadFields(fields, 0, path, gap)
    case _ => Print(j)
  }

  function SpreadItems(items: seq<Json>, i: nat, path: seq<nat>, gap: Layout): string
    requires i < |items|
    decreases items, 0, |items| - i, 0
  {
    gap(path, 4 * i) + (Spread(items[i], path + [i], gap) + (gap(path, 4 * i + 3) + MoreItems(items, i + 1, path, gap)))
  }

  /** What follows an item. */
  function MoreItems(items: seq<Json>, i: nat, path: seq<nat>, gap: Layout): string
    requires i <= |items|
    decreases items, 0, |items| - i, 1
  {
    if i == |items| then "]" else "," + SpreadItems(items, i, path, gap)
  }

  function SpreadFields(fields: seq<Field>, i: nat, path: seq<nat>, gap: Layout): string
    requires i < |fields|
    decreases fields, 0, |fields| - i, 0
  {
    gap(path, 4 * i) + ("\"" + fields[i].name + "\"" + (gap(path, 4 * i + 1) + (":" + (gap(path, 4 * i + 2) +
    (Spread(fields[i].value, path + [i], gap) + (gap(path, 4 * i + 3) + MoreFields(fields, i + 1, path, gap)))))))
  }

  function MoreFields(fields: seq<Field>, i: nat, path: seq<nat>, gap: Layout): string
    requires i <= |fields|
    decreases fields, 0, |fields| - i, 1
  {
    if i == |fields| then "}" else "," + SpreadFields(fields, i, path, gap)
  }

  // ---------------------------------------------------------------------------------------------
  // Blanks are skipped

  lemma {:induction false} ScanSkips(blanks: string, text: string, value: string)
    requires Blank(blanks)
    ensures Scan(blanks + text, value, false, false) == Scan(text, value, false, false)
  {
    if blanks == [] {
      assert blanks + text == text;
    } else {
      assert blanks[0] in blanks && (blanks + text)[1..] == blanks[1..] + text;
      ScanSkips(blanks[1..], text, value);
    }
  }

  lemma {:induction false} ValueSkips(blanks: string, text: string, depth: nat)
    requires Blank(blanks)
    ensures ReadJson(blanks + text, depth) == ReadJson(text, depth)
  {
    hide ReadItems, ReadFields, Scan;
    ScanSkips(blanks, text, "");
  }

  lemma {:induction false} ItemsSkip(blanks: string, text: string, items: seq<Json>, depth: nat)
    requires Blank(blanks)
    ensures ReadItems(blanks + text, items, depth) == ReadItems(text, items, depth)
  {
    hide ReadJson;
    if blanks == [] {
      assert blanks + text == text;
    } else {
      assert blanks[0] in blanks && (blanks + text)[1..] == blanks[1..] + text;
      ItemsSkip(blanks[1..], text, items, depth);
    }
  }

  /** Behind any blanks one of two characters is found, and nothing else but blanks is skipped. */
  lemma {:induction false} FoundBehindBlanks(blanks: string, c: char, rest: string, a: char, b: char)
    requires Blank(blanks) && !IsBlank(a) && !IsBlank(b)
    ensures SkipTo(blanks + ([c] + rest), a, b)
            == if c == a || c == b then Some((c, rest))
               else if IsBlank(c) then SkipTo(rest, a, b)
               else None
  {
    if blanks == [] {
      assert blanks + ([c] + rest) == [c] + rest && ([c] + rest)[1..] == rest;
    } else {
      var text := blanks + ([c] + rest);
      assert blanks[0] in blanks && text[1..] == blanks[1..] + ([c] + rest);
      FoundBehindBlanks(blanks[1..], c, rest, a, b);
    }
  }

  /** A word without its blanks. */
  function Squeezed(word: string): string {
    if word == [] then [] else if IsBlank(word[0]) then Squeezed(word[1..]) else [word[0]] + Squeezed(word[1..])
  }

  /** Whatever stands up to a delimiter, without quotes and opening brackets, is taken without its blanks. */
  lemma {:induction false} WordsAreSqueezed(word: string, value: string, rest: string)
    requires forall c :: c in word ==> c !in {':', ',', ']', '}', '[', '{', '"'}
    requires rest == [] || rest[0] in {':', ',', ']', '}'}
    ensures Scan(word + rest, value, false, false) == WordEnd(value + Squeezed(word), rest)
    decreases |word|
  {
    if word == [] {
      assert word + rest == rest && value + [] == value;
    } else {
      var c, next := word[0], if IsBlank(word[0]) then value else value + [word[0]];
      assert c in word && (word + rest)[1..] == word[1..] + rest;
      assert forall d :: d in word[1..] ==> d in word;
      WordsAreSqueezed(word[1..], next, rest);
      assert value + ([c] + Squeezed(word[1..])) == value + [c] + Squeezed(word[1..]);
    }
  }

  // ---------------------------------------------------------------------------------------------
  // Values

  predicate IsWord(j: Json) {
    j.Null? || j.Bool? || j.Num?
  }

  /** What is left of blanks behind a value: a word takes them with it. */
  function Left(j: Json, blanks: string, rest: string): string {
    if IsWord(j) then rest else blanks + rest
  }

  lemma {:induction false} ScanWordPart(word: string, value: string, more: string)
    requires Plain(word)
    ensures Scan(word + more, value, false, false) == Scan(more, value + word, false, false)
    decreases word
  {
    if word == [] {
      assert word + more == more && value + word == value;
    } else {
      assert word[0] in word && forall c :: c in word[1..] ==> c in word;
      ScanWordPart(word[1..], value + [word[0]], more);
      assert (word + more)[1..] == word[1..] + more;
      assert value + [word[0]] + word[1..] == value + word;
    }
  }

  lemma {:induction false} ReadWordBlank(j: Json, blanks: string, rest: string, depth: nat)
    requires IsWord(j) && Printable(j) && Blank(blanks) && Stops(rest)
    ensures ReadJson(Print(j) + (blanks + rest), depth) == Expected(Some(j), rest, depth + 1)
  {
    hide Print, ReadJson, Scan, WordValue, Plain, Stops, Blank;
    if j.Num? {
      WordOfNumber(j.n);
    } else {
      WordOfLiteral(j);
    }
    ScanWordBlank(Print(j), blanks, rest);
    WordIsRead(Print(j) + (blanks + rest), Print(j), rest, depth);
  }

  lemma {:induction false} ScanWordBlank(word: string, blanks: string, rest: string)
    requires Plain(word) && Blank(blanks) && Stops(rest)
    ensures Scan(word + (blanks + rest), "", false, false) == WordEnd(word, rest)
  {
    ScanWordPart(word, "", blanks + rest);
    ScanSkips(blanks, rest, "" + word);
    assert "" + word == word;
    assert Scan(rest, word, false, false) == WordEnd(word, rest);
  }

  lemma WordIsRead(text: string, word: string, rest: string, depth: nat)
    requires word != [] && Scan(text, "", false, false) == WordEnd(word, rest) && WordValue(word).Some?
    ensures ReadJson(text, depth) == Expected(WordValue(word), rest, depth + 1)
  {
    hide ReadItems, ReadFields, WordValue, Scan;
  }

  /**
   Parsing a tree that was laid out in any way gives the tree and what follows it, unless it is nested
   too deeply; then it throws.
   */
  lemma {:induction false} LayoutDoesNotMatter(
      j: Json, path: seq<nat>, gap: Layout, before: string, after: string, rest: string, depth: nat)
    requires Printable(j) && BlankLayout(gap) && Blank(before) && Blank(after) && Stops(rest)
    ensures ReadJson(before + (Spread(j, path, gap) + (after + rest)), depth)
            == Expected(Some(j), Left(j, after, rest), depth + Levels(j))
    decreases j, 2
  {
    hide ReadJson, Print, Stops, BlankLayout, Blank, Levels, LevelsOfItems, LevelsOfFields;
    ValueSkips(before, Spread(j, path, gap) + (after + rest), depth);
    SpreadRead(j, path, gap, after, rest, depth);
  }

  lemma {:induction false} SpreadRead(
      j: Json, path: seq<nat>, gap: Layout, after: string, rest: string, depth: nat)
    requires Printable(j) && BlankLayout(gap) && Blank(after) && Stops(rest)
    ensures ReadJson(Spread(j, path, gap) + (after + rest), depth)
            == Expected(Some(j), Left(j, after, rest), depth + Levels(j))
    decreases j, 1
  {
    hide ReadJson, Print, Stops, Blank, SpreadItems, SpreadFields, LevelsOfItems, LevelsOfFields, ReadItems,
      ReadFields;
    match j
    case Str(s) => ReadString(s, after + rest, depth);
    case Arr(items) =>
      if depth + 1 <= MAX_RECURSION {
        if items == [] {
          EmptyArray(gap(path, 0), after + rest, depth + 1);
        } else {
          ItemsAreRead(items, 0, path, gap, after + rest, depth + 1);
        }
      }
      Bracketed(items, path, gap, after + rest, depth);
    case Obj(fields) =>
      if depth + 1 <= MAX_RECURSION {
        if fields == [] {
          EmptyObject(gap(path, 0), after + rest, depth + 1);
        } else {
          FieldsAreRead(fields, 0, path, gap, after + rest, depth + 1);
        }
      }
      Braced(fields, path, gap, after + rest, depth);
    case _ => ReadWordBlank(j, after, rest, depth);
  }

  lemma {:induction false} Bracketed(items: seq<Json>, path: seq<nat>, gap: Layout, rest: string, depth: nat)
    requires depth + 1 <= MAX_RECURSION ==>
               ReadItems((if items == [] then gap(path, 0) + "]" else SpreadItems(items, 0, path, gap)) + rest, [],
                         depth + 1)
               == Expected(items, rest, depth + 1 + LevelsOfItems(items, 0))
    ensures ReadJson(Spread(Arr(items), path, gap) + rest, depth)
            == Expected(Some(Arr(items)), rest, depth + 1 + LevelsOfItems(items, 0))
  {
    hide ReadItems, ReadFields, SpreadItems, LevelsOfItems;
    var inside := if items == [] then gap(path, 0) + "]" else SpreadItems(items, 0, path, gap);
    var text := Spread(Arr(items), path, gap) + rest;
    assert text[1..] == inside + rest && text[0] == '[';
  }

  lemma {:induction false} Braced(fields: seq<Field>, path: seq<nat>, gap: Layout, rest: string, depth: nat)
    requires depth + 1 <= MAX_RECURSION ==>
               ReadFields((if fields == [] then gap(path, 0) + "}" else SpreadFields(fields, 0, path, gap)) + rest, [],
                          depth + 1)
               == Expected(fields, rest, depth + 1 + LevelsOfFields(fields, 0))
    ensures ReadJson(Spread(Obj(fields), path, gap) + rest, depth)
            == Expected(Some(Obj(fields)), rest, depth + 1 + LevelsOfFields(fields, 0))
  {
    hide ReadItems, ReadFields, SpreadFields, LevelsOfFields;
    var inside := if fields == [] then gap(path, 0) + "}" else SpreadFields(fields, 0, path, gap);
    var text := Spread(Obj(fields), path, gap) + rest;
    assert text[1..] == inside + rest && text[0] == '{';
  }

  lemma {:induction false} EmptyArray(blanks: string, rest: string, depth: nat)
    requires Blank(blanks) && depth <= MAX_RECURSION
    ensures ReadItems(blanks + "]" + rest, [], depth) == Expected([], rest, depth + LevelsOfItems([], 0))
  {
    hide ReadJson;
    ItemsSkip(blanks, "]" + rest, [], depth);
    assert blanks + "]" + rest == blanks + ("]" + rest);
    ItemsEnd([], rest, depth);
  }

  lemma {:induction false} EmptyObject(blanks: string, rest: string, depth: nat)
    requires Blank(blanks)
    ensures ReadFields(blanks + "}" + rest, [], depth) == Expected([], rest, depth + LevelsOfFields([], 0))
  {
    hide ReadJson, ReadField;
    assert blanks + "}" + rest == blanks + ("}" + rest);
    ValueSkips(blanks, "}" + rest, depth);
    NoFields(rest, depth);
  }

  /** The items from the i-th on. */
  lemma {:induction false} ItemsAreRead(
      items: seq<Json>, i: nat, path: seq<nat>, gap: Layout, rest: string, depth: nat)
    requires i < |items| && depth <= MAX_RECURSION && BlankLayout(gap)
    requires forall k :: 0 <= k < |items| ==> Printable(items[k])
    ensures ReadItems(SpreadItems(items, i, path, gap) + rest, items[..i], depth)
            == Expected(items, rest, depth + LevelsOfItems(items, i))
    decreases items, 0, |items| - i, 0
  {
    hide ReadJson, ReadItems, Spread, SpreadItems, Levels, LevelsOfItems, Printable, BlankLayout, Blank, Stops, Left;
    var item, after := items[i], gap(path, 4 * i + 3);
    var tail := MoreItems(items, i + 1, path, gap) + rest;
    var body := Spread(item, path + [i], gap) + (after + tail);
    ItemText(items, i, path, gap, rest);
    TailStops(tail);
    hide MoreItems;
    BlankAt(gap, path, 4 * i);
    BlankAt(gap, path, 4 * i + 3);
    SpreadRead(item, path + [i], gap, after, tail, depth);
    FirstCharOf(item, path + [i], gap, after + tail);
    ItemIsRead(items, i, gap(path, 4 * i), body, after, tail, depth);
    ItemsNext(items, i, rest);
    ItemsBehind(items, i + 1, path, gap, rest, depth);
  }

  /** The items from the i-th on, behind another one. */
  lemma {:induction false} ItemsBehind(
      items: seq<Json>, i: nat, path: seq<nat>, gap: Layout, rest: string, depth: nat)
    requires i <= |items| && depth <= MAX_RECURSION && BlankLayout(gap)
    requires forall k :: 0 <= k < |items| ==> Printable(items[k])
    ensures ReadItems(MoreItems(items, i, path, gap) + rest, items[..i], depth)
            == Expected(items, rest, depth + LevelsOfItems(items, i))
    decreases items, 0, |items| - i, 1
  {
    hide ReadJson, ReadItems, Spread, SpreadItems, Levels, Printable, BlankLayout;
    if i == |items| {
      ItemsEnd(items, rest, depth);
      assert items[..i] == items;
    } else {
      ItemsAreRead(items, i, path, gap, rest, depth);
      CommaSkipped(SpreadItems(items, i, path, gap) + rest, items[..i], depth);
      assert "," + SpreadItems(items, i, path, gap) + rest == "," + (SpreadItems(items, i, path, gap) + rest);
    }
  }

  lemma BlankAt(gap: Layout, path: seq<nat>, k: nat)
    requires BlankLayout(gap)
    ensures Blank(gap(path, k))
  {
  }

  /** One item with the blanks around it. */
  lemma {:induction false} ItemIsRead(
      items: seq<Json>, i: nat, before: string, body: string, after: string, tail: string, depth: nat)
    requires i < |items| && Blank(before) && Blank(after)
    requires body != [] && body[0] != ']' && body[0] != ',' && !IsSpace(body[0])
    requires ReadJson(body, depth) == Expected(Some(items[i]), Left(items[i], after, tail), depth + Levels(items[i]))
    ensures ReadItems(before + body, items[..i], depth) ==
              if depth + Levels(items[i]) <= MAX_RECURSION then ReadItems(tail, items[..i + 1], depth) else Failed
  {
    hide ReadJson, ReadItems, Levels, Blank;
    ItemsSkip(before, body, items[..i], depth);
    OneItem(items, i, body, Left(items[i], after, tail), depth);
    assert items[..i] + [items[i]] == items[..i + 1];
    ItemsSkip(after, tail, items[..i + 1], depth);
  }

  lemma ItemText(items: seq<Json>, i: nat, path: seq<nat>, gap: Layout, rest: string)
    requires i < |items|
    ensures var tail := MoreItems(items, i + 1, path, gap) + rest;
            SpreadItems(items, i, path, gap) + rest
            == gap(path, 4 * i) + (Spread(items[i], path + [i], gap) + (gap(path, 4 * i + 3) + tail))
  {
    hide Spread, MoreItems;
    Regroup4(gap(path, 4 * i), Spread(items[i], path + [i], gap), gap(path, 4 * i + 3),
             MoreItems(items, i + 1, path, gap), rest);
  }

  lemma Regroup4(a: string, b: string, c: string, d: string, rest: string)
    ensures a + (b + (c + d)) + rest == a + (b + (c + (d + rest)))
  {
  }

  lemma TailStops(tail: string)
    requires tail != [] && (tail[0] == ',' || tail[0] == ']' || tail[0] == '}')
    ensures Stops(tail)
  {
  }

  lemma CommaSkipped(text: string, items: seq<Json>, depth: nat)
    ensures ReadItems("," + text, items, depth) == ReadItems(text, items, depth)
  {
    hide ReadJson;
    assert ("," + text)[1..] == text;
  }

  lemma {:induction false} FirstCharOf(j: Json, path: seq<nat>, gap: Layout, more: string)
    requires Printable(j)
    ensures var text := Spread(j, path, gap) + more;
            text != [] && text[0] != ']' && text[0] != ',' && !IsSpace(text[0])
  {
    hide Print, SpreadItems, SpreadFields;
    FirstChar(j);
  }

  /** The fields from the i-th on. */
  lemma {:induction false} FieldsAreRead(
      fields: seq<Field>, i: nat, path: seq<nat>, gap: Layout, rest: string, depth: nat)
    requires i < |fields| && depth <= MAX_RECURSION && BlankLayout(gap) && SortedNames(fields)
    requires forall k :: 0 <= k < |fields| ==> PlainName(fields[k].name) && Printable(fields[k].value)
    ensures ReadFields(SpreadFields(fields, i, path, gap) + rest, fields[..i], depth)
            == Expected(fields, rest, depth + LevelsOfFields(fields, i))
    decreases fields, 0, |fields| - i
  {
    hide ReadJson, ReadFields, ReadField, Spread, SpreadFields, Levels, LevelsOfFields, Printable, Blank, Stops, Less,
      PlainName, SkipTo, Insert;
    var name, value, after := fields[i].name, fields[i].value, gap(path, 4 * i + 3);
    var tail := MoreFields(fields, i + 1, path, gap) + rest;
    var body := Spread(value, path + [i], gap) + (after + tail);
    var behind := gap(path, 4 * i + 1) + (":" + (gap(path, 4 * i + 2) + body));
    FieldTextOf(fields, i, path, gap, rest);
    TailStops(tail);
    ValueSkips(gap(path, 4 * i), "\"" + name + "\"" + behind, depth);
    ReadName(name, behind, depth);
    LayoutDoesNotMatter(value, path + [i], gap, gap(path, 4 * i + 2), after, tail, depth);
    ValueIsRead(name, gap(path, 4 * i + 1), gap(path, 4 * i + 2) + body, fields[..i], value,
                Left(value, after, tail), depth, Levels(value));
    InsertLast(fields[..i], fields[i]);
    assert fields[..i] + [fields[i]] == fields[..i + 1];
    EndIsFound(value, after, tail);
    FieldsNext(fields, i);
    FieldsNext(fields, i + 1);
    FieldStep(SpreadFields(fields, i, path, gap) + rest, name, behind, fields[..i], fields[..i + 1],
              Left(value, after, tail), depth, Levels(value));
    if i + 1 == |fields| {
      assert tail[1..] == rest && fields[..i + 1] == fields;
    } else {
      FieldsAreRead(fields, i + 1, path, gap, rest, depth);
      assert tail[1..] == SpreadFields(fields, i + 1, path, gap) + rest;
    }
  }

  lemma FieldTextOf(fields: seq<Field>, i: nat, path: seq<nat>, gap: Layout, rest: string)
    requires i < |fields|
    ensures var tail := MoreFields(fields, i + 1, path, gap) + rest;
            var body := Spread(fields[i].value, path + [i], gap) + (gap(path, 4 * i + 3) + tail);
            SpreadFields(fields, i, path, gap) + rest
            == gap(path, 4 * i) + ("\"" + fields[i].name + "\""
               + (gap(path, 4 * i + 1) + (":" + (gap(path, 4 * i + 2) + body))))
  {
    hide Spread, MoreFields;
    Regroup4(gap(path, 4 * i + 2), Spread(fields[i].value, path + [i], gap), gap(path, 4 * i + 3),
             MoreFields(fields, i + 1, path, gap), rest);
    var inner := gap(path, 4 * i + 2) + (Spread(fields[i].value, path + [i], gap) + (gap(path, 4 * i + 3)
                 + MoreFields(fields, i + 1, path, gap)));
    Regroup4(gap(path, 4 * i), "\"" + fields[i].name + "\"", gap(path, 4 * i + 1), ":" + inner, rest);
    assert ":" + inner + rest == ":" + (inner + rest);
  }

  lemma {:induction false} ValueIsRead(
      name: string, blanks: string, text: string, fields: seq<Field>, value: Json, more: string, depth: nat,
      levels: nat)
    requires Blank(blanks) && ReadJson(text, depth) == Expected(Some(value), more, depth + levels)
    ensures ReadField(name, blanks + (":" + text), fields, depth)
            == Expected(Insert(fields, name, value), more, depth + levels)
  {
    hide ReadJson, Insert, SkipTo;
    FoundBehindBlanks(blanks, ':', text, ':', ':');
  }

  lemma {:induction false} EndIsFound(value: Json, blanks: string, tail: string)
    requires Blank(blanks) && tail != [] && (tail[0] == ',' || tail[0] == '}')
    ensures SkipTo(Left(value, blanks, tail), ',', '}') == Some((tail[0], tail[1..]))
  {
    hide SkipTo;
    assert tail == [tail[0]] + tail[1..];
    FoundBehindBlanks(blanks, tail[0], tail[1..], ',', '}');
    FoundBehindBlanks("", tail[0], tail[1..], ',', '}');
    assert "" + tail == tail;
  }

  // ---------------------------------------------------------------------------------------------
  // The layout of the printer, and other texts

  /** One blank behind every comma and every colon. */
  const PRINTER: Layout := (path, k) => if (k % 4 == 0 && k > 0) || k % 4 == 2 then " " else ""

  lemma {:induction false} PrinterLayout(j: Json, path: seq<nat>)
    ensures BlankLayout(PRINTER) && Spread(j, path, PRINTER) == Print(j)
    decreases j, 1
  {
    hide SpreadItems, SpreadFields, PrintItems, PrintFields;
    match j
    case Arr(items) =>
      if items == [] {
        NonePrinted();
      } else {
        PrintedItems(items, 0, path);
      }
    case Obj(fields) =>
      if fields == [] {
        NonePrinted();
      } else {
        PrintedFields(fields, 0, path);
      }
    case _ =>
  }

  lemma NonePrinted()
    ensures PrintItems([], 0) == "]" && PrintFields([], 0) == "}"
  {
  }

  lemma {:induction false} PrintedItems(items: seq<Json>, i: nat, path: seq<nat>)
    requires i < |items|
    ensures (if i > 0 then "," else "") + SpreadItems(items, i, path, PRINTER) == PrintItems(items, i)
    decreases items, 0, |items| - i
  {
    hide Spread, Print;
    PrinterLayout(items[i], path + [i]);
    if i + 1 < |items| {
      PrintedItems(items, i + 1, path);
    }
    assert MoreItems(items, i + 1, path, PRINTER) == PrintItems(items, i + 1);
    assert PRINTER(path, 4 * i + 3) == "" && PRINTER(path, 4 * i) == if i > 0 then " " else "";
    hide MoreItems;
    JoinItem(Print(items[i]), PrintItems(items, i + 1));
  }

  lemma JoinItem(item: string, more: string)
    ensures "," + (" " + (item + ("" + more))) == ", " + item + more
    ensures "" + ("" + (item + ("" + more))) == "" + item + more
  {
  }

  lemma {:induction false} PrintedFields(fields: seq<Field>, i: nat, path: seq<nat>)
    requires i < |fields|
    ensures (if i > 0 then "," else "") + SpreadFields(fields, i, path, PRINTER) == PrintFields(fields, i)
    decreases fields, 0, |fields| - i
  {
    hide Spread, Print, PRINTER, SpreadFields, PrintFields;
    PrinterLayout(fields[i].value, path + [i]);
    if i + 1 < |fields| {
      PrintedFields(fields, i + 1, path);
    }
    Blanks(i, path);
    NextSpread(fields, i, path, PRINTER);
    NextPrinted(fields, i);
    NextPrinted(fields, i + 1);
    JoinField(fields[i].name, Print(fields[i].value), PrintFields(fields, i + 1));
  }

  lemma Blanks(i: nat, path: seq<nat>)
    ensures PRINTER(path, 4 * i) == (if i > 0 then " " else "") && PRINTER(path, 4 * i + 1) == ""
    ensures PRINTER(path, 4 * i + 2) == " " && PRINTER(path, 4 * i + 3) == ""
  {
  }

  lemma {:induction false} NextSpread(fields: seq<Field>, i: nat, path: seq<nat>, gap: Layout)
    requires i < |fields|
    ensures var more := MoreFields(fields, i + 1, path, gap);
            && SpreadFields(fields, i, path, gap)
               == gap(path, 4 * i) + ("\"" + fields[i].name + "\"" + (gap(path, 4 * i + 1) + (":"
                  + (gap(path, 4 * i + 2) + (Spread(fields[i].value, path + [i], gap)
                  + (gap(path, 4 * i + 3) + more))))))
            && more == if i + 1 == |fields| then "}" else "," + SpreadFields(fields, i + 1, path, gap)
  {
    hide Spread;
  }

  lemma NextPrinted(fields: seq<Field>, i: nat)
    requires i <= |fields|
    ensures PrintFields(fields, i) ==
              if i == |fields| then "}"
              else
                (if i > 0 then ", " else "") + "\"" + fields[i].name + "\": " + Print(fields[i].value)
                + PrintFields(fields, i + 1)
  {
    hide Print;
  }

  lemma JoinField(name: string, value: string, more: string)
    ensures var body := "\"" + name + "\"" + ("" + (":" + (" " + (value + ("" + more)))));
            && "," + (" " + body) == ", " + "\"" + name + "\": " + value + more
            && "" + ("" + body) == "" + "\"" + name + "\": " + value + more
  {
  }

  /** A line break between two items. */
  lemma {:induction false} LineBreak()
    ensures ReadJson("[1,\n2]", 0) == Parsed(Some(Arr([Num(1), Num(2)])), "")
  {
    hide ReadJson, Spread, Levels;
    var gap: Layout := (path, k) => if k == 4 then "\n" else "";
    TwoItems(gap);
    LayoutDoesNotMatter(Arr([Num(1), Num(2)]), [], gap, "", "", "", 0);
    assert "" + ("[1,\n2]" + ("" + "")) == "[1,\n2]";
  }

  lemma {:induction false} TwoItems(gap: Layout)
    requires gap([], 0) == gap([], 3) == gap([], 7) == "" && gap([], 4) == "\n"
    ensures Spread(Arr([Num(1), Num(2)]), [], gap) == "[1,\n2]" && Levels(Arr([Num(1), Num(2)])) == 2
  {
    var items := [Num(1), Num(2)];
    assert Print(items[0]) == "1" && Print(items[1]) == "2";
    assert SpreadItems(items, 1, [], gap) == "\n2]";
    assert SpreadItems(items, 0, [], gap) == "1,\n2]";
    assert LevelsOfItems(items, 1) == 1 && LevelsOfItems(items, 0) == 1;
  }

  /** A text without quotes, delimiters, brackets and blanks that is no number and no literal is a string. */
  lemma {:induction false} UnquotedString(word: string, rest: string, depth: nat)
    requires word != [] && word !in {"true", "false", "null"}
    requires word[0] != '+' && word[0] != '-' && !('0' <= word[0] <= '9')
    requires forall c :: c in word ==> !IsBlank(c) && c !in {':', ',', ']', '}', '[', '{', '"'}
    requires rest == [] || rest[0] in {':', ',', ']', '}'}
    ensures ReadJson(word + rest, depth) == Expected(Some(Str(word)), rest, depth + 1)
  {
    assert NextFlags(NO_FLAGS, word[0]).None?;
    assert FlagsOf(word, NO_FLAGS).None?;
    assert WordValue(word) == Some(Str(word));
    hide WordValue, ReadItems, ReadFields, FlagsOf, NextFlags;
    ReadWord(word, Str(word), rest, depth);
  }

  /** An integer is read exactly if it fits in 64 bits; any other makes the parser throw. */
  lemma {:induction false} IntegerIsRead(n: int, rest: string, depth: nat)
    requires rest == [] || rest[0] in {':', ',', ']', '}'}
    ensures ReadJson(Print(Num(n)) + rest, depth) ==
              if depth < MAX_RECURSION && -0x8000_0000_0000_0000 <= n < 0x1_0000_0000_0000_0000
              then Parsed(Some(Num(n)), rest)
              else Failed
  {
    hide ReadItems, ReadFields, WordValue, Print;
    WordOfInteger(n);
    ScanWord(Print(Num(n)), "", rest);
    assert "" + Print(Num(n)) == Print(Num(n));
  }

  predicate IsDigits(word: string) {
    word != [] && forall c :: c in word ==> '0' <= c <= '9'
  }

  /** Digits, a point and more digits are a number that is not an integer. */
  lemma {:induction false} FractionIsNumber(whole: string, part: string, rest: string, depth: nat)
    requires IsDigits(whole) && IsDigits(part) && (rest == [] || rest[0] in {':', ',', ']', '}'})
    ensures var word := whole + "." + part; ReadJson(word + rest, depth) == Expected(Some(Other(word)), rest, depth + 1)
  {
    var word := whole + "." + part;
    var before := NO_FLAGS.(isNumber := true, length := |whole|);
    FlagsOfDigits(whole, NO_FLAGS);
    FlagsInParts(whole, "." + part, NO_FLAGS);
    assert ("." + part)[1..] == part && word == whole + ("." + part);
    FlagsOfDigits(part, before.(isFloat := true, length := |whole| + 1));
    assert FlagsOf("." + part, before) == FlagsOf(part, before.(isFloat := true, length := |whole| + 1));
    hide FlagsOf, NextFlags, ReadJson;
    ReadWord(word, Other(word), rest, depth);
  }

  lemma {:induction false} FlagsInParts(a: string, b: string, f: Flags)
    ensures FlagsOf(a + b, f) == if FlagsOf(a, f).None? then None else FlagsOf(b, FlagsOf(a, f).value)
    decreases |a|
  {
    if a == [] {
      assert a + b == b;
    } else {
      assert (a + b)[1..] == a[1..] + b;
      var next := NextFlags(f, a[0]);
      if next.Some? {
        FlagsInParts(a[1..], b, next.value);
      }
    }
  }

  /** A word that starts with "0x" is a number, whatever follows. */
  lemma {:induction false} HexIsNumber(more: string, rest: string, depth: nat)
    requires forall c :: c in more ==> !IsBlank(c) && c !in {':', ',', ']', '}', '[', '{', '"'}
    requires rest == [] || rest[0] in {':', ',', ']', '}'}
    ensures var word := "0x" + more; ReadJson(word + rest, depth) == Expected(Some(Other(word)), rest, depth + 1)
  {
    var word := "0x" + more;
    var f := NO_FLAGS.(isNumber := true, length := 1);
    assert word[1..] == "x" + more && ("x" + more)[1..] == more;
    assert FlagsOf(word, NO_FLAGS) == FlagsOf("x" + more, f);
    assert FlagsOf("x" + more, f) == FlagsOf(more, f.(isHex := true, length := 2));
    HexFlags(more, f.(isHex := true, length := 2));
    hide FlagsOf, NextFlags, ReadJson;
    ReadWord(word, Other(word), rest, depth);
  }

  lemma {:induction false} HexFlags(word: string, f: Flags)
    requires f.isHex && f.isNumber
    ensures FlagsOf(word, f).Some? && FlagsOf(word, f).value.isHex && FlagsOf(word, f).value.isNumber
    decreases |word|
  {
    if word != [] {
      HexFlags(word[1..], NextFlags(f, word[0]).value);
    }
  }

  /** The three literals. */
  lemma LiteralsAreRead(rest: string, depth: nat)
    requires depth < MAX_RECURSION && (rest == [] || rest[0] in {':', ',', ']', '}'})
    ensures ReadJson("null" + rest, depth) == Parsed(Some(Null), rest)
    ensures ReadJson("true" + rest, depth) == Parsed(Some(Bool(true)), rest)
    ensures ReadJson("false" + rest, depth) == Parsed(Some(Bool(false)), rest)
  {
    hide ReadJson;
    ReadPrinted(Null, rest, depth);
    ReadPrinted(Bool(true), rest, depth);
    ReadPrinted(Bool(false), rest, depth);
  }

  /** How characters are written inside a string. */
  lemma PrintedCharacters(c: char)
    ensures Print(Str([c])) ==
              if c == '\U{9}' then "\"\\t\""
              else if c == '\U{A}' then "\"\\n\""
              else if c == '\U{D}' then "\"\\r\""
              else if c == '\U{8}' then "\"\\b\""
              else if c == '\U{C}' then "\"\\f\""
              else if c == '"' then "\"\\\"\""
              else if c == '\\' then "\"\\\\\""
              else ['"', c, '"']
  {
    assert [c][1..] == "" && Escaped("") == "" && Escaped([c]) == Escape(c) + "";
  }

  /** Numbers are written in decimal digits. */
  lemma PrintedNumbers(n: nat, d: nat)
    requires d < 10
    ensures Print(Num(d)) == ["0123456789"[d]]
    ensures n > 0 ==> Print(Num(10 * n + d)) == Print(Num(n)) + Print(Num(d))
    ensures n > 0 ==> Print(Num(0 - n)) == "-" + Print(Num(n))
  {
    assert n > 0 ==> (10 * n + d) / 10 == n && (10 * n + d) % 10 == d;
  }
}

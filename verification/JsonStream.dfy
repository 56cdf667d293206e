/** The JSON parser as it runs on a stream, tied to the functions of `Json`. */
module JsonStream {
  import opened Bytes
  import opened ByteCode
  import opened Json

  /** An input stream: looking at the next character, or taking it, fails at the end. */
  class CharStream {
    const text: string
    var pos: nat

    constructor (text: string)
      ensures this.text == text && pos == 0
    {
      this.text := text;
      pos := 0;
    }

    predicate Valid()
      reads this
    {
      pos <= |text|
    }

    function Rest(): string
      requires Valid()
      reads this
    {
      text[pos..]
    }

    method Peek() returns (c: Option<char>)
      requires Valid()
      ensures c == if Rest() == [] then None else Some(Rest()[0])
    {
      c := if pos == |text| then None else Some(text[pos]);
    }

    method Get() returns (c: Option<char>)
      requires Valid()
      modifies this
      ensures Valid()
      ensures if old(Rest()) == [] then c.None? && Rest() == []
              else c == Some(old(Rest())[0]) && Rest() == old(Rest())[1..]
    {
      if pos == |text| {
        return None;
      }
      c := Some(text[pos]);
      pos := pos + 1;
    }
  }

  /** The stream has moved to the rest that was parsed to; ok is false if an exception was thrown. */
  twostate predicate Moved<T>(input: CharStream, r: Parsed<T>, ok: bool)
    requires old(input.Valid())
    reads input
  {
    input.Valid() && ok == r.Parsed? && (ok ==> input.Rest() == r.rest)
  }

  /** The loop that collects a string or a word. */
  method ScanValue(input: CharStream) returns (end: Scanned)
    requires input.Valid()
    modifies input
    ensures input.Valid() && end == Scan(old(input.Rest()), "", false, false) && input.Rest() == end.rest
  {
    var value, isString, escape := "", false, false;
    while true
      invariant input.Valid() && (escape ==> isString)
      invariant Scan(input.Rest(), value, isString, escape) == Scan(old(input.Rest()), "", false, false)
      decreases |input.Rest()|
    {
      ghost var text := input.Rest();
      var c := input.Peek();
      if c.None? {
        return WordEnd(value, []);
      }
      if isString {
        if c.value == '"' && !escape {
          var _ := input.Get();
          return StringEnd(value, input.Rest());
        } else if c.value == '\\' && !escape {
          escape := true;
        } else {
          value := value + [if escape then Unescape(c.value) else c.value];
          escape := false;
        }
      } else if c.value == '"' {
        isString := true;
      } else if c.value == '[' {
        return ArrayAt(input.Rest());
      } else if c.value == '{' {
        return ObjectAt(input.Rest());
      } else if IsDelimiter(c.value) {
        return WordEnd(value, input.Rest());
      } else if !IsSpace(c.value) {
        value := value + [c.value];
      }
      var _ := input.Get();
    }
  }

  /** `read_json_ex`. */
  method ReadJsonEx(input: CharStream, depth: nat) returns (ok: bool, value: Option<Json>)
    requires input.Valid()
    modifies input
    ensures var r := ReadJson(old(input.Rest()), depth); Moved(input, r, ok) && (ok ==> value == r.value)
    decreases |input.Rest()|, 2
  {
    hide ReadItems, ReadFields, WordValue, Scan;
    if depth + 1 > MAX_RECURSION {
      return false, None;
    }
    var end := ScanValue(input);
    match end
    case StringEnd(s, _) => return true, Some(Str(s));
    case ArrayAt(_) =>
      var _ := input.Get();
      var items;
      ok, items := ReadArray(input, depth + 1);
      return ok, Some(Arr(items));
    case ObjectAt(_) =>
      var _ := input.Get();
      var fields;
      ok, fields := ReadObject(input, depth + 1);
      return ok, Some(Obj(fields));
    case WordEnd(word, _) =>
      if word == [] {
        return true, None;
      }
      value := WordValue(word);
      return value.Some?, value;
  }

  /** `read_array`, behind the opening bracket. */
  method ReadArray(input: CharStream, depth: nat) returns (ok: bool, items: seq<Json>)
    requires input.Valid()
    modifies input
    ensures var r := ReadItems(old(input.Rest()), [], depth); Moved(input, r, ok) && (ok ==> items == r.value)
    decreases |input.Rest()|, 3
  {
    hide ReadJson;
    items := [];
    while true
      invariant input.Valid() && |input.Rest()| <= |old(input.Rest())|
      invariant ReadItems(input.Rest(), items, depth) == ReadItems(old(input.Rest()), [], depth)
      decreases |input.Rest()|
    {
      var c := input.Peek();
      if c.None? {
        return false, items;
      }
      if c.value == ']' {
        var _ := input.Get();
        return true, items;
      } else if IsSpace(c.value) || c.value == ',' {
        var _ := input.Get();
      } else {
        var value;
        ok, value := ReadJsonEx(input, depth);
        if !ok {
          return;
        }
        if value.None? {
          return true, items;
        }
        items := items + [value.value];
      }
    }
  }

  /** Takes spaces and then one of the two characters. */
  method Expect(input: CharStream, a: char, b: char) returns (c: Option<char>)
    requires input.Valid()
    modifies input
    ensures input.Valid()
    ensures var r := SkipTo(old(input.Rest()), a, b);
            if r.None? then c.None? else c == Some(r.value.0) && input.Rest() == r.value.1
  {
    while true
      invariant input.Valid() && SkipTo(input.Rest(), a, b) == SkipTo(old(input.Rest()), a, b)
      decreases |input.Rest()|
    {
      ghost var text := input.Rest();
      c := input.Get();
      if c.None? {
        return;
      }
      if c.value == a || c.value == b {
        return;
      } else if !IsSpace(c.value) {
        return None;
      }
    }
  }

  /** `read_object`, behind the opening brace. */
  method ReadObject(input: CharStream, depth: nat) returns (ok: bool, fields: seq<Field>)
    requires input.Valid()
    modifies input
    ensures var r := ReadFields(old(input.Rest()), [], depth); Moved(input, r, ok) && (ok ==> fields == r.value)
    decreases |input.Rest()|, 3
  {
    hide ReadJson, SkipTo, Insert;
    fields := [];
    while true
      invariant input.Valid() && |input.Rest()| <= |old(input.Rest())|
      invariant ReadFields(input.Rest(), fields, depth) == ReadFields(old(input.Rest()), [], depth)
      decreases |input.Rest()|
    {
      var name;
      ok, name := ReadJsonEx(input, depth);
      if !ok {
        return;
      }
      if name.Some? && name.value.Str? {
        var colon := Expect(input, ':', ':');
        if colon.None? {
          return false, fields;
        }
        var value;
        ok, value := ReadJsonEx(input, depth);
        if !ok || value.None? {
          return false, fields;
        }
        fields := Insert(fields, name.value.s, value.value);
      }
      var end := Expect(input, ',', '}');
      if end.None? {
        return false, fields;
      }
      if end.value == '}' {
        return true, fields;
      }
    }
  }

  /** Writing a string, one character at a time. */
  method WriteString(value: string) returns (out: string)
    ensures out == Print(Str(value))
  {
    out := "\"";
    var i := 0;
    while i < |value|
      invariant 0 <= i <= |value| && out + Escaped(value[i..]) == "\"" + Escaped(value)
    {
      var c := value[i];
      assert value[i..][0] == c && value[i..][1..] == value[i + 1..];
      assert out + (Escape(c) + Escaped(value[i + 1..])) == out + Escape(c) + Escaped(value[i + 1..]);
      out := out + Escape(c);
      i := i + 1;
    }
    assert out + [] == out;
    out := out + "\"";
  }
}

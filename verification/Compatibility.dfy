/**
 Transparent compatibility, from one end to the other: a value is written under the version of its
 type the sender has, and read by a program that has another version.
 */
module Compatibility {
  import opened Bytes
  import opened ByteCode
  import opened Schemas
  import opened Wire
  import opened CopySpec
  import opened CopyLaws
  import opened Streams
  import opened Types
  import opened TypeCodes
  import opened Evolution
  import opened Conversions

  /** A type that was compiled with the fields `sent`, and then matched with the native fields. */
  ghost predicate MatchedWith(types: TypeCode, sent: seq<Field>, native: seq<Field>, aliases: Aliases)
    reads types
  {
    && types.IsCompiled() && types.isMatched
    && types.fieldMap == FieldMap(sent, native, aliases) && Relinked(sent, types.fields, native, aliases)
    && (types.isEquivalent ==> types.extFields == [])
  }

  /**
   Compiling both versions and matching them goes through exactly if both compile and one is native.
   A native type is matched with itself.
   */
  method Prepare(types: TypeCode, native: TypeCode)
    returns (ok: bool, ghost sent: seq<Field>, ghost nativeFields: seq<Field>)
    requires types.extFields == [] && native.extFields == []
    modifies types, native
    ensures ok <==> Compiles(old(types.fields), types.depends) && Compiles(old(native.fields), native.depends)
                    && native.isNative
    ensures ok ==>
              && SameNames(old(types.fields), sent) && SameNames(old(native.fields), nativeFields)
              && (if types == native then nativeFields == sent else nativeFields == native.fields)
              && MatchedWith(types, sent, nativeFields, types.aliases + native.aliases)
              && ((forall d :: d in types.depends ==> d.TypeInfo? && Compiled(d)) ==>
                    InfoFits(types.Info(), types.fields))
  {
    hide Extended, Before, WellFormed, FieldMap, Relinked, Compiles, InfoFits;
    ok, sent, nativeFields := false, [], [];
    var error := types.Compile();
    if error.None? && native != types {
      error := native.Compile();
    }
    if error.None? {
      sent, nativeFields := types.fields, native.fields;
      ok := types.Match(native);
      if types.isEquivalent && ok {
        EquivalentIsFlat(sent, types.fields, nativeFields, types.aliases + native.aliases);
      }
      if ok && forall d :: d in types.depends ==> d.TypeInfo? && Compiled(d) {
        CompiledDescribes(types);
      }
    }
  }

  lemma {:induction false} EquivalentIsFlat(
      sent: seq<Field>, fields: seq<Field>, native: seq<Field>, aliases: Aliases)
    requires Relinked(sent, fields, native, aliases) && forall i: nat :: i < |sent| ==> !sent[i].extended
    ensures Extended(fields, |fields|) == []
  {
    hide Extended;
    NoneExtended(fields);
  }

  /** What a native field i must get: the value of the last field that is meant for it, if there is one. */
  predicate Arrives(
      sent: seq<Field>, native: seq<Field>, aliases: Aliases, fields: seq<Field>, types: TypeInfo,
      values: seq<Value>, i: nat, member: Option<Slot>)
    requires |sent| == |fields| && i < |native| && Compiled(types) && Values(fields, types, values)
  {
    match member
    case None => forall j: nat :: j < |sent| ==> !Feeds(sent, native, aliases, j, i)
    case Some(slot) =>
      exists j: nat :: j < |sent| && IsLastFed(sent, native, aliases, j, i)
                       && slot == Slot(sent[j].code, FieldBytes(fields, types, values, j))
  }

  predicate IsLastFed(sent: seq<Field>, native: seq<Field>, aliases: Aliases, j: nat, i: nat)
    requires j < |sent| && i < |native|
  {
    Feeds(sent, native, aliases, j, i) && forall k: nat :: j < k < |sent| ==> !Feeds(sent, native, aliases, k, i)
  }

  method Receive(
      input: TypeInput, types: TypeCode, ghost sent: seq<Field>, native: seq<Field>, ghost aliases: Aliases,
      ghost values: seq<Value>, ghost rest: seq<Byte>, value: NativeValue)
    returns (status: Status)
    requires MatchedWith(types, sent, native, aliases)
    requires Paired(aliases) && DistinctNames(native)
    requires InfoFits(types.Info(), types.fields) && Values(types.fields, types.Info(), values)
    requires input.Valid() && input.depth == 0
    requires var s, v := StructOf(types.Info(), 0), ClassValue(types.fields, values);
             HasType(s, v) && input.Rest() == Encode(s, v) + rest
    requires |value.members| == |native| && forall i: nat :: i < |native| ==> value.members[i].None?
    modifies input, value
    ensures var s, v := StructOf(types.Info(), 0), ClassValue(types.fields, values);
            status == if Nesting(s, v) <= MAX_RECURSION then Fine else Threw
    ensures status.Fine? ==>
              && input.Valid() && input.Rest() == rest && |value.members| == |native|
              && forall i: nat :: i < |native| ==>
                   Arrives(sent, native, aliases, types.fields, types.Info(), values, i, value.members[i])
  {
    hide Extended, Before, WellFormed, FieldMap, StructOf, Compiled, Copy, Encode, Pieces, Nesting, HasType, Source,
      Received, Feeds, ClassValue, Paired, DistinctNames, ComesThrough, Arrives, Linked, Relinked, Values, InfoFits,
      Expected, SameNames, CodesFit, LaidOut;
    ghost var info, fields, members := types.Info(), types.fields, value.members;
    MatchLinks(sent, fields, native, aliases);
    Outcome(fields, info, types.fieldMap, native, values, rest, members);
    status := ReadClass(input, types, native, value);
    if status.Fine? {
      AllArrive(sent, fields, native, aliases, info, values, members, value.members);
    }
  }

  /** What reading an encoded value comes to. */
  lemma {:induction false} Outcome(
      fields: seq<Field>, types: TypeInfo, fieldMap: seq<Option<nat>>, native: seq<Field>, values: seq<Value>,
      rest: seq<Byte>, members: seq<Option<Slot>>)
    requires InfoFits(types, fields) && Values(fields, types, values) && Linked(fields, fieldMap, native)
    requires forall j: nat :: j < |fields| ==> LaidOut(fields, j)
    requires |members| == |native| && HasType(StructOf(types, 0), ClassValue(fields, values))
    ensures var s, v := StructOf(types, 0), ClassValue(fields, values);
            var data := Encode(s, v) + rest;
            var r := Copy(s, data, 0);
            if Nesting(s, v) > MAX_RECURSION then r.Failed?
            else
              && r.Done? && r.value.size <= |data| && data[r.value.size..] == rest && |data| >= types.total
              && var pieces := Pieces(s.ext, 0, data[types.total..], 1);
                 && |pieces| == |types.ext|
                 && ComesThrough(fields, types, fieldMap, native, values, members,
                                 Received(fields, true, fieldMap, native, data[..types.total], pieces, members))
  {
    hide Extended, Before, WellFormed, FieldMap, StructOf, Compiled, Copy, Encode, Pieces, Nesting, HasType, Source,
      Received, ClassValue, ComesThrough, Linked, Values, InfoFits, LaidOut;
    SchemaEvolution(fields, types, fieldMap, native, values, rest, 0, members);
  }

  /**
   Writes a value under one version and reads it under another. It only fails if the value is nested
   too deeply; the stream is left right behind the value.
   */
  method SendAndReceive(
      types: TypeCode, ghost sent: seq<Field>, native: seq<Field>, ghost aliases: Aliases,
      values: seq<Value>, rest: seq<Byte>)
    returns (status: Status, value: NativeValue, input: TypeInput)
    requires MatchedWith(types, sent, native, aliases)
    requires Paired(aliases) && DistinctNames(native)
    requires InfoFits(types.Info(), types.fields) && Values(types.fields, types.Info(), values)
    ensures var s, v := StructOf(types.Info(), 0), ClassValue(types.fields, values);
            HasType(s, v) && status == if Nesting(s, v) <= MAX_RECURSION then Fine else Threw
    ensures status.Fine? ==>
              && input.Valid() && input.Rest() == rest && |value.members| == |native|
              && forall i: nat :: i < |native| ==>
                   Arrives(sent, native, aliases, types.fields, types.Info(), values, i, value.members[i])
  {
    hide Extended, Before, WellFormed, FieldMap, StructOf, Compiled, Copy, Encode, Pieces, Nesting, HasType, Source,
      Received, Feeds, ClassValue, Paired, DistinctNames, ComesThrough, Arrives, Linked, Relinked,
      Expected, SameNames, CodesFit, LaidOut;
    ghost var info, fields := types.Info(), types.fields;
    ClassHasType(fields, info, values);
    var out := new TypeOutput();
    WriteClass(out, types, values);
    assert out.data == Encode(StructOf(info, 0), ClassValue(fields, values));
    input := new TypeInput(out.data + rest);
    value := new NativeValue(|native|);
    status := Receive(input, types, sent, native, aliases, values, rest, value);
  }

  lemma {:induction false} AllArrive(
      sent: seq<Field>, fields: seq<Field>, native: seq<Field>, aliases: Aliases, types: TypeInfo,
      values: seq<Value>, members: seq<Option<Slot>>, result: seq<Option<Slot>>)
    requires Paired(aliases) && DistinctNames(native)
    requires Relinked(sent, fields, native, aliases) && Linked(fields, FieldMap(sent, native, aliases), native)
    requires InfoFits(types, fields) && Values(fields, types, values)
    requires forall i: nat :: i < |members| ==> members[i].None?
    requires ComesThrough(fields, types, FieldMap(sent, native, aliases), native, values, members, result)
    ensures |result| == |native|
    ensures forall i: nat :: i < |native| ==> Arrives(sent, native, aliases, fields, types, values, i, result[i])
  {
    hide Extended, Before, WellFormed, FieldMap, Compiled, Source, Feeds, Values, Paired, DistinctNames, Linked, FieldBytes;
    forall i: nat | i < |native|
      ensures Arrives(sent, native, aliases, fields, types, values, i, result[i])
    {
      SourceIsLastFed(sent, fields, native, aliases, i);
      var source := Source(fields, FieldMap(sent, native, aliases), native, i);
      if source.Some? {
        assert IsLastFed(sent, native, aliases, source.value, i);
      }
    }
  }

  /**
   An integer member that is fed by an integer field, of whatever width, sign and byte order, gets the
   lowest bits of the number that was sent: that number itself exactly if its type has it.
   */
  lemma {:induction false} NumberArrives(
      sent: seq<Field>, fields: seq<Field>, native: seq<Field>, aliases: Aliases, types: TypeInfo,
      values: seq<Value>, i: nat, member: Option<Slot>, j: nat, kind: Cell, n: int, t: Cell)
    requires Relinked(sent, fields, native, aliases) && i < |native|
    requires Compiled(types) && Values(fields, types, values)
    requires Arrives(sent, native, aliases, fields, types, values, i, member)
    requires j < |sent| && IsLastFed(sent, native, aliases, j, i) && !sent[j].extended && sent[j].code == [kind]
    requires IsInteger(kind) && InRange(kind, n) && IsNative(t)
    requires values[j].Raw? && WriteNumber(kind, n) <= values[j].bytes
    ensures member.Some? && member.value.code == [kind] && |member.value.bytes| >= WidthOf(kind)
    ensures var r := ReadValue(t, kind, member.value.bytes).0; Becomes(t, n, r) && (r == n <==> InRange(t, n))
  {
    hide Feeds, Becomes, Cast, WriteNumber, InRange, ReadValue, IsInteger, IsNative;
    assert fields[j] == sent[j];
    var written, bytes := WriteNumber(kind, n), values[j].bytes;
    assert bytes == written + bytes[|written|..];
    IntegersComeThrough(kind, t, n, bytes[|written|..]);
    LastFedIsOne(sent, native, aliases, i, j);
  }

  lemma LastFedIsOne(sent: seq<Field>, native: seq<Field>, aliases: Aliases, i: nat, j: nat)
    requires i < |native| && j < |sent| && IsLastFed(sent, native, aliases, j, i)
    ensures forall k: nat :: k < |sent| && IsLastFed(sent, native, aliases, k, i) ==> k == j
  {
    hide Feeds;
  }
}

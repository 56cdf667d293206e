/** `TypeCode` objects: `compile` and `match` as they run, tied to the functions of `Types`. */
module TypeCodes {
  import opened Bytes
  import opened ByteCode
  import opened Schemas
  import opened Wire
  import opened Types

  // ---------------------------------------------------------------------------------------------
  // Memory equivalence

  /** Codes of numbers that are laid out alike. */
  predicate AlikeNumbers(a: Cell, b: Cell) {
    || (a == b && (a == CODE_NULL || (IsPrim(a) && !IsAlt(a))))
    || (IsByteSized(a) && IsByteSized(b))
    || (a in {CODE_INT16, CODE_UINT16} && b in {CODE_INT16, CODE_UINT16})
    || (a in {CODE_INT32, CODE_UINT32} && b in {CODE_INT32, CODE_UINT32})
    || (a in {CODE_INT64, CODE_UINT64} && b in {CODE_INT64, CODE_UINT64})
  }

  /** `is_equivalent_code` on the codes at i and j. */
  predicate EquivalentCode(a: seq<Cell>, at: TypeInfo, i: nat, b: seq<Cell>, bt: TypeInfo, j: nat)
    requires WellFormed(a, at, i) && WellFormed(b, bt, j)
    decreases |a| - i, 1, 0
  {
    if AlikeNumbers(a[i], b[j]) then true
    else if a[i] == CODE_ARRAY && b[j] == CODE_ARRAY then
      ElementCode(a, at, i);
      ElementCode(b, bt, j);
      a[i + 1] == b[j + 1] && EquivalentCode(a, at, i + 2, b, bt, j + 2)
    else if a[i] == CODE_TUPLE && b[j] == CODE_TUPLE then
      EquivalentAll(a, at, i, Fetch(a, at, i).value.children, b, bt, j, Fetch(b, bt, j).value.children)
    else false
  }

  predicate EquivalentAll(
      a: seq<Cell>, at: TypeInfo, i: nat, ca: seq<nat>, b: seq<Cell>, bt: TypeInfo, j: nat, cb: seq<nat>)
    requires i < |a| && j < |b|
    requires forall k: nat :: k < |ca| ==> i < ca[k] && WellFormed(a, at, ca[k])
    requires forall k: nat :: k < |cb| ==> j < cb[k] && WellFormed(b, bt, cb[k])
    decreases |a| - i, 0, |ca|
  {
    if ca == [] || cb == [] then ca == cb
    else
      && EquivalentCode(a, at, ca[0], b, bt, cb[0])
      && EquivalentAll(a, at, i, ca[1..], b, bt, j, cb[1..])
  }

  /** Equivalent codes have equal sizes. */
  lemma {:induction false} EquivalentSize(a: seq<Cell>, at: TypeInfo, i: nat, b: seq<Cell>, bt: TypeInfo, j: nat)
    requires WellFormed(a, at, i) && WellFormed(b, bt, j) && EquivalentCode(a, at, i, b, bt, j)
    ensures ValueSize(a, at, i) == ValueSize(b, bt, j)
    decreases |a| - i, 1, 0
  {
    if AlikeNumbers(a[i], b[j]) {
      hide WellFormed, Fetch;
    } else if a[i] == CODE_ARRAY {
      ElementCode(a, at, i);
      ElementCode(b, bt, j);
      EquivalentSize(a, at, i + 2, b, bt, j + 2);
    } else {
      var ca, cb := Fetch(a, at, i).value.children, Fetch(b, bt, j).value.children;
      EquivalentSizes(a, at, i, ca, b, bt, j, cb);
    }
  }

  lemma {:induction false} EquivalentSizes(
      a: seq<Cell>, at: TypeInfo, i: nat, ca: seq<nat>, b: seq<Cell>, bt: TypeInfo, j: nat, cb: seq<nat>)
    requires i < |a| && j < |b|
    requires forall k: nat :: k < |ca| ==> i < ca[k] && WellFormed(a, at, ca[k])
    requires forall k: nat :: k < |cb| ==> j < cb[k] && WellFormed(b, bt, cb[k])
    requires EquivalentAll(a, at, i, ca, b, bt, j, cb)
    ensures |ca| == |cb| && TupleSize(a, at, i, ca) == TupleSize(b, bt, j, cb)
    decreases |a| - i, 0, |ca|
  {
    hide EquivalentCode, ValueSize, WellFormed;
    if ca != [] && cb != [] {
      EquivalentSize(a, at, ca[0], b, bt, cb[0]);
      EquivalentSizes(a, at, i, ca[1..], b, bt, j, cb[1..]);
    }
  }

  /** What `match` calls memory equivalent. */
  predicate MemoryEquivalent(
      fields: seq<Field>, depends: seq<TypeInfo>, native: seq<Field>, nativeDepends: seq<TypeInfo>,
      nativeIsClass: bool, nativeSize: nat)
    requires CodesFit(fields, depends) && CodesFit(native, nativeDepends)
  {
    && !nativeIsClass && |fields| == |native|
    && (forall i: nat :: i < |fields| ==> !fields[i].extended && !native[i].extended)
    && (forall i: nat :: i < |fields| ==>
          && fields[i].name == native[i].name
          && EquivalentCode(fields[i].code, Scope(depends), 0, native[i].code, Scope(nativeDepends), 0))
    && Before(fields, |fields|) == nativeSize
  }

  predicate CodesFit(fields: seq<Field>, depends: seq<TypeInfo>) {
    forall i: nat :: i < |fields| ==> WellFormed(fields[i].code, Scope(depends), 0)
  }

  // ---------------------------------------------------------------------------------------------
  // The object

  /** Fields as they were sent are the same. */
  predicate SameNames(a: seq<Field>, b: seq<Field>) {
    && |a| == |b|
    && forall i: nat :: i < |a| ==> a[i].name == b[i].name && a[i].code == b[i].code && a[i].extended == b[i].extended
  }

  /** Where `match` finds the primitive field of each native field. */
  function FieldMap(fields: seq<Field>, native: seq<Field>, aliases: Aliases): (r: seq<Option<nat>>)
    ensures |r| == |native|
  {
    seq(|native|, i requires 0 <= i < |native| =>
      var m := Link(Named(fields, false, |fields|), aliases);
      if native[i].name in m then Some(m[native[i].name]) else None)
  }

  /** Which native field an extended field of that name is read into. */
  function NativeIndex(native: seq<Field>, aliases: Aliases, name: string): int {
    var m := Link(Named(native, true, |native|), aliases);
    if name in m then m[name] else -1
  }

  /** The last field with each name, in a list of field indices. */
  function NamedAt(fields: seq<Field>, at: seq<nat>, n: nat): map<string, nat>
    requires n <= |at| && forall k: nat :: k < |at| ==> at[k] < |fields|
  {
    if n == 0 then map[] else NamedAt(fields, at, n - 1)[fields[at[n - 1]].name := at[n - 1]]
  }

  lemma {:induction false} NamedAtPrefix(fields: seq<Field>, at: seq<nat>, more: seq<nat>, n: nat)
    requires n <= |at| && forall k: nat :: k < |at + more| ==> (at + more)[k] < |fields|
    requires forall k: nat :: k < |at| ==> at[k] < |fields|
    ensures NamedAt(fields, at + more, n) == NamedAt(fields, at, n)
  {
    if n > 0 {
      NamedAtPrefix(fields, at, more, n - 1);
      assert (at + more)[n - 1] == at[n - 1];
    }
  }

  lemma {:induction false} NamedAtOneMore(fields: seq<Field>, at: seq<nat>, j: nat)
    requires j < |fields| && forall k: nat :: k < |at| ==> at[k] < |fields|
    ensures NamedAt(fields, at + [j], |at| + 1) == NamedAt(fields, at, |at|)[fields[j].name := j]
  {
    NamedAtPrefix(fields, at, [j], |at|);
    assert (at + [j])[|at|] == j;
  }

  lemma {:induction false} NamedAtExtended(fields: seq<Field>, n: nat)
    requires n <= |fields|
    ensures var at := Extended(fields, n); NamedAt(fields, at, |at|) == Named(fields, true, n)
  {
    hide NamedAt;
    if n > 0 {
      NamedAtExtended(fields, n - 1);
      if fields[n - 1].extended {
        NamedAtOneMore(fields, Extended(fields, n - 1), n - 1);
      }
    } else {
      NoneNamed(fields);
    }
  }

  lemma NoneNamed(fields: seq<Field>)
    ensures NamedAt(fields, [], 0) == map[]
  {
  }

  method LinkFieldMap(m: map<string, nat>, aliases: Aliases) returns (r: map<string, nat>)
    ensures r == Link(m, aliases)
  {
    r := m;
    var i := 0;
    while i < |aliases|
      invariant 0 <= i <= |aliases| && Link(r, aliases[i..]) == Link(m, aliases)
    {
      var first, second := aliases[i].0, aliases[i].1;
      assert aliases[i..][0] == aliases[i] && aliases[i..][1..] == aliases[i + 1..];
      if first !in r && second in r {
        r := r[first := r[second]];
      }
      if second !in r && first in r {
        r := r[second := r[first]];
      }
      i := i + 1;
    }
  }

  function ExtCodes(fields: seq<Field>, at: seq<nat>): (codes: seq<seq<Cell>>)
    requires forall k: nat :: k < |at| ==> at[k] < |fields|
    ensures |codes| == |at|
  {
    seq(|at|, k requires 0 <= k < |at| => fields[at[k]].code)
  }

  class TypeCode {
    var fields: seq<Field>
    const depends: seq<TypeInfo>
    const aliases: Aliases
    const isNative: bool
    const isClass: bool
    const nativeSize: nat
    var extFields: seq<nat>
    var total: nat
    var fieldMap: seq<Option<nat>>
    var isEquivalent: bool
    var isMatched: bool

    constructor (
        fields: seq<Field>, depends: seq<TypeInfo>, aliases: Aliases, isNative: bool, isClass: bool, nativeSize: nat)
      ensures this.fields == fields && this.depends == depends && this.aliases == aliases
      ensures this.isNative == isNative && this.isClass == isClass && this.nativeSize == nativeSize
      ensures extFields == [] && total == 0 && fieldMap == [] && !isEquivalent && !isMatched
    {
      this.fields, this.depends, this.aliases := fields, depends, aliases;
      this.isNative, this.isClass, this.nativeSize := isNative, isClass, nativeSize;
      extFields, total, fieldMap, isEquivalent, isMatched := [], 0, [], false, false;
    }

    /** What `compile` establishes. */
    ghost predicate IsCompiled()
      reads this
    {
      && CodesFit(fields, depends)
      && (forall i: nat :: i < |fields| ==> LaidOut(fields, i) && (fields[i].extended || fields[i].dataSize > 0))
      && extFields == Extended(fields, |fields|)
      && total == Before(fields, |fields|)
    }

    /** What the interpreters get to know of this type. */
    function Info(): TypeInfo
      requires forall k: nat :: k < |extFields| ==> extFields[k] < |fields|
      reads this
    {
      TypeInfo(total, isEquivalent, ExtCodes(fields, extFields), depends)
    }

    /** `compile`. */
    method Compile() returns (error: Option<CompileError>)
      requires extFields == []
      modifies this
      ensures error.None? <==> Compiles(old(fields), depends)
      ensures error.None? ==> IsCompiled() && SameNames(old(fields), fields)
      ensures error.None? ==>
                forall i: nat :: i < |fields| ==>
                  SettledSize(old(fields[i]), depends) == Ok(fields[i].dataSize)
    {
      hide SettledSize, Before, Extended;
      var i, offset := 0, 0;
      error := None;
      NoFields(fields);
      while i < |fields|
        invariant 0 <= i <= |fields| == |old(fields)|
        invariant forall k: nat :: i <= k < |fields| ==> fields[k] == old(fields)[k]
        invariant forall k: nat :: k < i ==>
                    && fields[k] ==
                         old(fields)[k].(index := k, offset := fields[k].offset, dataSize := fields[k].dataSize)
                    && SettledSize(old(fields)[k], depends) == Ok(fields[k].dataSize)
                    && LaidOut(fields, k)
        invariant offset == Before(fields, i) && extFields == Extended(fields, i)
      {
        var f := fields[i];
        var size := SettledSize(f, depends);
        if size.Err? {
          return Some(size.error);
        }
        ghost var was := fields;
        if f.extended {
          extFields := extFields + [i];
          fields := fields[i := f.(index := i, dataSize := size.value)];
        } else {
          fields := fields[i := f.(index := i, dataSize := size.value, offset := offset)];
          offset := offset + size.value;
        }
        forall k: nat | k <= i
          ensures Before(fields, k) == Before(was, k) && Extended(fields, k) == Extended(was, k)
        {
          BeforeAgrees(fields, was, k);
        }
        OneMoreField(fields, i);
        i := i + 1;
      }
      total := offset;
      AllFit(fields, old(fields), depends);
    }

    /** `match`: links this type's fields to those of the native type, which may be this one. */
    method Match(native: TypeCode) returns (ok: bool)
      requires IsCompiled() && native.IsCompiled()
      modifies this
      ensures ok == native.isNative
      ensures !ok ==> fields == old(fields) && fieldMap == old(fieldMap)
      ensures ok ==>
                && IsCompiled() && isMatched
                && fieldMap == FieldMap(old(fields), old(native.fields), aliases + native.aliases)
                && Relinked(old(fields), fields, old(native.fields), aliases + native.aliases)
                && isEquivalent == MemoryEquivalent(old(fields), depends, old(native.fields), native.depends,
                                                    native.isClass, native.nativeSize)
    {
      hide Before, Extended, WellFormed, FieldMap, MemoryEquivalent, Link, Named, CodesFit;
      if !native.isNative {
        return false;
      }
      fieldMap := MatchPrimitive(native);
      isEquivalent := CheckEquivalent(native);
      var m := ExtendedNames(native);
      LinkExtended(m);
      assert Relinked(old(fields), fields, old(native.fields), aliases + native.aliases);
      SameLayout(old(fields), fields);
      SameCodes(old(fields), fields, depends);
      isMatched := true;
      ok := true;
    }

    method CheckEquivalent(native: TypeCode) returns (equivalent: bool)
      requires IsCompiled() && native.IsCompiled()
      ensures equivalent == MemoryEquivalent(fields, depends, native.fields, native.depends,
                                             native.isClass, native.nativeSize)
    {
      hide Before, Extended, WellFormed, EquivalentCode;
      equivalent := !native.isClass && extFields == [] && native.extFields == [];
      NoneExtended(fields);
      NoneExtended(native.fields);
      if |fields| == |native.fields| {
        var i := 0;
        while i < |fields|
          invariant 0 <= i <= |fields|
          invariant equivalent ==
                      (!native.isClass && extFields == [] && native.extFields == []
                       && forall k: nat :: k < i ==>
                            && fields[k].name == native.fields[k].name
                            && EquivalentCode(fields[k].code, Scope(depends), 0,
                                              native.fields[k].code, Scope(native.depends), 0))
        {
          if fields[i].name != native.fields[i].name {
            equivalent := false;
          }
          if !EquivalentCode(fields[i].code, Scope(depends), 0, native.fields[i].code, Scope(native.depends), 0) {
            equivalent := false;
          }
          i := i + 1;
        }
      } else {
        equivalent := false;
      }
      if total != native.nativeSize {
        equivalent := false;
      }
    }

    method MatchPrimitive(native: TypeCode) returns (r: seq<Option<nat>>)
      requires native.IsCompiled()
      ensures r == FieldMap(fields, native.fields, aliases + native.aliases)
    {
      hide Before, Extended, WellFormed, Named, Link;
      var m: map<string, nat> := map[];
      var i := 0;
      NamedNext(fields, false, 0);
      while i < |fields|
        invariant 0 <= i <= |fields| && m == Named(fields, false, i)
      {
        NamedNext(fields, false, i + 1);
        if !fields[i].extended {
          m := m[fields[i].name := i];
        }
        i := i + 1;
      }
      m := LinkFieldMap(m, aliases);
      m := LinkFieldMap(m, native.aliases);
      LinkAppend(Named(fields, false, |fields|), aliases, native.aliases);
      r := seq(|native.fields|, _ => None);
      i := 0;
      while i < |native.fields|
        invariant 0 <= i <= |native.fields| == |r|
        invariant forall k: nat :: k < i ==>
                    r[k] == if native.fields[k].name in m then Some(m[native.fields[k].name]) else None
      {
        var field := native.fields[i];
        assert LaidOut(native.fields, i);
        r := r[field.index := if field.name in m then Some(m[field.name]) else None];
        i := i + 1;
      }
    }

    method ExtendedNames(native: TypeCode) returns (m: map<string, nat>)
      requires native.IsCompiled()
      ensures m == Link(Named(native.fields, true, |native.fields|), aliases + native.aliases)
    {
      hide Before, WellFormed, Link, NamedAt, Named, Extended;
      var other := native.fields;
      m := map[];
      var i := 0;
      NamedAtNext(other, native.extFields, 0);
      while i < |native.extFields|
        invariant 0 <= i <= |native.extFields| && m == NamedAt(other, native.extFields, i)
      {
        NamedAtNext(other, native.extFields, i + 1);
        var field := other[native.extFields[i]];
        assert LaidOut(other, native.extFields[i]);
        m := m[field.name := field.index];
        i := i + 1;
      }
      NamedAtExtended(other, |other|);
      m := LinkFieldMap(m, aliases);
      m := LinkFieldMap(m, native.aliases);
      LinkAppend(Named(other, true, |other|), aliases, native.aliases);
    }

    method LinkExtended(m: map<string, nat>)
      requires IsCompiled()
      modifies this`fields
      ensures |fields| == |old(fields)|
      ensures forall j: nat :: j < |fields| ==>
                fields[j] == if old(fields)[j].extended then Relink(old(fields)[j], m) else old(fields)[j]
    {
      hide Before, WellFormed, Extended;
      var i := 0;
      while i < |extFields|
        invariant 0 <= i <= |extFields| && |fields| == |old(fields)|
        invariant forall j: nat :: j < |fields| && !old(fields)[j].extended ==> fields[j] == old(fields)[j]
        invariant forall k: nat :: i <= k < |extFields| ==> fields[extFields[k]] == old(fields)[extFields[k]]
        invariant forall k: nat :: k < i ==> fields[extFields[k]] == Relink(old(fields)[extFields[k]], m)
      {
        var j := extFields[i];
        fields := fields[j := Relink(fields[j], m)];
        i := i + 1;
      }
    }
  }

  function Relink(f: Field, m: map<string, nat>): Field {
    f.(nativeIndex := if f.name in m then m[f.name] else -1)
  }

  /** The extended fields know which native field they are read into. */
  predicate Relinked(was: seq<Field>, fields: seq<Field>, native: seq<Field>, aliases: Aliases) {
    && |fields| == |was|
    && forall j: nat :: j < |fields| ==>
         fields[j] == if was[j].extended then was[j].(nativeIndex := NativeIndex(native, aliases, was[j].name))
                      else was[j]
  }

  lemma NamedNext(fields: seq<Field>, extended: bool, n: nat)
    requires n <= |fields|
    ensures Named(fields, extended, n) ==
              if n == 0 then map[]
              else if fields[n - 1].extended == extended then
                Named(fields, extended, n - 1)[fields[n - 1].name := n - 1]
              else Named(fields, extended, n - 1)
  {
  }

  lemma NamedAtNext(fields: seq<Field>, at: seq<nat>, n: nat)
    requires n <= |at| && forall k: nat :: k < |at| ==> at[k] < |fields|
    ensures NamedAt(fields, at, n) ==
              if n == 0 then map[] else NamedAt(fields, at, n - 1)[fields[at[n - 1]].name := at[n - 1]]
  {
  }

  lemma NoneExtended(fields: seq<Field>)
    ensures Extended(fields, |fields|) == [] <==> forall i: nat :: i < |fields| ==> !fields[i].extended
  {
    if Extended(fields, |fields|) != [] {
      assert fields[Extended(fields, |fields|)[0]].extended;
    }
  }

  lemma SameCodes(a: seq<Field>, b: seq<Field>, depends: seq<TypeInfo>)
    requires SameNames(a, b) && CodesFit(a, depends)
    ensures CodesFit(b, depends)
  {
  }

  /** Linking moves nothing. */
  lemma SameLayout(a: seq<Field>, b: seq<Field>)
    requires |a| == |b|
    requires forall i: nat :: i < |a| ==> b[i] == a[i].(nativeIndex := b[i].nativeIndex)
    ensures forall n: nat :: n <= |a| ==> Before(a, n) == Before(b, n) && Extended(a, n) == Extended(b, n)
  {
    forall n: nat | n <= |a|
      ensures Before(a, n) == Before(b, n) && Extended(a, n) == Extended(b, n)
    {
      BeforeAgrees(a, b, n);
    }
  }

  lemma OneMoreField(fields: seq<Field>, n: nat)
    requires n < |fields|
    ensures Before(fields, n + 1) == Before(fields, n) + if fields[n].extended then 0 else fields[n].dataSize
    ensures Extended(fields, n + 1) == Extended(fields, n) + if fields[n].extended then [n] else []
  {
  }

  lemma NoFields(fields: seq<Field>)
    ensures Before(fields, 0) == 0 && Extended(fields, 0) == []
  {
  }

  lemma AllFit(fields: seq<Field>, sent: seq<Field>, depends: seq<TypeInfo>)
    requires SameNames(fields, sent)
    requires forall i: nat :: i < |fields| ==> SettledSize(sent[i], depends) == Ok(fields[i].dataSize)
    ensures CodesFit(fields, depends)
    ensures forall i: nat :: i < |fields| ==> fields[i].extended || fields[i].dataSize > 0
  {
    forall i: nat | i < |fields|
      ensures WellFormed(fields[i].code, Scope(depends), 0)
    {
      ValidateDecides(fields[i].code, Scope(depends), 0, 0);
      assert SettledSize(sent[i], depends).Ok?;
    }
  }
}

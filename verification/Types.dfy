/**
 Type codes: how `compile` lays out the fields of a type and how `match` links the fields of a
 received type to those of the native one.
 */
module Types {
  import opened Bytes
  import opened ByteCode
  import opened Wire

  /** A field as it is sent, and what `compile` and `match` work out for it. */
  datatype Field = Field(
    name: string, code: seq<Cell>, dataSize: nat, extended: bool, index: nat, offset: nat, nativeIndex: int)

  type Aliases = seq<(string, string)>

  datatype CompileError = BadCode(error: CodeError) | InvalidDataSize | InvalidPrimitiveField

  // ---------------------------------------------------------------------------------------------
  // Laying fields out

  /** Codes are checked and measured against the types their structs refer to, and nothing else. */
  function Scope(depends: seq<TypeInfo>): TypeInfo {
    TypeInfo(0, false, [], depends)
  }

  lemma {:induction false} WellFormedInScope(code: seq<Cell>, a: TypeInfo, b: TypeInfo, pos: nat)
    requires a.TypeInfo? && b.TypeInfo? && a.depends == b.depends && WellFormed(code, a, pos)
    ensures WellFormed(code, b, pos)
    decreases |code| - pos
  {
    var instr := Fetch(code, a, pos).value;
    assert Fetch(code, b, pos) == Ok(instr);
    forall k: nat | k < |instr.children|
      ensures WellFormed(code, b, instr.children[k])
    {
      WellFormedInScope(code, a, b, instr.children[k]);
    }
  }

  /** The size `compile` settles on: the one that was sent, else that of the code, in 16 bits. */
  function SettledSize(f: Field, depends: seq<TypeInfo>): Result<nat, CompileError> {
    var types := Scope(depends);
    var r := Validate(f.code, types, 0, 0);
    if r.Err? then Err(BadCode(r.error))
    else if f.extended then Ok(f.dataSize)
    else
      ValidateDecides(f.code, types, 0, 0);
      var size := ValueSize(f.code, types, 0);
      var settled := if f.dataSize == 0 then size % 0x10000 else f.dataSize;
      if f.dataSize != 0 && f.dataSize < size then Err(InvalidDataSize)
      else if settled == 0 then Err(InvalidPrimitiveField)
      else Ok(settled)
  }

  predicate Compiles(fields: seq<Field>, depends: seq<TypeInfo>) {
    forall i: nat :: i < |fields| ==> SettledSize(fields[i], depends).Ok?
  }

  /** The bytes of the primitive fields before the n-th field. */
  function Before(fields: seq<Field>, n: nat): nat
    requires n <= |fields|
  {
    if n == 0 then 0
    else Before(fields, n - 1) + if fields[n - 1].extended then 0 else fields[n - 1].dataSize
  }

  /** The extended fields among the first n, in order. */
  function Extended(fields: seq<Field>, n: nat): (at: seq<nat>)
    requires n <= |fields|
    ensures forall k: nat :: k < |at| ==> at[k] < n && fields[at[k]].extended
    ensures forall j, k :: 0 <= j < k < |at| ==> at[j] < at[k]
    ensures forall j: nat :: j < n && fields[j].extended ==> j in at
  {
    if n == 0 then []
    else if fields[n - 1].extended then Extended(fields, n - 1) + [n - 1]
    else Extended(fields, n - 1)
  }

  /** Field i is where it belongs. */
  predicate LaidOut(fields: seq<Field>, i: nat)
    requires i < |fields|
  {
    && fields[i].index == i
    && (!fields[i].extended ==> fields[i].offset == Before(fields, i))
  }

  lemma {:induction false} BeforeAgrees(a: seq<Field>, b: seq<Field>, n: nat)
    requires n <= |a| && n <= |b|
    requires forall i: nat :: i < n ==> a[i].extended == b[i].extended && a[i].dataSize == b[i].dataSize
    ensures Before(a, n) == Before(b, n) && Extended(a, n) == Extended(b, n)
  {
    if n > 0 {
      BeforeAgrees(a, b, n - 1);
    }
  }

  lemma {:induction false} BeforeGrows(fields: seq<Field>, i: nat, n: nat)
    requires i <= n <= |fields|
    ensures Before(fields, i) <= Before(fields, n)
    decreases n - i
  {
    if i < n {
      BeforeGrows(fields, i, n - 1);
    }
  }

  // ---------------------------------------------------------------------------------------------
  // Linking fields by name

  /** Where the last primitive (or extended) field of each name is. */
  function Named(fields: seq<Field>, extended: bool, n: nat): map<string, nat>
    requires n <= |fields|
  {
    if n == 0 then map[]
    else if fields[n - 1].extended == extended then Named(fields, extended, n - 1)[fields[n - 1].name := n - 1]
    else Named(fields, extended, n - 1)
  }

  lemma {:induction false} NamedIsLast(fields: seq<Field>, extended: bool, n: nat, name: string)
    requires n <= |fields|
    ensures var m := Named(fields, extended, n);
            && (name in m ==>
                  && m[name] < n && fields[m[name]].name == name && fields[m[name]].extended == extended
                  && forall j: nat :: m[name] < j < n && fields[j].extended == extended ==> fields[j].name != name)
            && (name !in m ==>
                  forall j: nat :: j < n && fields[j].extended == extended ==> fields[j].name != name)
  {
    if n > 0 {
      NamedIsLast(fields, extended, n - 1, name);
    }
  }

  /** One alias: whichever of the two names is missing gets what the other one has. */
  function LinkOne(m: map<string, nat>, first: string, second: string): map<string, nat> {
    if first !in m && second in m then m[first := m[second]]
    else if second !in m && first in m then m[second := m[first]]
    else m
  }

  /** `link_field_map`: the aliases one after the other. */
  function Link(m: map<string, nat>, aliases: Aliases): map<string, nat>
    decreases |aliases|
  {
    if aliases == [] then m
    else Link(LinkOne(m, aliases[0].0, aliases[0].1), aliases[1..])
  }

  lemma {:induction false} LinkAppend(m: map<string, nat>, a: Aliases, b: Aliases)
    ensures Link(Link(m, a), b) == Link(m, a + b)
    decreases |a|
  {
    if a == [] {
      assert [] + b == b;
    } else {
      assert (a + b)[1..] == a[1..] + b;
      LinkAppend(LinkOne(m, a[0].0, a[0].1), a[1..], b);
    }
  }

  /** Names that have a field keep it; other names can only get fields that are there. */
  lemma {:induction false} LinkKeeps(m: map<string, nat>, aliases: Aliases, name: string)
    ensures name in m ==> name in Link(m, aliases) && Link(m, aliases)[name] == m[name]
    ensures name in Link(m, aliases) ==> exists other :: other in m && m[other] == Link(m, aliases)[name]
    decreases |aliases|
  {
    if aliases != [] {
      LinkKeeps(LinkOne(m, aliases[0].0, aliases[0].1), aliases[1..], name);
    }
  }

  /** Two aliases name the same pair of fields, in either order. */
  predicate SamePair(a: (string, string), b: (string, string)) {
    (a.0 == b.0 && a.1 == b.1) || (a.0 == b.1 && a.1 == b.0)
  }

  /** No name is in two different aliases; the same alias may well be in both versions of a type. */
  predicate Paired(aliases: Aliases) {
    forall j, k :: 0 <= j < k < |aliases| ==>
      || SamePair(aliases[j], aliases[k])
      || (&& aliases[j].0 != aliases[k].0 && aliases[j].0 != aliases[k].1
          && aliases[j].1 != aliases[k].0 && aliases[j].1 != aliases[k].1)
  }

  function Partner(aliases: Aliases, name: string): (r: Option<string>)
    ensures r.None? ==> forall k: nat :: k < |aliases| ==> aliases[k].0 != name && aliases[k].1 != name
    ensures r.Some? ==> (name, r.value) in aliases || (r.value, name) in aliases
  {
    if aliases == [] then None
    else if aliases[0].0 == name then
      assert aliases[0] == (name, aliases[0].1);
      Some(aliases[0].1)
    else if aliases[0].1 == name then
      assert aliases[0] == (aliases[0].0, name);
      Some(aliases[0].0)
    else
      var r := Partner(aliases[1..], name);
      assert forall k: nat :: 0 < k < |aliases| ==> aliases[k] == aliases[1..][k - 1];
      r
  }

  /** With injective aliases a name finds its own field, else that of its partner, else nothing. */
  function Lookup(m: map<string, nat>, aliases: Aliases, name: string): Option<nat> {
    if name in m then Some(m[name])
    else
      var p := Partner(aliases, name);
      if p.Some? && p.value in m then Some(m[p.value]) else None
  }

  lemma {:induction false} LinkIsLookup(m: map<string, nat>, aliases: Aliases, name: string)
    requires Paired(aliases)
    ensures (if name in Link(m, aliases) then Some(Link(m, aliases)[name]) else None) == Lookup(m, aliases, name)
    decreases |aliases|
  {
    if aliases != [] {
      var first, second, rest := aliases[0].0, aliases[0].1, aliases[1..];
      assert Paired(rest) by {
        assert forall k: nat :: k < |rest| ==> rest[k] == aliases[k + 1];
      }
      hide Paired;
      LinkIsLookup(LinkOne(m, first, second), rest, name);
      PartnerAgain(aliases, first);
      PartnerAgain(aliases, second);
      PartnerAgain(aliases, name);
    }
  }

  /** What comes after an alias says the same of its names, or nothing; it does not bring them up elsewhere. */
  lemma {:induction false} PartnerAgain(aliases: Aliases, name: string)
    requires Paired(aliases) && aliases != []
    ensures var a, p := aliases[0], Partner(aliases[1..], name);
            if name == a.0 then p.None? || p == Some(a.1)
            else if name == a.1 then p.None? || p == Some(a.0)
            else p.Some? ==> p.value != a.0 && p.value != a.1
  {
    var rest := aliases[1..];
    assert forall k: nat :: k < |rest| ==> rest[k] == aliases[k + 1];
    var p := Partner(rest, name);
    if p.Some? {
      var k: nat :| k < |rest| && (rest[k] == (name, p.value) || rest[k] == (p.value, name));
      assert SamePair(aliases[0], aliases[k + 1]) || (aliases[0].0 != name && aliases[0].1 != name);
    }
  }

  lemma {:induction false} PartnerOfPartner(aliases: Aliases, name: string, other: string)
    requires Paired(aliases) && Partner(aliases, name) == Some(other)
    ensures Partner(aliases, other) == Some(name)
    decreases |aliases|
  {
    var rest := aliases[1..];
    assert forall k: nat :: k < |rest| ==> rest[k] == aliases[k + 1];
    if aliases[0].0 != name && aliases[0].1 != name {
      PartnerAgain(aliases, name);
      PartnerOfPartner(rest, name, other);
    }
  }

  /** Both versions of a type may carry the same aliases, and a type may be matched with itself. */
  lemma {:induction false} SharedAliases(mine: Aliases, native: Aliases)
    requires Paired(mine) && forall a :: a in native ==> a in mine
    ensures Paired(mine + native)
  {
    var all := mine + native;
    forall j, k | 0 <= j < k < |all|
      ensures || SamePair(all[j], all[k])
              || (all[j].0 != all[k].0 && all[j].0 != all[k].1 && all[j].1 != all[k].0 && all[j].1 != all[k].1)
    {
      var a, b := all[j], all[k];
      assert a in mine && b in mine;
      var x: nat :| x < |mine| && mine[x] == a;
      var y: nat :| y < |mine| && mine[y] == b;
      assert x < y ==> SamePair(mine[x], mine[y]) || mine[x].0 != mine[y].0;
      assert y < x ==> SamePair(mine[y], mine[x]) || mine[x].0 != mine[y].0;
    }
  }

  /** The last field of that name among the first n. */
  function LastNamed(fields: seq<Field>, extended: bool, name: string, n: nat): (r: Option<nat>)
    requires n <= |fields|
    ensures r.Some? ==> r.value < n && fields[r.value].name == name && fields[r.value].extended == extended
    ensures r.Some? ==>
              forall j: nat :: r.value < j < n && fields[j].extended == extended ==> fields[j].name != name
    ensures r.None? ==> forall j: nat :: j < n && fields[j].extended == extended ==> fields[j].name != name
  {
    if n == 0 then None
    else if fields[n - 1].extended == extended && fields[n - 1].name == name then Some(n - 1)
    else LastNamed(fields, extended, name, n - 1)
  }

  /** The field a name stands for: its own, else that of its alias. */
  function ByName(fields: seq<Field>, extended: bool, aliases: Aliases, name: string): Option<nat> {
    var own := LastNamed(fields, extended, name, |fields|);
    var partner := Partner(aliases, name);
    if own.Some? then own
    else if partner.Some? then LastNamed(fields, extended, partner.value, |fields|)
    else None
  }

  lemma {:induction false} LinkedByName(fields: seq<Field>, extended: bool, aliases: Aliases, name: string)
    requires Paired(aliases)
    ensures var m := Link(Named(fields, extended, |fields|), aliases);
            (if name in m then Some(m[name]) else None) == ByName(fields, extended, aliases, name)
  {
    hide Link, Named, Paired;
    var m, partner := Named(fields, extended, |fields|), Partner(aliases, name);
    LinkIsLookup(m, aliases, name);
    NamedIsLast(fields, extended, |fields|, name);
    if partner.Some? {
      NamedIsLast(fields, extended, |fields|, partner.value);
    }
  }
}

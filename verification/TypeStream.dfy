/**
 Streams that describe themselves: the first value of a type is preceded by the codes of the type and
 of everything it refers to, each written once.
 */
module TypeStream {

  /** A type and the types it refers to: parents, dependencies, methods and the return type. */
  datatype TypeDef = TypeDef(hash: nat, refs: seq<TypeDef>)

  /** What is on the stream: the code of a type with the hashes it names, or the header of a value. */
  datatype Item = CodeItem(hash: nat, refs: seq<nat>) | HeaderItem(hash: nat)

  function Hashes(types: seq<TypeDef>): (r: seq<nat>)
    ensures |r| == |types| && forall i :: 0 <= i < |r| ==> r[i] == types[i].hash
  {
    seq(|types|, i requires 0 <= i < |types| => types[i].hash)
  }

  /** All hashes below a type, its own included. */
  function Reach(t: TypeDef): set<nat>
    decreases t, 1
  {
    {t.hash} + ReachAll(t.refs)
  }

  function ReachAll(types: seq<TypeDef>): set<nat>
    decreases types, 0
  {
    if types == [] then {} else Reach(types[0]) + ReachAll(types[1..])
  }

  /** No type refers to itself, directly or through others. */
  predicate Acyclic(t: TypeDef) {
    t.hash !in ReachAll(t.refs) && forall r :: r in t.refs ==> Acyclic(r)
  }

  // ---------------------------------------------------------------------------------------------
  // Writing

  function CodesIn(items: seq<Item>): set<nat> {
    set i: nat | i < |items| && items[i].CodeItem? :: items[i].hash
  }

  /** Everything that is named has been written before, and nothing is written twice. */
  predicate SelfDescribing(items: seq<Item>) {
    forall i: nat :: i < |items| ==>
      match items[i]
      case CodeItem(hash, refs) => hash !in CodesIn(items[..i]) && forall r :: r in refs ==> r in CodesIn(items[..i])
      case HeaderItem(hash) => hash in CodesIn(items[..i])
  }

  lemma CodesAppend(items: seq<Item>, item: Item)
    ensures CodesIn(items + [item]) == CodesIn(items) + if item.CodeItem? then {item.hash} else {}
  {
    var more := items + [item];
    forall h | h in CodesIn(items)
      ensures h in CodesIn(more)
    {
      var i: nat :| i < |items| && items[i].CodeItem? && items[i].hash == h;
      assert more[i] == items[i];
    }
    if item.CodeItem? {
      assert more[|items|] == item;
    }
  }

  lemma {:induction false} DescribingAppend(items: seq<Item>, item: Item)
    requires SelfDescribing(items)
    requires match item
             case CodeItem(hash, refs) => hash !in CodesIn(items) && forall r :: r in refs ==> r in CodesIn(items)
             case HeaderItem(hash) => hash in CodesIn(items)
    ensures SelfDescribing(items + [item])
  {
    hide CodesIn;
    var more := items + [item];
    assert more[..|items|] == items;
    forall i: nat | i < |items|
      ensures more[..i] == items[..i] && more[i] == items[i]
    {
    }
  }

  class TypeOutput {
    var items: seq<Item>
    var typeCodeMap: map<nat, nat>
    const disableTypeCodes: bool

    ghost predicate Valid()
      reads this
    {
      (!disableTypeCodes ==> SelfDescribing(items)) && typeCodeMap.Keys == CodesIn(items)
    }

    constructor (disableTypeCodes: bool)
      ensures Valid() && items == [] && this.disableTypeCodes == disableTypeCodes
    {
      this.disableTypeCodes := disableTypeCodes;
      items, typeCodeMap := [], map[];
    }

    /** `write_type_code`, which does nothing if type codes are disabled. */
    method WriteTypeCode(t: TypeDef)
      requires Valid() && Acyclic(t)
      modifies this
      ensures Valid() && old(items) <= items
      ensures if disableTypeCodes then items == old(items) else t.hash in CodesIn(items)
      ensures t.hash in old(CodesIn(items)) ==> items == old(items)
      ensures CodesIn(items) <= CodesIn(old(items)) + Reach(t)
      ensures forall i: nat :: |old(items)| <= i < |items| ==> items[i].CodeItem?
      decreases t, 1
    {
      if !disableTypeCodes {
        if t.hash !in typeCodeMap {
          WriteType(t);
        }
      }
    }

    /** `write` of a type code: first what it refers to, then itself. */
    method WriteType(t: TypeDef)
      requires Valid() && Acyclic(t) && t.hash !in typeCodeMap && !disableTypeCodes
      modifies this
      ensures Valid() && old(items) <= items && t.hash in CodesIn(items)
      ensures CodesIn(items) <= CodesIn(old(items)) + Reach(t)
      ensures forall i: nat :: |old(items)| <= i < |items| ==> items[i].CodeItem?
      decreases t, 0
    {
      hide CodesIn, SelfDescribing, ReachAll;
      var i := 0;
      while i < |t.refs|
        invariant 0 <= i <= |t.refs| && Valid() && old(items) <= items
        invariant forall k :: 0 <= k < i ==> t.refs[k].hash in CodesIn(items)
        invariant CodesIn(items) <= CodesIn(old(items)) + ReachAll(t.refs)
        invariant forall k: nat :: |old(items)| <= k < |items| ==> items[k].CodeItem?
      {
        ReachOne(t.refs, i);
        ghost var was := items;
        WriteTypeCode(t.refs[i]);
        CodesGrow(was, items);
        i := i + 1;
      }
      CodesAppend(items, CodeItem(t.hash, Hashes(t.refs)));
      DescribingAppend(items, CodeItem(t.hash, Hashes(t.refs)));
      typeCodeMap := typeCodeMap[t.hash := |items|];
      items := items + [CodeItem(t.hash, Hashes(t.refs))];
    }

    /** A value of a class: its type code if that is new, then its header. */
    method WriteClass(t: TypeDef)
      requires Valid() && Acyclic(t)
      modifies this
      ensures Valid() && old(items) <= items && items != [] && items[|items| - 1] == HeaderItem(t.hash)
      ensures forall i: nat :: |old(items)| <= i < |items| - 1 ==> items[i].CodeItem?
      ensures disableTypeCodes ==> items == old(items) + [HeaderItem(t.hash)]
    {
      hide CodesIn, SelfDescribing;
      WriteTypeCode(t);
      CodesAppend(items, HeaderItem(t.hash));
      if !disableTypeCodes {
        DescribingAppend(items, HeaderItem(t.hash));
      }
      items := items + [HeaderItem(t.hash)];
    }

    /** `clear`: whoever reads what follows knows nothing yet. */
    method Clear()
      modifies this
      ensures Valid() && items == []
    {
      items, typeCodeMap := [], map[];
    }
  }

  lemma {:induction false} ReachOne(types: seq<TypeDef>, i: nat)
    requires i < |types|
    ensures Reach(types[i]) <= ReachAll(types)
  {
    if i > 0 {
      ReachOne(types[1..], i - 1);
    }
  }

  lemma CodesGrow(was: seq<Item>, items: seq<Item>)
    requires was <= items
    ensures CodesIn(was) <= CodesIn(items)
  {
    forall h | h in CodesIn(was)
      ensures h in CodesIn(items)
    {
      var i: nat :| i < |was| && was[i].CodeItem? && was[i].hash == h;
      assert items[i] == was[i];
    }
  }

  // ---------------------------------------------------------------------------------------------
  // Reading

  /** Reads a stream from the start; a hash that is neither known yet nor registered makes it throw. */
  method ReadStream(items: seq<Item>, registry: set<nat>) returns (ok: bool, values: seq<nat>)
    ensures SelfDescribing(items) ==> ok && values == HeadersOf(items)
    ensures ok <==> forall i: nat :: i < |items| ==> Known(items, registry, i)
  {
    hide CodesIn, SelfDescribing;
    var known: set<nat> := {};
    values := [];
    var i := 0;
    NoCodes(items);
    while i < |items|
      invariant 0 <= i <= |items| && known == CodesIn(items[..i]) && values == HeadersOf(items[..i])
      invariant forall k: nat :: k < i ==> Known(items, registry, k)
      decreases |items| - i
    {
      assert items[..i + 1] == items[..i] + [items[i]] && items[..i + 1][..i] == items[..i];
      CodesAppend(items[..i], items[i]);
      DescribingKnown(items, registry, i);
      match items[i] {
        case CodeItem(hash, refs) =>
          if exists r :: r in refs && r !in known && r !in registry {
            assert !Known(items, registry, i);
            return false, values;
          }
          known := known + {hash};
        case HeaderItem(hash) =>
          if hash !in known && hash !in registry {
            assert !Known(items, registry, i);
            return false, values;
          }
          values := values + [hash];
      }
      i := i + 1;
    }
    assert items[..i] == items;
    ok := true;
  }

  /** All lookups for item i succeed. */
  predicate Known(items: seq<Item>, registry: set<nat>, i: nat)
    requires i < |items|
  {
    match items[i]
    case CodeItem(_, refs) => forall r :: r in refs ==> r in CodesIn(items[..i]) || r in registry
    case HeaderItem(hash) => hash in CodesIn(items[..i]) || hash in registry
  }

  function HeadersOf(items: seq<Item>): seq<nat> {
    if items == [] then []
    else HeadersOf(items[..|items| - 1]) + if items[|items| - 1].HeaderItem? then [items[|items| - 1].hash] else []
  }

  lemma NoCodes(items: seq<Item>)
    ensures CodesIn(items[..0]) == {}
  {
  }

  lemma DescribingKnown(items: seq<Item>, registry: set<nat>, i: nat)
    requires i < |items|
    ensures SelfDescribing(items) ==> Known(items, registry, i)
  {
  }
}

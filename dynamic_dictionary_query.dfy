/** `DynamicDictionaryQuery`: a dictionary whose entries are (key, type) pairs over the slots of
    a `Dictionary` sector. Entry i has key `keys[i]`, type `types[i]` and its value in slot i + 2;
    slot 0 holds the keys and slot 1 the type names, each joined by ';' in UTF-8. */
module DynamicDictionaryQueries {
  import opened Wrappers
  import opened Bytes
  import opened Codec
  import opened Text
  import Utf8
  import opened SlotDirectory
  import opened Sectors
  import opened BaseQueries
  import opened DictionaryQueries

  // ---------------------------------------------------------------- type names

  /** `Type.ToString()`: the full name of the type. */
  function TypeName(t: TypeTag): string
  {
    match t
    case TInt(k) => IntTypeName(k)
    case TBool => "System.Boolean"
    case TChar => "System.Char"
    case TByte => "System.Byte"
    case TString => "System.String"
    case TTimeSpan => "System.TimeSpan"
    case TIntArray(k) => IntTypeName(k) + "[]"
    case TBoolArray => "System.Boolean[]"
    case TCharArray => "System.Char[]"
    case TBytes => "System.Byte[]"
    case THost(name) => name
  }

  function IntTypeName(k: IntKind): string
  {
    match k
    case I16 => "System.Int16" case I32 => "System.Int32" case I64 => "System.Int64"
    case U16 => "System.UInt16" case U32 => "System.UInt32" case U64 => "System.UInt64"
  }

  /** The types the model's `Type.GetType(name)` finds: every primitive and array type the store
      serialises itself, and `object`. `Type.GetType` also finds other core-library types
      (`System.Decimal`, `System.SByte`, `System.Guid`, `System.DateTimeOffset`, ...), which reach
      the store through the host hooks; the model resolves none of those names. */
  predicate Resolvable(t: TypeTag)
  {
    !t.THost? || t == OBJECT
  }

  /** `Type.GetType(name)` restricted to the types of `Resolvable`: the type of that full name,
      null (`None`) for any other name. */
  function ResolveType(name: string): (r: Option<TypeTag>)
    ensures r.Some? ==> Resolvable(r.value)
  {
    if name == "System.Object" then Some(OBJECT)
    else if |name| >= 2 && name[|name| - 2..] == "[]" then ResolveArray(name[..|name| - 2])
    else ResolveScalar(name)
  }

  function ResolveScalar(name: string): Option<TypeTag>
  {
    if name == "System.Boolean" then Some(TBool)
    else if name == "System.Char" then Some(TChar)
    else if name == "System.Byte" then Some(TByte)
    else if name == "System.String" then Some(TString)
    else if name == "System.TimeSpan" then Some(TTimeSpan)
    else var k := ResolveInt(name); if k.Some? then Some(TInt(k.value)) else None
  }

  function ResolveArray(name: string): Option<TypeTag>
  {
    if name == "System.Boolean" then Some(TBoolArray)
    else if name == "System.Char" then Some(TCharArray)
    else if name == "System.Byte" then Some(TBytes)
    else var k := ResolveInt(name); if k.Some? then Some(TIntArray(k.value)) else None
  }

  function ResolveInt(name: string): Option<IntKind>
  {
    if name == "System.Int16" then Some(I16)
    else if name == "System.Int32" then Some(I32)
    else if name == "System.Int64" then Some(I64)
    else if name == "System.UInt16" then Some(U16)
    else if name == "System.UInt32" then Some(U32)
    else if name == "System.UInt64" then Some(U64)
    else None
  }

  /** A core type is found again from its name, and no type name holds the separator ';'. */
  lemma NameRoundTrip(t: TypeTag)
    requires Resolvable(t)
    ensures ResolveType(TypeName(t)) == Some(t)
    ensures ';' !in TypeName(t)
  {
    if t.TIntArray? || t.TBoolArray? || t.TCharArray? || t.TBytes? {
      ArrayTagRoundTrip(t);
    } else if t.TInt? {
      IntNameRoundTrip(t.kind);
    } else if !t.THost? {
      ScalarNameRoundTrip(t);
    }
  }

  lemma ArrayTagRoundTrip(t: TypeTag)
    requires t.TIntArray? || t.TBoolArray? || t.TCharArray? || t.TBytes?
    ensures ResolveType(TypeName(t)) == Some(t) && ';' !in TypeName(t)
  {
    match t
    case TIntArray(k) => IntNameRoundTrip(k); ArrayNameRoundTrip(IntTypeName(k), t);
    case TBoolArray => ArrayNameRoundTrip("System.Boolean", t);
    case TCharArray => ArrayNameRoundTrip("System.Char", t);
    case TBytes => ArrayNameRoundTrip("System.Byte", t);
  }

  lemma IntNameRoundTrip(k: IntKind)
    ensures ResolveType(IntTypeName(k)) == Some(TInt(k)) && ResolveInt(IntTypeName(k)) == Some(k)
    ensures ';' !in IntTypeName(k) && ']' !in IntTypeName(k) && |IntTypeName(k)| == 12 + if k.I16? || k.I32? || k.I64? then 0 else 1
  {
  }

  lemma ScalarNameRoundTrip(t: TypeTag)
    requires t.TBool? || t.TChar? || t.TByte? || t.TString? || t.TTimeSpan?
    ensures ResolveType(TypeName(t)) == Some(t) && ResolveScalar(TypeName(t)) == Some(t)
    ensures ';' !in TypeName(t) && ']' !in TypeName(t)
  {
  }

  /** The array type whose element type has the name `name`. */
  lemma ArrayNameRoundTrip(name: string, t: TypeTag)
    requires TypeName(t) == name + "[]" && ResolveArray(name) == Some(t) && ';' !in name && ']' !in name
    ensures ResolveType(TypeName(t)) == Some(t) && ';' !in TypeName(t)
  {
    var n := name + "[]";
    assert n[|n| - 2..] == "[]" && n[..|n| - 2] == name;
    assert n != "System.Object" by { assert n[|n| - 1] == ']'; }
  }

  // ---------------------------------------------------------------- the type list

  /** `String.Join(";", types)` writes each type by its name, and a null type as nothing. */
  function Names(types: seq<Option<TypeTag>>): (r: seq<string>)
    ensures |r| == |types|
    ensures forall i :: 0 <= i < |types| && types[i].Some? ==> r[i] == TypeName(types[i].value)
    ensures forall i :: 0 <= i < |types| && types[i].None? ==> r[i] == ""
  {
    seq(|types|, i requires 0 <= i < |types| => if types[i].Some? then TypeName(types[i].value) else "")
  }

  /** The content of slot 1: the type names joined by ';', in UTF-8. */
  function TypesText(types: seq<Option<TypeTag>>): seq<byte>
  {
    Utf8.Encode(Join(Names(types), ';'))
  }

  /** The type list the constructor reads back from slot 1: each piece between ';' looked up
      with `Type.GetType`. */
  function TypesOf(bytes: seq<byte>): (r: seq<Option<TypeTag>>)
    ensures forall i :: 0 <= i < |r| && r[i].Some? ==> Resolvable(r[i].value)
  {
    var names := Split(Utf8.Decode(bytes), ';');
    seq(|names|, i requires 0 <= i < |names| => ResolveType(names[i]))
  }

  /** A non-empty list of core types survives slot 1: written and read back, it is the same
      list. */
  lemma TypesRoundTrip(types: seq<Option<TypeTag>>)
    requires |types| >= 1
    requires forall i :: 0 <= i < |types| ==> types[i].Some? && Resolvable(types[i].value)
    ensures TypesOf(TypesText(types)) == types
  {
    var names := Names(types);
    forall i | 0 <= i < |names|
      ensures ';' !in names[i] && ResolveType(names[i]) == types[i]
    {
      NameRoundTrip(types[i].value);
    }
    Utf8.DecodeEncode(Join(names, ';'));
    SplitJoin(names, ';');
  }

  // ---------------------------------------------------------------- lookup

  /** `IndexOf(key, t)` scanning from position `i`: the slot `i + 2` of the first entry with that
      key and type, -1 when there is none. The type of an entry is only looked at when its key
      matches, and a type list shorter than the key list then throws. */
  function LookupFrom(keys: seq<string>, types: seq<Option<TypeTag>>, key: string, t: TypeTag, i: nat): (r: Result<int>)
    requires i <= |keys|
    decreases |keys| - i
    ensures r.Success? ==> r.value == -1 || i + 2 <= r.value < |keys| + 2
    ensures r.Success? && r.value >= 2 ==>
      r.value - 2 < |types| && keys[r.value - 2] == key && types[r.value - 2] == Some(t)
    ensures r.Success? && r.value >= 2 ==>
      forall j :: i <= j < r.value - 2 && keys[j] == key ==> types[j] != Some(t)
    ensures r == Success(-1) <==>
      forall j :: i <= j < |keys| && keys[j] == key ==> j < |types| && types[j] != Some(t)
    ensures r.Failure? ==> r.error == ArgumentError && |types| < |keys| && key in keys[|types|..]
    ensures |keys| <= |types| ==> r.Success?
  {
    if i == |keys| then Success(-1)
    else if keys[i] != key then LookupFrom(keys, types, key, t, i + 1)
    else if i >= |types| then Failure(ArgumentError)
    else if types[i] == Some(t) then Success(i + 2)
    else LookupFrom(keys, types, key, t, i + 1)
  }

  /** The whole scan of `IndexOf`. */
  function Lookup(keys: seq<string>, types: seq<Option<TypeTag>>, key: string, t: TypeTag): (r: Result<int>)
    ensures r == Success(-1) <==>
      forall j :: 0 <= j < |keys| && keys[j] == key ==> j < |types| && types[j] != Some(t)
    ensures r.Success? && r.value != -1 ==>
      2 <= r.value < |keys| + 2 && r.value - 2 < |types| && keys[r.value - 2] == key && types[r.value - 2] == Some(t)
    ensures |keys| <= |types| ==> r.Success?
  {
    LookupFrom(keys, types, key, t, 0)
  }

  /** One key can hold one value per type: "a" as an `int` and "a" as a `string` are two entries. */
  lemma KeyPerType()
    ensures Lookup(["a", "a"], [Some(TInt(I32)), Some(TString)], "a", TInt(I32)) == Success(2)
    ensures Lookup(["a", "a"], [Some(TInt(I32)), Some(TString)], "a", TString) == Success(3)
    ensures Lookup(["a", "a"], [Some(TInt(I32)), Some(TString)], "a", TBool) == Success(-1)
  {
  }

  /** The lookup only sees the lists up to the entry it finds. */
  lemma {:induction false} LookupSeesPrefix(keys: seq<string>, types: seq<Option<TypeTag>>, keys': seq<string>,
                                            types': seq<Option<TypeTag>>, key: string, t: TypeTag, i: nat, n: nat)
    requires i <= n <= |keys| && n <= |keys'| && n <= |types| && n <= |types'|
    requires keys[..n] == keys'[..n] && types[..n] == types'[..n]
    requires LookupFrom(keys, types, key, t, i).Success? && 2 <= LookupFrom(keys, types, key, t, i).value < n + 2
    ensures LookupFrom(keys', types', key, t, i) == LookupFrom(keys, types, key, t, i)
    decreases n - i
  {
    assert keys[i] == keys'[..n][i] == keys'[i];
    assert types[i] == types'[..n][i] == types'[i];
    if keys[i] == key && types[i] == Some(t) {
    } else {
      LookupSeesPrefix(keys, types, keys', types', key, t, i + 1, n);
    }
  }

  /** `Remove<T>(key)` takes the entry at the list position equal to the SLOT of the pair,
      two places after the pair itself: when that position exists, the pair removed is still
      found, at the same slot, whose bytes are gone. */
  lemma RemoveKeepsPair(keys: seq<string>, types: seq<Option<TypeTag>>, key: string, t: TypeTag)
    requires |keys| == |types| && Lookup(keys, types, key, t).Success?
    requires var i := Lookup(keys, types, key, t).value; 2 <= i < |keys|
    ensures var i := Lookup(keys, types, key, t).value;
      Lookup(Without(keys, i), Without(types, i), key, t) == Success(i)
  {
    var i := Lookup(keys, types, key, t).value;
    var ks, ts := Without(keys, i), Without(types, i);
    assert keys[..i] == ks[..i];
    assert types[..i] == ts[..i];
    LookupSeesPrefix(keys, types, ks, ts, key, t, 0, i);
  }

  // ---------------------------------------------------------------- reading an entry

  /** What `TryGet` answers for the slot `found` the lookup gave, read from `v` as `t`: the
      lookup's exception; `false` (here `None`) for no entry or a short read; otherwise the
      cached or freshly decoded value, whose exceptions propagate. */
  function Probed(v: SlotView, found: Result<int>, t: TypeTag): (r: Result<Option<Value>>)
    requires WellFormed(v)
    ensures found.Failure? ==> r == Failure(found.error)
    ensures found.Success? && found.value <= 0 ==> r == Success(None)
    ensures found.Success? && found.value > 0 && r.Success? && r.value.Some? ==>
      Fetched(v, found.value, t) == Success(r.value.value)
    ensures found.Success? && found.value > 0 && Fetched(v, found.value, t).Success? ==>
      r == Success(Some(Fetched(v, found.value, t).value))
    ensures found.Success? && found.value > 0 && r == Success(None) ==>
      ReadView(v, found.value).Success? && !ReadView(v, found.value).value.0
  {
    if found.Failure? then Failure(found.error)
    else if found.value <= 0 then Success(None)
    else
      var read := ReadView(v, found.value);
      if read.Failure? then Failure(read.error)
      else if !read.value.0 then Success(None)
      else
        var d := Decoded(v, found.value, read.value.1, t);
        if d.Failure? then Failure(d.error) else Success(Some(d.value))
  }

  /** What `Remove<T>` does to the lists once `TryRemove(index)` answered `ok`:
      `types.RemoveAt(index)`, then `keys.RemoveAt(index)`, each throwing when `index` is not a
      position of its list. */
  function Unlisted<T>(names: seq<string>, typs: seq<T>, index: int, ok: bool): (r: (Outcome, seq<string>, seq<T>))
    requires index >= 0
    ensures !ok ==> r == (Pass, names, typs)
    ensures ok && index < |typs| && index < |names| ==> r == (Pass, Without(names, index), Without(typs, index))
    ensures ok && index >= |typs| ==> r == (Fail(ArgumentError), names, typs)
    ensures ok && index < |typs| && index >= |names| ==> r == (Fail(ArgumentError), names, Without(typs, index))
    ensures |names| == |typs| ==> |r.1| == |r.2|
  {
    if !ok then (Pass, names, typs)
    else if index >= |typs| then (Fail(ArgumentError), names, typs)
    else if index >= |names| then (Fail(ArgumentError), names, Without(typs, index))
    else (Pass, Without(names, index), Without(typs, index))
  }

  /** The slots `Set<T>` writes once the lookup answered `found`, among `count` pairs, have
      non-negative recorded lengths: the found slot, or for a new pair slot `count + 2` and the
      two list slots. */
  predicate PutWritable(found: Result<int>, count: int, ks: seq<int>, lens: seq<int>)
    requires |ks| == |lens|
  {
    found.Success? ==>
      if found.value == -1 then Writable(ks, lens, count + 2) && Writable(ks, lens, 0) && Writable(ks, lens, 1)
      else Writable(ks, lens, found.value)
  }

  /** Writing a value to slot `index` > 1 leaves the two list slots writable, and keeps every
      recorded length non-negative when all of them were. */
  lemma ValueWriteKeepsLists(buf: seq<byte>, pos: int, ks: seq<int>, lens: seq<int>, index: int, obj: seq<byte>)
    requires |ks| == |lens| && index > 1
    requires Writable(ks, lens, index) && Writable(ks, lens, 0) && Writable(ks, lens, 1)
    ensures var sp := Splice(buf, pos, ks, lens, index, obj);
      && |sp.keys| == |sp.lens| && Writable(sp.keys, sp.lens, 0) && Writable(sp.keys, sp.lens, 1)
      && (Sized(lens) ==> Sized(sp.lens))
  {
    SpliceKeepsOthers(buf, pos, ks, lens, index, obj, 0);
    SpliceKeepsOthers(buf, pos, ks, lens, index, obj, 1);
    if Sized(lens) {
      SpliceKeepsSized(buf, pos, ks, lens, index, obj);
    }
  }

  /** Writing the key list to slot 0 leaves slot 1, the type list, writable, and keeps every
      recorded length non-negative when all of them were. */
  lemma KeysWriteKeepsTypes(buf: seq<byte>, pos: int, ks: seq<int>, lens: seq<int>, obj: seq<byte>)
    requires |ks| == |lens| && Writable(ks, lens, 0) && Writable(ks, lens, 1)
    ensures var sp := Splice(buf, pos, ks, lens, 0, obj);
      && |sp.keys| == |sp.lens| && Writable(sp.keys, sp.lens, 1) && (Sized(lens) ==> Sized(sp.lens))
  {
    SpliceKeepsOthers(buf, pos, ks, lens, 0, obj, 1);
    if Sized(lens) {
      SpliceKeepsSized(buf, pos, ks, lens, 0, obj);
    }
  }

  // ---------------------------------------------------------------- the query

  class DynamicDictionaryQuery {
    const base: BaseQuery
    var keys: seq<string>
    var types: seq<Option<TypeTag>>

    /** The base part of `new DynamicDictionaryQuery(sector, saveOnDisposed)`, a query over
        `object`, before the lists are read. */
    constructor Attach(sector: Sector, saveOnDisposed: bool)
      requires sector.enumerator.Valid() && sector in sector.enumerator.subscribers
      modifies sector
      ensures base.Valid() && base.s == sector && base.sub.elementType == OBJECT && keys == [] && types == []
      ensures fresh(base) && fresh(base.sub) && fresh(base.sub.cache) && !base.changed
      ensures base.View() == old(AttachedView(sector))
      ensures sector.ms == null || sector.ms == old(sector.ms)
      ensures sector.values == old(sector.values)
    {
      base := new BaseQuery(sector, OBJECT, saveOnDisposed);
      keys := [];
      types := [];
    }

    /** What the rest of the constructor leaves from the view `v`, answering `r`: slot 0 is read,
        and slot 1 only when slot 0 read in full; when both did, they are the key list and the
        type list; otherwise both lists are empty and the directory gets the entries (0, 0) and
        (1, 0). A read that throws is the constructor's exception. */
    ghost predicate Reopened(v: SlotView, r: Outcome)
      reads this, base, base.s, base.s.values, base.s.ms, base.s.enumerator, base.s.enumerator.io
      reads base.sub, base.sub.cache
      requires WellFormed(v) && base.s.values.Valid()
    {
      var read0, read1 := ReadView(v, 0), ReadView(v, 1);
      && (r.Fail? <==> read0.Failure? || (read0.value.0 && read1.Failure?))
      && (r.Fail? ==> r.error == if read0.Failure? then read0.error else read1.error)
      && (r.Pass? && read0.value.0 && read1.value.0 ==>
            keys == KeysOf(read0.value.1) && types == TypesOf(read1.value.1) && base.View() == v)
      && (r.Pass? && !(read0.value.0 && read1.value.0) ==>
            && keys == [] && types == []
            && base.s.values.keys == v.keys + [0, 1] && base.s.values.values == v.lens + [0, 0])
    }

    /** The rest of the constructor: `TryRead(0) && TryRead(1)`, then the lists, as `Reopened`
        says. */
    method ReadLists() returns (r: Outcome)
      requires base.Valid() && keys == [] && types == []
      modifies this, base.s, base.s.ms, base.s.enumerator.io, base.s.values
      ensures base.Valid() && base.sub.cache == old(base.sub.cache) && base.Entries() == old(base.Entries())
      ensures base.s.values == old(base.s.values)
      ensures Reopened(old(base.View()), r)
    {
      var read0 := base.TryRead(0);
      var read1 := Success((false, []));
      if read0.Success? && read0.value.0 {
        read1 := base.TryRead(1);
      }
      r := AdoptLists(read0, read1, old(base.View()));
    }

    /** What the constructor does with the answers of its two reads. */
    method AdoptLists(read0: Result<(bool, seq<byte>)>, read1: Result<(bool, seq<byte>)>, ghost v: SlotView)
      returns (r: Outcome)
      requires base.Valid() && keys == [] && types == [] && WellFormed(v) && base.View() == v
      requires read0 == ReadView(v, 0)
      requires read0.Success? && read0.value.0 ==> read1 == ReadView(v, 1)
      modifies this, base.s.values
      ensures base.Valid() && base.Entries() == old(base.Entries())
      ensures Reopened(v, r)
    {
      if read0.Failure? {
        return Fail(read0.error);
      }
      if read0.value.0 && read1.Failure? {
        return Fail(read1.error);
      }
      if read0.value.0 && read1.value.0 {
        keys := KeysOf(read0.value.1);
        types := TypesOf(read1.value.1);
      } else {
        ListBoth();
      }
      r := Pass;
    }

    /** `values.Add(0, 0); values.Add(1, 0)`: both list slots listed empty. */
    method ListBoth()
      requires base.Valid()
      modifies base.s.values
      ensures base.Valid() && base.Entries() == old(base.Entries())
      ensures base.s.values.keys == old(base.s.values.keys) + [0, 1]
      ensures base.s.values.values == old(base.s.values.values) + [0, 0]
    {
      base.List(0, 0);
      base.List(1, 0);
    }

    /** `new DynamicDictionaryQuery(sector, saveOnDisposed)`. */
    static method Open(sector: Sector, saveOnDisposed: bool) returns (r: Result<DynamicDictionaryQuery>)
      requires sector.enumerator.Valid() && sector in sector.enumerator.subscribers
      modifies sector, sector.ms, sector.enumerator.io, sector.values
      ensures r.Success? ==> fresh(r.value) && r.value.base.Valid() && r.value.base.s == sector && r.value.base.sub.elementType == OBJECT
      ensures var read0, read1 := ReadView(old(AttachedView(sector)), 0), ReadView(old(AttachedView(sector)), 1);
        && (r.Failure? <==> read0.Failure? || (read0.value.0 && read1.Failure?))
        && (r.Success? && read0.value.0 && read1.value.0 ==>
              r.value.keys == KeysOf(read0.value.1) && r.value.types == TypesOf(read1.value.1))
        && (r.Success? && !(read0.value.0 && read1.value.0) ==> r.value.keys == [] && r.value.types == [])
    {
      var q := new DynamicDictionaryQuery.Attach(sector, saveOnDisposed);
      var o := q.ReadLists();
      r := if o.Fail? then Failure(o.error) else Success(q);
    }

    /** `Count`: the number of keys. */
    function Count(): (n: nat)
      reads this
      ensures n == |keys|
    {
      |keys|
    }

    /** `IndexOf(key, t)`: the slot of the first entry with that key and type, -1 when there is
        none; comparing the type of an entry past the end of the type list throws. */
    method IndexOf(key: string, t: TypeTag) returns (r: Result<int>)
      ensures r == Lookup(keys, types, key, t)
      ensures r.Success? && r.value != -1 ==> keys[r.value - 2] == key && types[r.value - 2] == Some(t)
    {
      var i := 0;
      while i < |keys|
        invariant 0 <= i <= |keys|
        invariant LookupFrom(keys, types, key, t, i) == Lookup(keys, types, key, t)
      {
        if keys[i] == key {
          if i >= |types| {
            return Failure(ArgumentError);
          }
          if types[i] == Some(t) {
            return Success(i + 2);
          }
        }
        i := i + 1;
      }
      return Success(-1);
    }

    /** `Contains<T>(key)`: there is an entry with that key and type. */
    method Contains(key: string, t: TypeTag) returns (r: Result<bool>)
      ensures r.Success? ==>
        (r.value <==> exists j :: 0 <= j < |keys| && j < |types| && keys[j] == key && types[j] == Some(t))
      ensures r.Failure? ==> r.error == ArgumentError && |types| < |keys|
      ensures |keys| <= |types| ==> r.Success?
    {
      var i := IndexOf(key, t);
      r := if i.Failure? then Failure(i.error) else Success(i.value != -1);
    }

    /** `TryGet(key, t, out o)`: the slot the lookup finds is read, then decoded as `t`, as
        `Probed` says; the decoded value joins the cache. */
    method TryGet(key: string, t: TypeTag) returns (r: Result<Option<Value>>)
      requires base.Valid()
      modifies base.s, base.s.ms, base.s.enumerator.io, base.sub.cache
      ensures base.Valid() && base.sub.cache == old(base.sub.cache) && base.s.values == old(base.s.values)
      ensures r == Probed(old(base.View()), Lookup(keys, types, key, t), t)
      ensures var found := Lookup(keys, types, key, t);
        base.View() == if found.Success? && found.value > 0
                       then Absorbed(old(base.View()), found.value, Fetched(old(base.View()), found.value, t))
                       else old(base.View())
    {
      var i := IndexOf(key, t);
      r := Probe(i, t);
    }

    /** The rest of `TryGet` once the lookup answered `found`. */
    method Probe(found: Result<int>, t: TypeTag) returns (r: Result<Option<Value>>)
      requires base.Valid()
      requires found.Success? && found.value > 0 ==>
        2 <= found.value < |types| + 2 && types[found.value - 2] == Some(t)
      modifies base.s, base.s.ms, base.s.enumerator.io, base.sub.cache
      ensures base.Valid() && base.sub.cache == old(base.sub.cache) && base.s.values == old(base.s.values)
      ensures r == Probed(old(base.View()), found, t)
      ensures base.View() == if found.Success? && found.value > 0
                             then Absorbed(old(base.View()), found.value, Fetched(old(base.View()), found.value, t))
                             else old(base.View())
    {
      if found.Failure? {
        return Failure(found.error);
      }
      if found.value <= 0 {
        return Success(None);
      }
      var read := base.TryRead(found.value);
      if read.Failure? {
        return Failure(read.error);
      }
      if !read.value.0 {
        return Success(None);
      }
      var o := base.DeserializeAs(found.value, read.value.1, types[found.value - 2].value);
      r := if o.Failure? then Failure(o.error) else Success(Some(o.value));
    }

    /** `Get<T>(key)`: `TryGet`, and `KeyNotFoundException` when it answers `false`. */
    method Get(key: string, t: TypeTag) returns (r: Result<Value>)
      requires base.Valid()
      modifies base.s, base.s.ms, base.s.enumerator.io, base.sub.cache
      ensures base.Valid() && base.sub.cache == old(base.sub.cache) && base.s.values == old(base.s.values)
      ensures var p := Probed(old(base.View()), Lookup(keys, types, key, t), t);
        r == if p.Failure? then Failure(p.error) else if p.value.None? then Failure(KeyNotFound) else Success(p.value.value)
      ensures r.Success? ==> exists j :: 0 <= j < |keys| && j < |types| && keys[j] == key && types[j] == Some(t)
    {
      var o := TryGet(key, t);
      r := if o.Failure? then Failure(o.error) else if o.value.None? then Failure(KeyNotFound) else Success(o.value.value);
    }

    /** `TryGetValue<T>(key, out value)`: `TryGet`, with `false` as `None`. */
    method TryGetValue(key: string, t: TypeTag) returns (r: Result<Option<Value>>)
      requires base.Valid()
      modifies base.s, base.s.ms, base.s.enumerator.io, base.sub.cache
      ensures base.Valid() && base.sub.cache == old(base.sub.cache) && base.s.values == old(base.s.values)
      ensures r == Probed(old(base.View()), Lookup(keys, types, key, t), t)
    {
      r := TryGet(key, t);
    }

    /** The indexer-like `Set<T>(key, value)`: an entry with that key and type has its slot
        written with `TryWrite`; a new pair has its value written to slot `Count + 2`, and when
        that got through (`stored`) the pair is appended to both lists and slots 0 and 1 are
        rewritten (`listed0`, `listed1` are those writes' answers). The answers of `TryWrite` are
        discarded; only the lookup throws. */
    method Set(key: string, t: TypeTag, v: Value) returns (r: Outcome, ghost stored: bool, ghost listed0: bool, ghost listed1: bool)
      requires base.Valid() && base.sub.elementType == OBJECT && WellTyped(v) && Assignable(v, t)
      requires PutWritable(Lookup(keys, types, key, t), |keys|, base.s.values.keys, base.s.values.values)
      modifies this, base, base.s, base.s.values, base.s.ms, base.s.enumerator, base.s.enumerator.io
      modifies base.s.enumerator.subscribers, base.s.enumerator.Listeners(base.s), base.sub.cache
      ensures base.Valid() && base.sub.cache == old(base.sub.cache)
      ensures old(Sized(base.s.values.values)) ==> Sized(base.s.values.values)
      ensures Settled(Lookup(old(keys), old(types), key, t), r, old(keys), old(types), key, t, v, stored, listed0, listed1,
                      old(base.s.LoadedPayload()), old(base.Cursor()), old(base.s.values.keys), old(base.s.values.values),
                      old(base.changed), old(base.View()), old(base.Entries()))
    {
      var index := IndexOf(key, t);
      assert keys == old(keys) && types == old(types) && base.changed == old(base.changed);
      assert base.s.LoadedPayload() == old(base.s.LoadedPayload()) && base.Cursor() == old(base.Cursor());
      assert base.View() == old(base.View()) && base.Entries() == old(base.Entries());
      r, stored, listed0, listed1 := Put(index, key, t, v);
    }

    /** What `Set<T>(key, value)` leaves once the lookup answered `found`, from the lists
        `names`/`typs` and the query's payload, cursor, directory, dirty flag, view and cache:
        the lookup's exception changes nothing; a found slot is written as `TryWrite` says; a new
        pair is written and listed as `Paired` says. */
    ghost predicate Settled(found: Result<int>, r: Outcome, names: seq<string>, typs: seq<Option<TypeTag>>, key: string,
                            t: TypeTag, v: Value, stored: bool, ok0: bool, ok1: bool, payload: Result<seq<byte>>,
                            cursor: int, ks: seq<int>, lens: seq<int>, wasChanged: bool, view: SlotView,
                            entries: map<int, Value>)
      reads this, base, base.s, base.s.values, base.s.ms, base.s.enumerator, base.s.enumerator.io, base.sub, base.sub.cache
      requires |ks| == |lens| && PutWritable(found, |names|, ks, lens) && WellTyped(v) && base.s.values.Valid()
    {
      && (found.Failure? ==>
            && r == Fail(found.error) && keys == names && types == typs
            && base.View() == view && base.changed == wasChanged)
      && (found.Success? && found.value != -1 ==>
            && r == Pass && keys == names && types == typs
            && base.TriedWrite(found.value, PreSerialize(v, base.s.enumerator.host), stored, payload, cursor, ks, lens,
                               wasChanged, entries, entries[found.value := v]))
      && (found == Success(-1) ==>
            && r == Pass
            && Paired(names, typs, key, t, stored, ok0, ok1, PreSerialize(v, base.s.enumerator.host), payload, cursor,
                      ks, lens, wasChanged, entries, entries[|names| + 2 := v]))
    }

    /** `Set<T>(key, value)` after the lookup answered `found` (-1, or a slot of at least 2). */
    method Put(found: Result<int>, key: string, t: TypeTag, v: Value) returns (r: Outcome, ghost stored: bool, ghost listed0: bool, ghost listed1: bool)
      requires base.Valid() && base.sub.elementType == OBJECT && WellTyped(v)
      requires found.Success? ==> found.value == -1 || found.value >= 2
      requires PutWritable(found, |keys|, base.s.values.keys, base.s.values.values)
      modifies this, base, base.s, base.s.values, base.s.ms, base.s.enumerator, base.s.enumerator.io
      modifies base.s.enumerator.subscribers, base.s.enumerator.Listeners(base.s), base.sub.cache
      ensures base.Valid() && base.sub.cache == old(base.sub.cache)
      ensures old(Sized(base.s.values.values)) ==> Sized(base.s.values.values)
      ensures Settled(found, r, old(keys), old(types), key, t, v, stored, listed0, listed1,
                      old(base.s.LoadedPayload()), old(base.Cursor()), old(base.s.values.keys), old(base.s.values.values),
                      old(base.changed), old(base.View()), old(base.Entries()))
    {
      if found.Failure? {
        return Fail(found.error), false, false, false;
      }
      if found.value > 0 {
        stored := SetExisting(found.value, v);
        return Pass, stored, false, false;
      }
      stored, listed0, listed1 := SetNew(key, t, v);
      r := Pass;
    }

    /** `TryWrite(index, value)` over an entry already in the lists. */
    method SetExisting(index: int, v: Value) returns (ghost ok: bool)
      requires base.Valid() && base.sub.elementType == OBJECT && WellTyped(v)
      requires Writable(base.s.values.keys, base.s.values.values, index)
      modifies base, base.s, base.s.values, base.s.ms, base.s.enumerator, base.s.enumerator.io
      modifies base.s.enumerator.subscribers, base.s.enumerator.Listeners(base.s), base.sub.cache
      ensures base.Valid() && base.sub.cache == old(base.sub.cache)
      ensures old(Sized(base.s.values.values)) ==> Sized(base.s.values.values)
      ensures base.TriedWrite(index, PreSerialize(v, base.s.enumerator.host), ok, old(base.s.LoadedPayload()),
                              old(base.Cursor()), old(base.s.values.keys), old(base.s.values.values),
                              old(base.changed), old(base.Entries()), old(base.Entries())[index := v])
    {
      ghost var payload, cursor, ks, lens := base.s.LoadedPayload(), base.Cursor(), base.s.values.keys, base.s.values.values;
      var written := base.TryWriteValue(index, v);
      ok := written;
      if payload.Success? && Sized(lens) {
        SpliceKeepsSized(payload.value, cursor, ks, lens, index, PreSerialize(v, base.s.enumerator.host));
      }
    }

    /** `Set<T>` of a pair not in the lists. */
    method SetNew(key: string, t: TypeTag, v: Value) returns (ghost stored: bool, ghost listed0: bool, ghost listed1: bool)
      requires base.Valid() && base.sub.elementType == OBJECT && WellTyped(v)
      requires && Writable(base.s.values.keys, base.s.values.values, |keys| + 2)
               && Writable(base.s.values.keys, base.s.values.values, 0)
               && Writable(base.s.values.keys, base.s.values.values, 1)
      modifies this, base, base.s, base.s.values, base.s.ms, base.s.enumerator, base.s.enumerator.io
      modifies base.s.enumerator.subscribers, base.s.enumerator.Listeners(base.s), base.sub.cache
      ensures base.Valid() && base.sub.cache == old(base.sub.cache)
      ensures old(Sized(base.s.values.values)) ==> Sized(base.s.values.values)
      ensures Paired(old(keys), old(types), key, t, stored, listed0, listed1, PreSerialize(v, base.s.enumerator.host),
                     old(base.s.LoadedPayload()), old(base.Cursor()), old(base.s.values.keys), old(base.s.values.values),
                     old(base.changed), old(base.Entries()), old(base.Entries())[|old(keys)| + 2 := v])
    {
      ghost var ks, lens := base.s.values.keys, base.s.values.values;
      var ok := WriteNew(|keys| + 2, v);
      stored := ok;
      listed0, listed1 := EnlistPair(key, t, ok, PreSerialize(v, base.s.enumerator.host), old(base.s.LoadedPayload()),
                                     old(base.Cursor()), ks, lens, old(base.changed), old(base.Entries()),
                                     old(base.Entries())[|old(keys)| + 2 := v]);
    }

    /** The value write of `SetNew`: slot `n`, two past the lists, is tried, the lists untouched. */
    method WriteNew(n: int, v: Value) returns (ok: bool)
      requires base.Valid() && base.sub.elementType == OBJECT && WellTyped(v)
      requires n == |keys| + 2 && Writable(base.s.values.keys, base.s.values.values, n)
      modifies base, base.s, base.s.values, base.s.ms, base.s.enumerator, base.s.enumerator.io
      modifies base.s.enumerator.subscribers, base.s.enumerator.Listeners(base.s), base.sub.cache
      ensures keys == old(keys) && types == old(types)
      ensures base.TriedWrite(n, PreSerialize(v, base.s.enumerator.host), ok, old(base.s.LoadedPayload()),
                              old(base.Cursor()), old(base.s.values.keys), old(base.s.values.values), old(base.changed),
                              old(base.Entries()), old(base.Entries())[n := v])
      ensures base.Valid() && base.sub.cache == old(base.sub.cache)
      ensures base.s.values == old(base.s.values) && (base.s.ms == old(base.s.ms) || fresh(base.s.ms))
      ensures base.s.enumerator.Listeners(base.s) == old(base.s.enumerator.Listeners(base.s))
      ensures base.s.enumerator.subscribers == old(base.s.enumerator.subscribers)
    {
      ok := base.TryWriteValue(n, v);
    }

    /** What `Set<T>` of the new pair (`key`, `t`) to the lists `names`/`typs` leaves, the
        `TryWrite` of its value `obj` to slot `|names| + 2` having answered `written`: a failed
        write leaves the lists as they were and the query as that write left it; one that got
        through appends the pair and rewrites slots 0 and 1 as `PairListed` says. */
    ghost predicate Paired(names: seq<string>, typs: seq<Option<TypeTag>>, key: string, t: TypeTag, written: bool,
                           ok0: bool, ok1: bool, obj: seq<byte>, payload: Result<seq<byte>>, cursor: int,
                           ks: seq<int>, lens: seq<int>, wasChanged: bool, entries: map<int, Value>,
                           updated: map<int, Value>)
      reads this, base, base.s, base.s.values, base.s.ms, base.sub, base.sub.cache
      requires |ks| == |lens| && Writable(ks, lens, |names| + 2)
    {
      if !written then
        && keys == names && types == typs
        && base.TriedWrite(|names| + 2, obj, false, payload, cursor, ks, lens, wasChanged, entries, updated)
      else
        && keys == names + [key] && types == typs + [Some(t)] && payload.Success?
        && PairListed(keys, types, ok0, ok1, Splice(payload.value, cursor, ks, lens, |names| + 2, obj), updated)
    }

    /** What rewriting slot 0 with `names`, then slot 1 with `typs`, leaves after the value write
        `sp` got through and left the cache `entries`: the recorded lengths of slots 0 and 1 stay
        non-negative, slot 0 is written as `TryWrite` says from what `sp` left (its answer `ok0`),
        then slot 1 from what that left. */
    ghost predicate PairListed(names: seq<string>, typs: seq<Option<TypeTag>>, ok0: bool, ok1: bool, sp: Spliced,
                               entries: map<int, Value>)
      reads base, base.s, base.s.values, base.s.ms, base.sub, base.sub.cache
    {
      && sp.outcome.Pass? && |sp.keys| == |sp.lens| && Writable(sp.keys, sp.lens, 0) && Writable(sp.keys, sp.lens, 1)
      && var sp0 := Splice(sp.buffer, sp.position, sp.keys, sp.lens, 0, KeysText(names));
      && |sp0.keys| == |sp0.lens| && Writable(sp0.keys, sp0.lens, 1)
      && ok0 == (sp0.outcome.Pass? && base.sub.cache != null)
      && var e0 := if ok0 then entries - {0} else entries;
      && base.TriedWrite(1, TypesText(typs), ok1, Success(sp0.buffer), sp0.position, sp0.keys, sp0.lens, true, e0, e0 - {1})
    }

    /** The end of `Set<T>` of a new pair, once the `TryWrite` of its value `obj` to slot
        `Count + 2` answered `written`. */
    method EnlistPair(key: string, t: TypeTag, written: bool, ghost obj: seq<byte>, ghost payload: Result<seq<byte>>,
                      ghost cursor: int, ghost ks: seq<int>, ghost lens: seq<int>, ghost wasChanged: bool,
                      ghost entries: map<int, Value>, ghost updated: map<int, Value>) returns (ghost ok0: bool, ghost ok1: bool)
      requires base.Valid() && |ks| == |lens|
      requires Writable(ks, lens, |keys| + 2) && Writable(ks, lens, 0) && Writable(ks, lens, 1)
      requires base.TriedWrite(|keys| + 2, obj, written, payload, cursor, ks, lens, wasChanged, entries, updated)
      modifies this, base, base.s, base.s.values, base.s.ms, base.s.enumerator, base.s.enumerator.io
      modifies base.s.enumerator.subscribers, base.s.enumerator.Listeners(base.s), base.sub.cache
      ensures base.Valid() && base.sub.cache == old(base.sub.cache)
      ensures Sized(lens) ==> Sized(base.s.values.values)
      ensures Paired(old(keys), old(types), key, t, written, ok0, ok1, obj, payload, cursor, ks, lens, wasChanged, entries, updated)
    {
      if payload.Success? {
        ValueWriteKeepsLists(payload.value, cursor, ks, lens, |keys| + 2, obj);
      }
      ok0, ok1 := false, false;
      if written {
        keys := keys + [key];
        types := types + [Some(t)];
        ok0, ok1 := StoreLists(Splice(payload.value, cursor, ks, lens, |keys| + 1, obj), updated);
      }
    }

    /** `TryWrite(0, UTF8(String.Join(";", keys)))`, then `TryWrite(1, UTF8(String.Join(";", types)))`,
        from the state the value write `sp` left. */
    method StoreLists(ghost sp: Spliced, ghost entries: map<int, Value>) returns (ghost ok0: bool, ghost ok1: bool)
      requires base.Valid() && sp.outcome.Pass? && |sp.keys| == |sp.lens|
      requires Writable(sp.keys, sp.lens, 0) && Writable(sp.keys, sp.lens, 1)
      requires base.s.ms != null && Spliced(sp.outcome, base.s.ms.data, base.s.ms.position, base.s.values.keys, base.s.values.values) == sp
      requires base.changed && base.Entries() == entries
      modifies base, base.s, base.s.values, base.s.ms, base.s.enumerator, base.s.enumerator.io
      modifies base.s.enumerator.subscribers, base.s.enumerator.Listeners(base.s), base.sub.cache
      ensures base.Valid() && base.sub.cache == old(base.sub.cache)
      ensures Sized(sp.lens) ==> Sized(base.s.values.values)
      ensures PairListed(keys, types, ok0, ok1, sp, entries)
    {
      var stored0 := Store(0, KeysText(keys));
      ok0 := stored0;
      ok1 := StoreTypes(ok0, sp, entries);
    }

    /** The second write of `StoreLists`, once slot 0 was written from the state `sp` left. */
    method StoreTypes(ghost ok0: bool, ghost sp: Spliced, ghost entries: map<int, Value>) returns (ghost ok1: bool)
      requires base.Valid() && sp.outcome.Pass? && |sp.keys| == |sp.lens|
      requires Writable(sp.keys, sp.lens, 0) && Writable(sp.keys, sp.lens, 1)
      requires base.TriedWrite(0, KeysText(keys), ok0, Success(sp.buffer), sp.position, sp.keys, sp.lens, true,
                               entries, entries - {0})
      modifies base, base.s, base.s.values, base.s.ms, base.s.enumerator, base.s.enumerator.io
      modifies base.s.enumerator.subscribers, base.s.enumerator.Listeners(base.s), base.sub.cache
      ensures base.Valid() && base.sub.cache == old(base.sub.cache)
      ensures Sized(sp.lens) ==> Sized(base.s.values.values)
      ensures PairListed(keys, types, ok0, ok1, sp, entries)
    {
      KeysWriteKeepsTypes(sp.buffer, sp.position, sp.keys, sp.lens, KeysText(keys));
      var stored1 := Store(1, TypesText(types));
      ok1 := stored1;
    }

    /** `TryWrite(index, bytes)` of one of the list slots. */
    method Store(index: int, bytes: seq<byte>) returns (ok: bool)
      requires base.Valid() && Writable(base.s.values.keys, base.s.values.values, index)
      modifies base, base.s, base.s.values, base.s.ms, base.s.enumerator, base.s.enumerator.io
      modifies base.s.enumerator.subscribers, base.s.enumerator.Listeners(base.s), base.sub.cache
      ensures base.Valid() && base.sub.cache == old(base.sub.cache)
      ensures old(Sized(base.s.values.values)) ==> Sized(base.s.values.values)
      ensures base.s.values == old(base.s.values) && (base.s.ms == old(base.s.ms) || fresh(base.s.ms))
      ensures base.s.enumerator.Listeners(base.s) == old(base.s.enumerator.Listeners(base.s))
      ensures base.s.enumerator.subscribers == old(base.s.enumerator.subscribers)
      ensures base.TriedWrite(index, bytes, ok, old(base.s.LoadedPayload()), old(base.Cursor()),
                              old(base.s.values.keys), old(base.s.values.values), old(base.changed),
                              old(base.Entries()), old(base.Entries()) - {index})
    {
      ghost var payload, cursor, ks, lens := base.s.LoadedPayload(), base.Cursor(), base.s.values.keys, base.s.values.values;
      ok := base.TryWriteBytes(index, bytes);
      if payload.Success? && Sized(lens) {
        SpliceKeepsSized(payload.value, cursor, ks, lens, index, bytes);
      }
    }

    /** `Remove<T>(key)`: the slot of the pair is removed with `TryRemove`; when that answers
        `true` (`ok`), the lists lose the entry at the position equal to that SLOT, as `Unlisted`
        says. An absent pair touches nothing; the lookup's exception propagates. */
    method Remove(key: string, t: TypeTag) returns (r: Outcome, ghost ok: bool)
      requires base.Valid()
      modifies this, base, base.s, base.s.ms, base.s.enumerator.io, base.sub.cache
      ensures base.Valid() && base.sub.cache == old(base.sub.cache) && base.s.values == old(base.s.values)
      ensures Lookup(old(keys), old(types), key, t).Failure? ==>
        && r == Fail(Lookup(old(keys), old(types), key, t).error) && keys == old(keys) && types == old(types)
        && base.changed == old(base.changed) && base.View() == old(base.View())
      ensures Lookup(old(keys), old(types), key, t) == Success(-1) ==>
        && r == Pass && keys == old(keys) && types == old(types)
        && base.changed == old(base.changed) && base.View() == old(base.View())
      ensures Lookup(old(keys), old(types), key, t).Success? && Lookup(old(keys), old(types), key, t).value != -1 ==>
        && (r, keys, types) == Unlisted(old(keys), old(types), Lookup(old(keys), old(types), key, t).value, ok)
        && base.Dropped(Lookup(old(keys), old(types), key, t).value, ok, old(base.s.LoadedPayload()),
                        old(base.s.values.keys), old(base.s.values.values), old(base.changed), old(base.View()),
                        old(base.Entries()))
    {
      var index := IndexOf(key, t);
      if index.Failure? {
        return Fail(index.error), false;
      }
      if index.value <= 0 {
        return Pass, false;
      }
      var removed := base.RemoveSlot(index.value);
      ok := removed;
      r := Unlist(index.value, removed, old(base.s.LoadedPayload()), old(base.s.values.keys), old(base.s.values.values),
                  old(base.changed), old(base.View()), old(base.Entries()));
    }

    /** `types.RemoveAt(index); keys.RemoveAt(index)` once `TryRemove` answered `ok`; the query
        underneath keeps what it was left in. */
    method Unlist(index: int, ok: bool, ghost payload: Result<seq<byte>>, ghost ks: seq<int>, ghost lens: seq<int>,
                  ghost wasChanged: bool, ghost v: SlotView, ghost entries: map<int, Value>) returns (r: Outcome)
      requires index >= 0 && |ks| == |lens| && base.Valid()
      requires base.Dropped(index, ok, payload, ks, lens, wasChanged, v, entries)
      modifies this
      ensures base.Valid() && base.Dropped(index, ok, payload, ks, lens, wasChanged, v, entries)
      ensures (r, keys, types) == Unlisted(old(keys), old(types), index, ok)
    {
      r := RemoveEntry(index, ok);
    }

    /** `types.RemoveAt(index); keys.RemoveAt(index)` when `ok`, each throwing on an index past
        its list. */
    method RemoveEntry(index: int, ok: bool) returns (r: Outcome)
      requires index >= 0
      modifies this
      ensures (r, keys, types) == Unlisted(old(keys), old(types), index, ok)
    {
      var names, typs := keys, types;
      r := Pass;
      if ok {
        if index >= |typs| {
          r := Fail(ArgumentError);
        } else {
          typs := Without(typs, index);
          if index >= |names| {
            r := Fail(ArgumentError);
          } else {
            names := Without(names, index);
          }
        }
      }
      keys, types := names, typs;
    }

    /** `Clear()`: `TryClear`, and both lists emptied when it answered `true`. The directory,
        slots 0 and 1 included, stays as it was. */
    method Clear() returns (ghost ok: bool)
      requires base.Valid()
      modifies this, base, base.s, base.s.ms, base.s.enumerator.io, base.sub.cache
      ensures base.Valid() && base.sub.cache == old(base.sub.cache) && base.s.values == old(base.s.values)
      ensures keys == (if ok then [] else old(keys)) && types == (if ok then [] else old(types))
      ensures old(base.s.LoadedPayload()).Failure? ==>
        !ok && base.changed == old(base.changed) && base.Entries() == old(base.Entries())
      ensures old(base.s.LoadedPayload()).Success? ==>
        && base.s.LoadedPayload() == Success([]) && base.Entries() == map[]
        && ok == (base.sub.cache != null) && base.changed == (old(base.changed) || ok)
    {
      var cleared := base.TryClear();
      ok := cleared;
      if cleared {
        types := [];
        keys := [];
      }
    }
  }
}

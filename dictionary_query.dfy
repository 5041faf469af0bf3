/** `DictionaryQuery<T>`: a string-keyed dictionary over the slots of a `Dictionary` sector. The
    keys are held in memory in insertion order; the key at position p has its value in slot
    p + 1, and slot 0 holds the keys joined by ';' in UTF-8. */
module DictionaryQueries {
  import opened Wrappers
  import opened Bytes
  import opened Codec
  import opened Text
  import Utf8
  import opened SlotDirectory
  import opened Sectors
  import opened BaseQueries

  // ---------------------------------------------------------------- specification

  /** `List<string>.IndexOf(key)`: the first position of `key`, -1 when it is absent. */
  function Position(names: seq<string>, key: string): (p: int)
    ensures -1 <= p < |names|
    ensures p >= 0 ==> names[p] == key
    ensures forall j :: 0 <= j < p ==> names[j] != key
    ensures p == -1 <==> key !in names
  {
    if names == [] then -1
    else if names[0] == key then 0
    else
      var q := Position(names[1..], key);
      assert names == [names[0]] + names[1..];
      if q == -1 then -1 else q + 1
  }

  /** The slot of `key`: its position plus one, and 0 when it is absent. */
  function SlotOf(names: seq<string>, key: string): int
  {
    Position(names, key) + 1
  }

  /** What slot 0 holds for the key list `names`: the keys joined by ';', in UTF-8. */
  function KeysText(names: seq<string>): seq<byte>
  {
    Utf8.Encode(Join(names, ';'))
  }

  /** The key list read back from the bytes of slot 0. */
  function KeysOf(bytes: seq<byte>): seq<string>
  {
    Split(Utf8.Decode(bytes), ';')
  }

  /** Slot 0 gives back the key list it was written from, as long as there is a key and no key
      holds ';'. */
  lemma KeysRoundTrip(names: seq<string>)
    requires |names| >= 1 && NoSeparator(names, ';')
    ensures KeysOf(KeysText(names)) == names
  {
    Utf8.DecodeEncode(Join(names, ';'));
    SplitJoin(names, ';');
  }

  /** A key holding ';' comes back as two keys. */
  lemma SemicolonKeySplits()
    ensures KeysOf(KeysText(["a;b"])) == ["a", "b"]
  {
    Utf8.DecodeEncode("a;b");
    SplitNoSeparator("b", ';');
    assert "a;b"[1..] == ";b" && ";b"[1..] == "b";
    assert Split(";b", ';') == ["", "b"];
    assert Split("a;b", ';') == [['a'] + ""] + ["b"];
    assert Join(["a;b"], ';') == "a;b";
    assert KeysText(["a;b"]) == Utf8.Encode("a;b");
    assert ['a'] + "" == "a";
    assert KeysOf(KeysText(["a;b"])) == Split("a;b", ';');
  }

  /** Distinct keys: no key is listed twice. */
  predicate Unique(names: seq<string>)
  {
    forall i, j :: 0 <= i < j < |names| ==> names[i] != names[j]
  }

  /** Among distinct keys, the key at position q is found at q, so its slot is q + 1. */
  lemma SlotOfUnique(names: seq<string>, q: int)
    requires Unique(names) && 0 <= q < |names|
    ensures SlotOf(names, names[q]) == q + 1
  {
  }

  /** `List<T>.RemoveAt(p)`. */
  function Without<T>(names: seq<T>, p: int): (r: seq<T>)
    requires 0 <= p < |names|
    ensures |r| == |names| - 1
    ensures forall i :: 0 <= i < p ==> r[i] == names[i]
    ensures forall i :: p <= i < |r| ==> r[i] == names[i + 1]
  {
    names[..p] + names[p + 1..]
  }

  /** `Remove(key)` drops the key at position p from the list but leaves every other value in
      its slot: each key after p is then looked up in the slot of the key before it, the first
      of them in the slot that was just removed. */
  lemma RemoveShiftsSlots(names: seq<string>, p: int, q: int)
    requires Unique(names) && 0 <= p < q < |names|
    ensures Unique(Without(names, p))
    ensures SlotOf(Without(names, p), names[q]) == q == SlotOf(names, names[q - 1])
  {
    var r := Without(names, p);
    assert r[q - 1] == names[q];
    SlotOfUnique(r, q - 1);
    SlotOfUnique(names, q - 1);
  }

  /** The indexer getter on key `key` with the slots `v`: an absent key throws
      `IndexOutOfRangeException`; a present one reads and decodes slot `SlotOf(names, key)`. */
  function Looked(v: SlotView, names: seq<string>, key: string, t: TypeTag): (r: Result<Value>)
    requires WellFormed(v)
    ensures key !in names ==> r == Failure(IndexOutOfRange)
    ensures key in names ==> r == Fetched(v, SlotOf(names, key), t) && SlotOf(names, key) >= 1
  {
    if key !in names then Failure(IndexOutOfRange) else Fetched(v, SlotOf(names, key), t)
  }

  /** What a query just connected to `sector` reads: the sector's payload as a load would give
      it (a sector nobody was connected to drops its buffer first), its directory, and an empty
      cache. */
  ghost function AttachedView(sector: Sector): (v: SlotView)
    reads sector, sector.values, sector.ms, sector.enumerator.io
    requires sector.values.Valid()
    ensures WellFormed(v) && v.cache == Some(map[])
  {
    var payload := if sector.connected == -1 then
                     RequestedPayload(sector.enumerator.io.data, sector.offset, sector.length, sector.MetadataBytes())
                   else sector.LoadedPayload();
    SlotView(payload, sector.values.keys, sector.values.values, Some(map[]), sector.enumerator.host)
  }

  /** Writing a value to slot `index` > 0 leaves slot 0, the key list, writable, and keeps
      every recorded length non-negative when all of them were. */
  lemma ValueWriteKeepsList(buf: seq<byte>, pos: int, ks: seq<int>, lens: seq<int>, index: int, obj: seq<byte>)
    requires |ks| == |lens| && index > 0 && Writable(ks, lens, index) && Writable(ks, lens, 0)
    ensures var sp := Splice(buf, pos, ks, lens, index, obj);
      && |sp.keys| == |sp.lens| && Writable(sp.keys, sp.lens, 0)
      && (Sized(lens) ==> Sized(sp.lens))
  {
    SpliceKeepsOthers(buf, pos, ks, lens, index, obj, 0);
    if Sized(lens) {
      SpliceKeepsSized(buf, pos, ks, lens, index, obj);
    }
  }

  // ---------------------------------------------------------------- the query

  class DictionaryQuery {
    const base: BaseQuery
    var keys: seq<string>

    /** The base part of `new DictionaryQuery<T>(sector, saveOnDisposed)`, before the key list
        is read: a new query whose reads see `AttachedView(sector)`. */
    constructor Attach(sector: Sector, elementType: TypeTag, saveOnDisposed: bool)
      requires sector.enumerator.Valid() && sector in sector.enumerator.subscribers
      modifies sector
      ensures base.Valid() && base.s == sector && base.sub.elementType == elementType && keys == []
      ensures fresh(base) && fresh(base.sub) && fresh(base.sub.cache) && !base.changed
      ensures base.View() == old(AttachedView(sector))
      ensures sector.ms == null || sector.ms == old(sector.ms)
      ensures sector.values == old(sector.values)
    {
      base := new BaseQuery(sector, elementType, saveOnDisposed);
      keys := [];
    }

    /** The rest of the constructor: `TryRead(0)`; slot 0, when it reads, split on ';' is the key
        list; otherwise the list stays empty and the directory gets the entry (0, 0). A read that
        throws is the constructor's exception. */
    method ReadKeys() returns (r: Outcome)
      requires base.Valid() && keys == []
      modifies this, base.s, base.s.ms, base.s.enumerator.io, base.s.values
      ensures base.Valid() && base.sub.cache == old(base.sub.cache) && base.Entries() == old(base.Entries())
      ensures base.s.values == old(base.s.values)
      ensures var read := ReadView(old(base.View()), 0);
        && (r.Fail? <==> read.Failure?)
        && (r.Fail? ==> r.error == read.error)
        && (r.Pass? && read.value.0 ==>
              keys == KeysOf(read.value.1) && base.View() == old(base.View()))
        && (r.Pass? && !read.value.0 ==>
              && keys == []
              && base.s.values.keys == old(base.s.values.keys) + [0]
              && base.s.values.values == old(base.s.values.values) + [0])
    {
      var read := base.TryRead(0);
      r := Adopt(read);
    }

    /** What the constructor does with the answer `read` of `TryRead(0)`. */
    method Adopt(read: Result<(bool, seq<byte>)>) returns (r: Outcome)
      requires base.Valid() && keys == []
      modifies this, base.s.values
      ensures base.Valid()
      ensures r == if read.Failure? then Fail(read.error) else Pass
      ensures read.Success? && read.value.0 ==> keys == KeysOf(read.value.1) && unchanged(base.s.values)
      ensures read.Success? && !read.value.0 ==>
        && keys == []
        && base.s.values.keys == old(base.s.values.keys) + [0]
        && base.s.values.values == old(base.s.values.values) + [0]
      ensures read.Failure? ==> unchanged(base.s.values)
    {
      if read.Success? && read.value.0 {
        keys := KeysOf(read.value.1);
      } else if read.Success? {
        base.List(0, 0);
      }
      r := if read.Failure? then Fail(read.error) else Pass;
    }

    /** `new DictionaryQuery<T>(sector, saveOnDisposed)`. */
    static method Open(sector: Sector, elementType: TypeTag, saveOnDisposed: bool) returns (r: Result<DictionaryQuery>)
      requires sector.enumerator.Valid() && sector in sector.enumerator.subscribers
      modifies sector, sector.ms, sector.enumerator.io, sector.values
      ensures r.Success? ==> fresh(r.value) && r.value.base.Valid() && r.value.base.s == sector && r.value.base.sub.elementType == elementType
      ensures var read := ReadView(old(AttachedView(sector)), 0);
        && (r.Failure? <==> read.Failure?)
        && (r.Failure? ==> r.error == read.error)
        && (r.Success? && read.value.0 ==>
              r.value.keys == KeysOf(read.value.1) && r.value.base.View() == old(AttachedView(sector)))
        && (r.Success? && !read.value.0 ==>
              r.value.keys == [] && sector.values.keys == old(sector.values.keys) + [0]
              && sector.values.values == old(sector.values.values) + [0])
    {
      var q := new DictionaryQuery.Attach(sector, elementType, saveOnDisposed);
      var o := q.ReadKeys();
      r := if o.Fail? then Failure(o.error) else Success(q);
    }

    /** `Count`: the number of keys. */
    function Count(): (n: nat)
      reads this
      ensures n == |keys|
    {
      |keys|
    }

    /** `ContainsKey(key)`: the key is listed, which is exactly when the getter does not throw
        `IndexOutOfRangeException` for want of a slot. */
    function ContainsKey(key: string): (b: bool)
      reads this
      ensures b <==> SlotOf(keys, key) != 0
      ensures b <==> Position(keys, key) >= 0
    {
      key in keys
    }

    /** The indexer getter: the slot of the key is read and decoded, as `Looked` says. */
    method Get(key: string) returns (r: Result<Value>)
      requires base.Valid()
      modifies base.s, base.s.ms, base.s.enumerator.io, base.sub.cache
      ensures base.Valid() && base.sub.cache == old(base.sub.cache) && base.s.values == old(base.s.values)
      ensures base.s.ms == old(base.s.ms) || fresh(base.s.ms)
      ensures r == Looked(old(base.View()), keys, key, base.sub.elementType)
      ensures base.View() == Absorbed(old(base.View()), SlotOf(keys, key), r)
    {
      var index := SlotOf(keys, key);
      if index == 0 {
        return Failure(IndexOutOfRange);
      }
      r := base.ReadValue(index, base.sub.elementType);
    }

    /** `TryGetValue(key, out value)`: an absent key is `false` (here `None`) and reads nothing;
        a present one is the getter's value, whose exceptions propagate. */
    method TryGetValue(key: string) returns (r: Result<Option<Value>>)
      requires base.Valid()
      modifies base.s, base.s.ms, base.s.enumerator.io, base.sub.cache
      ensures base.Valid() && base.sub.cache == old(base.sub.cache) && base.s.values == old(base.s.values)
      ensures key !in keys ==> r == Success(None) && base.View() == old(base.View())
      ensures key in keys ==>
        var got := Looked(old(base.View()), keys, key, base.sub.elementType);
        r == (if got.Success? then Success(Some(got.value)) else Failure(got.error))
    {
      if !ContainsKey(key) {
        return Success(None);
      }
      var got := Get(key);
      r := if got.Success? then Success(Some(got.value)) else Failure(got.error);
    }

    /** The indexer setter: an absent key throws `KeyNotFoundException`; a present one has its
        slot written with `TryWrite`, whose answer (`stored`) the setter discards. */
    method Set(key: string, v: Value) returns (r: Outcome, ghost stored: bool)
      requires base.Valid() && WellTyped(v) && Assignable(v, base.sub.elementType)
      requires key in keys ==> Writable(base.s.values.keys, base.s.values.values, SlotOf(keys, key))
      modifies base, base.s, base.s.values, base.s.ms, base.s.enumerator, base.s.enumerator.io
      modifies base.s.enumerator.subscribers, base.s.enumerator.Listeners(base.s), base.sub.cache
      ensures base.Valid() && base.sub.cache == old(base.sub.cache)
      ensures old(Sized(base.s.values.values)) ==> Sized(base.s.values.values)
      ensures key !in keys ==>
        r == Fail(KeyNotFound) && base.View() == old(base.View()) && base.changed == old(base.changed)
      ensures key in keys ==>
        r == Pass
        && base.TriedWrite(SlotOf(keys, key), PreSerialize(v, base.s.enumerator.host), stored,
                           old(base.s.LoadedPayload()), old(base.Cursor()), old(base.s.values.keys),
                           old(base.s.values.values), old(base.changed), old(base.Entries()),
                           old(base.Entries())[SlotOf(keys, key) := v])
    {
      var index := SlotOf(keys, key);
      if index == 0 {
        return Fail(KeyNotFound), false;
      }
      ghost var payload, cursor, ks, lens := base.s.LoadedPayload(), base.Cursor(), base.s.values.keys, base.s.values.values;
      var ok := base.TryWriteValue(index, v);
      if payload.Success? && Sized(lens) {
        SpliceKeepsSized(payload.value, cursor, ks, lens, index, PreSerialize(v, base.s.enumerator.host));
      }
      return Pass, ok;
    }

    /** `Add(key, value)`: a present key goes through the setter. A new key has its value written
        to slot `Count + 1`; when that got through (`added`) the key is appended and slot 0
        rewritten with the new key list (`listed` is that write's answer). */
    method Add(key: string, v: Value) returns (ghost added: bool, ghost listed: bool)
      requires base.Valid() && WellTyped(v) && Assignable(v, base.sub.elementType)
      requires key in keys ==> Writable(base.s.values.keys, base.s.values.values, SlotOf(keys, key))
      requires key !in keys ==> Writable(base.s.values.keys, base.s.values.values, |keys| + 1) && Writable(base.s.values.keys, base.s.values.values, 0)
      modifies this, base, base.s, base.s.values, base.s.ms, base.s.enumerator, base.s.enumerator.io
      modifies base.s.enumerator.subscribers, base.s.enumerator.Listeners(base.s), base.sub.cache
      ensures KeyAdded(old(keys), key, v, added, listed, old(base.s.LoadedPayload()), old(base.Cursor()),
                       old(base.s.values.keys), old(base.s.values.values), old(base.changed), old(base.Entries()))
      ensures base.Valid() && base.sub.cache == old(base.sub.cache)
      ensures old(Sized(base.s.values.values)) ==> Sized(base.s.values.values)
    {
      if key in keys {
        var r;
        r, listed := Set(key, v);
        added := false;
      } else {
        added, listed := AddNew(key, v);
      }
    }

    /** What `Add(key, v)` leaves, from the key list `names` and the query the cache `entries`,
        buffer `payload`, cursor and directory `ks`/`lens` described: a present key has its slot
        written as `TryWrite` says and the list unchanged; a new one is `Appended`. */
    ghost predicate KeyAdded(names: seq<string>, key: string, v: Value, added: bool, listed: bool,
                             payload: Result<seq<byte>>, cursor: int, ks: seq<int>, lens: seq<int>,
                             wasChanged: bool, entries: map<int, Value>)
      reads this, base, base.s, base.s.values, base.s.ms, base.sub, base.sub.cache
      requires WellTyped(v) && |ks| == |lens|
      requires key in names ==> Writable(ks, lens, SlotOf(names, key))
      requires key !in names ==> Writable(ks, lens, |names| + 1)
    {
      var obj := PreSerialize(v, base.s.enumerator.host);
      if key in names then
        keys == names && !added
        && base.TriedWrite(SlotOf(names, key), obj, listed, payload, cursor, ks, lens, wasChanged,
                           entries, entries[SlotOf(names, key) := v])
      else
        Appended(names, key, added, listed, obj, payload, cursor, ks, lens, wasChanged, entries,
                 entries[|names| + 1 := v])
    }

    /** `Add` of a new key. */
    method AddNew(key: string, v: Value) returns (ghost added: bool, ghost listed: bool)
      requires base.Valid() && WellTyped(v) && Assignable(v, base.sub.elementType)
      requires key !in keys && Writable(base.s.values.keys, base.s.values.values, |keys| + 1) && Writable(base.s.values.keys, base.s.values.values, 0)
      modifies this, base, base.s, base.s.values, base.s.ms, base.s.enumerator, base.s.enumerator.io
      modifies base.s.enumerator.subscribers, base.s.enumerator.Listeners(base.s), base.sub.cache
      ensures base.Valid() && base.sub.cache == old(base.sub.cache)
      ensures old(Sized(base.s.values.values)) ==> Sized(base.s.values.values)
      ensures Appended(old(keys), key, added, listed, PreSerialize(v, base.s.enumerator.host), old(base.s.LoadedPayload()),
                       old(base.Cursor()), old(base.s.values.keys), old(base.s.values.values), old(base.changed),
                       old(base.Entries()), old(base.Entries())[|old(keys)| + 1 := v])
    {
      ghost var ks, lens := base.s.values.keys, base.s.values.values;
      var ok := WriteNew(|keys| + 1, v);
      added := ok;
      listed := Enlist(key, ok, PreSerialize(v, base.s.enumerator.host), old(base.s.LoadedPayload()), old(base.Cursor()),
                       ks, lens, old(base.changed), old(base.Entries()),
                       old(base.Entries())[|old(keys)| + 1 := v]);
    }

    /** The value write of `AddNew`: slot `n`, one past the key list, is tried, the list
        untouched. */
    method WriteNew(n: int, v: Value) returns (ok: bool)
      requires base.Valid() && WellTyped(v) && Assignable(v, base.sub.elementType)
      requires n == |keys| + 1 && Writable(base.s.values.keys, base.s.values.values, n)
      modifies base, base.s, base.s.values, base.s.ms, base.s.enumerator, base.s.enumerator.io
      modifies base.s.enumerator.subscribers, base.s.enumerator.Listeners(base.s), base.sub.cache
      ensures keys == old(keys)
      ensures base.TriedWrite(n, PreSerialize(v, base.s.enumerator.host), ok, old(base.s.LoadedPayload()),
                              old(base.Cursor()), old(base.s.values.keys), old(base.s.values.values), old(base.changed),
                              old(base.Entries()), old(base.Entries())[n := v])
      ensures base.Valid() && base.sub.cache == old(base.sub.cache)
      ensures base.s.values == old(base.s.values) && (base.s.ms == old(base.s.ms) || fresh(base.s.ms))
      ensures base.s.enumerator.Listeners(base.s) == old(base.s.enumerator.Listeners(base.s))
      ensures base.s.enumerator.subscribers == old(base.s.enumerator.subscribers)
    {
      ok := base.TryWriteValue(n, v);
    }

    /** What `Add` of the new key `key` to the key list `names` leaves, the `TryWrite` of its
        value `obj` to slot `|names| + 1` having answered `written`: a failed write leaves the list
        as it was and the query as that write left it; one that got through appends the key and
        rewrites slot 0 as `Listed` says. */
    ghost predicate Appended(names: seq<string>, key: string, written: bool, ok: bool, obj: seq<byte>,
                             payload: Result<seq<byte>>, cursor: int, ks: seq<int>, lens: seq<int>,
                             wasChanged: bool, entries: map<int, Value>, updated: map<int, Value>)
      reads this, base, base.s, base.s.values, base.s.ms, base.sub, base.sub.cache
      requires |ks| == |lens| && Writable(ks, lens, |names| + 1)
    {
      if !written then
        keys == names && base.TriedWrite(|names| + 1, obj, false, payload, cursor, ks, lens, wasChanged, entries, updated)
      else
        && keys == names + [key] && payload.Success?
        && Listed(keys, ok, Splice(payload.value, cursor, ks, lens, |names| + 1, obj), updated)
    }

    /** The end of `Add` of a new key, once the `TryWrite` of its value `obj` to slot `Count + 1`
        answered `written`: when it got through, the key is appended and slot 0 rewritten with the
        new list; otherwise nothing more happens. */
    method Enlist(key: string, written: bool, ghost obj: seq<byte>, ghost payload: Result<seq<byte>>,
                  ghost cursor: int, ghost ks: seq<int>, ghost lens: seq<int>, ghost wasChanged: bool,
                  ghost entries: map<int, Value>, ghost updated: map<int, Value>) returns (ghost ok: bool)
      requires base.Valid() && |ks| == |lens| && Writable(ks, lens, |keys| + 1) && Writable(ks, lens, 0)
      requires base.TriedWrite(|keys| + 1, obj, written, payload, cursor, ks, lens, wasChanged, entries, updated)
      modifies this, base, base.s, base.s.values, base.s.ms, base.s.enumerator, base.s.enumerator.io
      modifies base.s.enumerator.subscribers, base.s.enumerator.Listeners(base.s), base.sub.cache
      ensures base.Valid() && base.sub.cache == old(base.sub.cache)
      ensures Sized(lens) ==> Sized(base.s.values.values)
      ensures Appended(old(keys), key, written, ok, obj, payload, cursor, ks, lens, wasChanged, entries, updated)
    {
      if payload.Success? {
        ValueWriteKeepsList(payload.value, cursor, ks, lens, |keys| + 1, obj);
      }
      ok := false;
      if written {
        keys := keys + [key];
        var stored := StoreKeys();
        ok := stored;
      }
    }

    /** What rewriting slot 0 with the key list `names` leaves, after the value write `sp` got
        through and left the cache `entries`: the directory lengths stay non-negative, and slot
        0 is written as `TryWrite` says from the buffer and directory `sp` left. */
    ghost predicate Listed(names: seq<string>, ok: bool, sp: Spliced, entries: map<int, Value>)
      reads base, base.s, base.s.values, base.s.ms, base.sub, base.sub.cache
    {
      && sp.outcome.Pass? && |sp.keys| == |sp.lens| && Writable(sp.keys, sp.lens, 0)
      && base.TriedWrite(0, KeysText(names), ok, Success(sp.buffer), sp.position, sp.keys, sp.lens, true,
                         entries, entries - {0})
    }

    /** `TryWrite(0, UTF8(String.Join(";", keys)))`. */
    method StoreKeys() returns (ok: bool)
      requires base.Valid() && Writable(base.s.values.keys, base.s.values.values, 0)
      modifies base, base.s, base.s.values, base.s.ms, base.s.enumerator, base.s.enumerator.io
      modifies base.s.enumerator.subscribers, base.s.enumerator.Listeners(base.s), base.sub.cache
      ensures base.Valid() && base.sub.cache == old(base.sub.cache)
      ensures old(Sized(base.s.values.values)) ==> Sized(base.s.values.values)
      ensures base.TriedWrite(0, KeysText(keys), ok, old(base.s.LoadedPayload()), old(base.Cursor()),
                              old(base.s.values.keys), old(base.s.values.values), old(base.changed),
                              old(base.Entries()), old(base.Entries()) - {0})
    {
      ghost var payload, cursor, ks, lens := base.s.LoadedPayload(), base.Cursor(), base.s.values.keys, base.s.values.values;
      ok := base.TryWriteBytes(0, KeysText(keys));
      if payload.Success? && Sized(lens) {
        SpliceKeepsSized(payload.value, cursor, ks, lens, 0, KeysText(keys));
      }
    }

    /** `Remove(key)`: a listed key has its slot removed with `TryRemove`; when that answers
        `true` the key leaves the list, and every later key is then looked up one slot lower
        (see `RemoveShiftsSlots`). An absent key is `false` and touches nothing. */
    method Remove(key: string) returns (r: bool)
      requires base.Valid()
      modifies this, base, base.s, base.s.ms, base.s.enumerator.io, base.sub.cache
      ensures base.Valid() && base.sub.cache == old(base.sub.cache) && base.s.values == old(base.s.values)
      ensures key !in old(keys) ==>
        !r && keys == old(keys) && base.changed == old(base.changed) && base.View() == old(base.View())
      ensures key in old(keys) ==>
        keys == if r then Without(old(keys), Position(old(keys), key)) else old(keys)
      ensures key in old(keys) ==> base.Dropped(SlotOf(old(keys), key), r, old(base.s.LoadedPayload()), old(base.s.values.keys),
                                           old(base.s.values.values), old(base.changed), old(base.View()),
                                           old(base.Entries()))
    {
      r := false;
      if key in keys {
        r := Drop(key);
      }
    }

    /** The listed key `key`, at position p, is removed: `TryRemove(p + 1)`, then
        `keys.RemoveAt(p)` when that answered `true`. */
    method Drop(key: string) returns (ok: bool)
      requires base.Valid() && key in keys
      modifies this, base, base.s, base.s.ms, base.s.enumerator.io, base.sub.cache
      ensures base.Valid() && base.sub.cache == old(base.sub.cache) && base.s.values == old(base.s.values)
      ensures keys == if ok then Without(old(keys), Position(old(keys), key)) else old(keys)
      ensures base.Dropped(SlotOf(old(keys), key), ok, old(base.s.LoadedPayload()), old(base.s.values.keys),
                           old(base.s.values.values), old(base.changed), old(base.View()), old(base.Entries()))
    {
      ok := base.RemoveSlot(SlotOf(keys, key));
      Unlist(key, ok, old(base.s.LoadedPayload()), old(base.s.values.keys), old(base.s.values.values),
             old(base.changed), old(base.View()), old(base.Entries()));
    }

    /** `keys.RemoveAt(p)`, p the position of `key`, once `TryRemove` answered `ok`; the query
        underneath keeps what it was left in. */
    method Unlist(key: string, ok: bool, ghost payload: Result<seq<byte>>, ghost ks: seq<int>, ghost lens: seq<int>,
                  ghost wasChanged: bool, ghost v: SlotView, ghost entries: map<int, Value>)
      requires key in keys && |ks| == |lens| && base.Valid()
      requires base.Dropped(SlotOf(keys, key), ok, payload, ks, lens, wasChanged, v, entries)
      modifies this
      ensures base.Valid() && base.Dropped(SlotOf(old(keys), key), ok, payload, ks, lens, wasChanged, v, entries)
      ensures keys == if ok then Without(old(keys), Position(old(keys), key)) else old(keys)
    {
      keys := if ok then Without(keys, Position(keys, key)) else keys;
    }

    /** `Clear()`: `TryClear`, and the key list emptied when it answered `true`. The directory,
        slot 0 included, stays as it was. */
    method Clear() returns (ghost ok: bool)
      requires base.Valid()
      modifies this, base, base.s, base.s.ms, base.s.enumerator.io, base.sub.cache
      ensures base.Valid() && base.sub.cache == old(base.sub.cache) && base.s.values == old(base.s.values)
      ensures keys == if ok then [] else old(keys)
      ensures old(base.s.LoadedPayload()).Failure? ==>
        !ok && base.changed == old(base.changed) && base.Entries() == old(base.Entries())
      ensures old(base.s.LoadedPayload()).Success? ==>
        && base.s.LoadedPayload() == Success([]) && base.Entries() == map[]
        && ok == (base.sub.cache != null) && base.changed == (old(base.changed) || ok)
    {
      var cleared := base.TryClear();
      ok := cleared;
      if cleared {
        keys := [];
      }
    }
  }
}

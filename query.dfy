/** `Query<T>`: a list over the slots of a `Generic` sector. Slot keys are list indices, `Count` is
    the number of directory entries, and every operation goes through the slot engine. */
module ListQueries {
  import opened Wrappers
  import opened Bytes
  import opened Codec
  import opened SlotDirectory
  import opened Sectors
  import opened BaseQueries

  // ---------------------------------------------------------------- specification

  /** The indexer getter: -1 and every index from `Count` on are out of range (other negative
      indices are not rejected); an index in range is read and decoded. */
  function Got(v: SlotView, index: int, t: TypeTag): (r: Result<Value>)
    requires WellFormed(v)
    ensures index == -1 || index >= |v.keys| ==> r == Failure(IndexOutOfRange)
    ensures index != -1 && index < |v.keys| ==> r == Fetched(v, index, t)
  {
    if index == -1 || index >= |v.keys| then Failure(IndexOutOfRange) else Fetched(v, index, t)
  }

  /** The indexer setter's range: index -1 and indices past `Count` throw; `Count` itself is
      allowed. */
  predicate SetInRange(count: int, index: int)
  {
    index != -1 && index <= count
  }

  /** A getter result that lets the `IndexOf` scan go on: a non-null value (so `Equals` can be
      called on it) structurally different from `item`. `Equals` compares arrays and host objects
      without an override by reference, so there a freshly read value never equals `item`; the
      model compares them by contents. */
  predicate Passes(g: Result<Value>, item: Value)
  {
    g.Success? && !g.value.Null? && g.value != item
  }

  /** The getter's results on the keys `ks`, in order. */
  function Gots(v: SlotView, ks: seq<int>, t: TypeTag): (gs: seq<Result<Value>>)
    requires WellFormed(v)
    ensures |gs| == |ks|
    decreases |ks|
  {
    if ks == [] then [] else [Got(v, ks[0], t)] + Gots(v, ks[1..], t)
  }

  /** The `i`th result is the getter on the `i`th key. */
  lemma {:induction false} GotsAt(v: SlotView, ks: seq<int>, t: TypeTag, i: int)
    requires WellFormed(v) && 0 <= i < |ks|
    ensures Gots(v, ks, t)[i] == Got(v, ks[i], t)
    decreases i
  {
    if i > 0 {
      GotsAt(v, ks[1..], t, i - 1);
    }
  }

  /** The scan of `IndexOf` over the getter results `gs` of the keys `ks`: the first key whose
      value is structurally equal to `item`, -1 when none is; a getter that throws, or a null value, ends the
      scan with that error. */
  function Scan(gs: seq<Result<Value>>, ks: seq<int>, item: Value): Result<int>
    requires |gs| == |ks|
    decreases |ks|
  {
    if ks == [] then Success(-1)
    else if gs[0].Failure? then Failure(gs[0].error)
    else if gs[0].value.Null? then Failure(NullReference)
    else if gs[0].value == item then Success(ks[0])
    else Scan(gs[1..], ks[1..], item)
  }

  /** `IndexOf(item)` on the slots `v`, scanning the keys `ks` in directory order. */
  function FirstMatch(v: SlotView, ks: seq<int>, item: Value, t: TypeTag): Result<int>
    requires WellFormed(v)
  {
    Scan(Gots(v, ks, t), ks, item)
  }

  /** A scan over values that all pass answers -1. */
  lemma {:induction false} ScanAllPass(gs: seq<Result<Value>>, ks: seq<int>, item: Value)
    requires |gs| == |ks| && forall i :: 0 <= i < |gs| ==> Passes(gs[i], item)
    ensures Scan(gs, ks, item) == Success(-1)
    decreases |ks|
  {
    if ks != [] {
      assert Passes(gs[0], item);
      ScanAllPass(gs[1..], ks[1..], item);
    }
  }

  /** A scan that answers -1 read only values that pass, as long as no key -1 reads a value: -1
      is the answer both for "not found" and for "found at key -1". */
  lemma {:induction false} ScanMisses(gs: seq<Result<Value>>, ks: seq<int>, item: Value)
    requires |gs| == |ks| && forall i :: 0 <= i < |ks| && ks[i] == -1 ==> gs[i].Failure?
    requires Scan(gs, ks, item) == Success(-1)
    ensures forall i :: 0 <= i < |gs| ==> Passes(gs[i], item)
    decreases |ks|
  {
    if ks != [] {
      assert forall i :: 1 <= i < |gs| ==> gs[i] == gs[1..][i - 1] && ks[i] == ks[1..][i - 1];
      ScanMisses(gs[1..], ks[1..], item);
    }
  }

  /** A key the scan answers is one of `ks`, and its value is `item`. */
  lemma {:induction false} ScanFinds(gs: seq<Result<Value>>, ks: seq<int>, item: Value) returns (i: int)
    requires |gs| == |ks| && Scan(gs, ks, item).Success? && Scan(gs, ks, item).value != -1
    ensures 0 <= i < |ks| && ks[i] == Scan(gs, ks, item).value && gs[i] == Success(item)
    decreases |ks|
  {
    if gs[0] == Success(item) {
      return 0;
    }
    i := ScanFinds(gs[1..], ks[1..], item);
    i := i + 1;
  }

  /** Past values that all pass, the scan answers what the first value that does not pass
      decides: its key when it equals `item`, else the getter's error or a null reference. */
  lemma {:induction false} ScanStops(gs: seq<Result<Value>>, ks: seq<int>, item: Value, i: int)
    requires |gs| == |ks| && 0 <= i < |ks|
    requires forall j :: 0 <= j < i ==> Passes(gs[j], item)
    requires !Passes(gs[i], item)
    ensures Scan(gs, ks, item) == Scan([gs[i]], [ks[i]], item)
  {
    if i > 0 {
      assert Passes(gs[0], item);
      assert gs[1..][i - 1] == gs[i] && ks[1..][i - 1] == ks[i];
      assert forall j :: 0 <= j < i - 1 ==> gs[1..][j] == gs[j + 1];
      ScanStops(gs[1..], ks[1..], item, i - 1);
    }
  }

  /** `IndexOf` answers -1 exactly when the getter succeeds on every key with a non-null value
      other than `item`; any other key it answers is a key whose value is `item`. */
  lemma FirstMatchMeaning(v: SlotView, ks: seq<int>, item: Value, t: TypeTag)
    requires WellFormed(v)
    ensures FirstMatch(v, ks, item, t) == Success(-1) <==> forall i :: 0 <= i < |ks| ==> Passes(Got(v, ks[i], t), item)
    ensures FirstMatch(v, ks, item, t).Success? && FirstMatch(v, ks, item, t).value != -1 ==>
      FirstMatch(v, ks, item, t).value in ks && Got(v, FirstMatch(v, ks, item, t).value, t) == Success(item)
  {
    var gs := Gots(v, ks, t);
    forall i | 0 <= i < |ks|
      ensures gs[i] == Got(v, ks[i], t)
    {
      GotsAt(v, ks, t, i);
    }
    if Scan(gs, ks, item) == Success(-1) {
      ScanMisses(gs, ks, item);
    } else if forall i :: 0 <= i < |gs| ==> Passes(gs[i], item) {
      ScanAllPass(gs, ks, item);
    }
    if Scan(gs, ks, item).Success? && Scan(gs, ks, item).value != -1 {
      var i := ScanFinds(gs, ks, item);
    }
  }

  /** A key of the directory that is out of the getter's range (-1, or at least `Count`) makes
      every scan that reaches it throw: keys written through `Insert` past the end, or at -1
      through the directory, cannot be searched past. */
  lemma OutOfRangeKeyStopsScan(v: SlotView, item: Value, t: TypeTag, i: int)
    requires WellFormed(v) && 0 <= i < |v.keys|
    requires v.keys[i] == -1 || v.keys[i] >= |v.keys|
    requires forall j :: 0 <= j < i ==> Passes(Got(v, v.keys[j], t), item)
    ensures FirstMatch(v, v.keys, item, t) == Failure(IndexOutOfRange)
  {
    var gs := Gots(v, v.keys, t);
    forall j | 0 <= j <= i
      ensures gs[j] == Got(v, v.keys[j], t)
    {
      GotsAt(v, v.keys, t, j);
    }
    ScanStops(gs, v.keys, item, i);
  }

  /** A key the getter reads a value from is listed, over a payload that loads. */
  lemma GotNeedsPayload(v: SlotView, k: int, t: TypeTag)
    requires WellFormed(v) && Got(v, k, t).Success?
    ensures k in v.keys && v.payload.Success?
  {
  }

  // ---------------------------------------------------------------- the query

  class Query {
    const base: BaseQuery

    /** `new Query<T>(sector, saveOnDisposed)`. */
    constructor(sector: Sector, elementType: TypeTag, saveOnDisposed: bool)
      requires sector.enumerator.Valid() && sector in sector.enumerator.subscribers
      modifies sector
      ensures base.Valid() && base.s == sector && base.sub.elementType == elementType
      ensures fresh(base) && fresh(base.sub) && base.Entries() == map[] && !base.changed
      ensures sector.connected == old(sector.connected) + 1
      ensures sector.values == old(sector.values)
    {
      base := new BaseQuery(sector, elementType, saveOnDisposed);
    }

    /** `Count`: the number of directory entries. */
    function Count(): (n: nat)
      reads base, base.s, base.s.values
      requires base.s.values.Valid()
      ensures n == |base.s.values.keys| == |base.s.values.values|
    {
      |base.s.values.keys|
    }

    /** The indexer getter. */
    method Get(index: int) returns (r: Result<Value>)
      requires base.Valid()
      modifies base.s, base.s.ms, base.s.enumerator.io, base.sub.cache
      ensures base.Valid() && base.sub.cache == old(base.sub.cache) && base.s.values == old(base.s.values)
      ensures base.s.ms == old(base.s.ms) || fresh(base.s.ms)
      ensures r == Got(old(base.View()), index, base.sub.elementType)
      ensures base.View() == Absorbed(old(base.View()), index, r)
    {
      if index == -1 || index >= Count() {
        return Failure(IndexOutOfRange);
      }
      r := base.ReadValue(index, base.sub.elementType);
    }

    /** The indexer setter: out of range throws; otherwise `TryWrite(index, value)`, whose answer
        (`stored`) the setter discards. */
    method Set(index: int, v: Value) returns (r: Outcome, stored: bool)
      requires base.Valid() && WellTyped(v) && Assignable(v, base.sub.elementType)
      requires SetInRange(Count(), index) && index in base.s.values.keys ==>
        base.s.values.values[SlotDirectory.IndexOf(base.s.values.keys, index)] >= 0
      modifies base, base.s, base.s.values, base.s.ms, base.s.enumerator, base.s.enumerator.io
      modifies base.s.enumerator.subscribers, base.s.enumerator.Listeners(base.s), base.sub.cache
      ensures base.Valid() && base.sub.cache == old(base.sub.cache)
      ensures !SetInRange(old(Count()), index) ==>
        r == Fail(IndexOutOfRange) && !stored && base.View() == old(base.View()) && base.changed == old(base.changed)
      ensures SetInRange(old(Count()), index) ==>
        r == Pass
        && base.TriedWrite(index, PreSerialize(v, base.s.enumerator.host), stored, old(base.s.LoadedPayload()),
                           old(base.Cursor()), old(base.s.values.keys), old(base.s.values.values), old(base.changed),
                           old(base.Entries()), old(base.Entries())[index := v])
    {
      if index == -1 || index > Count() {
        return Fail(IndexOutOfRange), false;
      }
      stored := base.TryWriteValue(index, v);
      r := Pass;
    }

    /** `Add(item)`: the setter at index `Count`, which is always in range. */
    method Add(v: Value) returns (stored: bool)
      requires base.Valid() && WellTyped(v) && Assignable(v, base.sub.elementType)
      requires |base.s.values.keys| in base.s.values.keys ==>
        base.s.values.values[SlotDirectory.IndexOf(base.s.values.keys, |base.s.values.keys|)] >= 0
      modifies base, base.s, base.s.values, base.s.ms, base.s.enumerator, base.s.enumerator.io
      modifies base.s.enumerator.subscribers, base.s.enumerator.Listeners(base.s), base.sub.cache
      ensures base.Valid() && base.sub.cache == old(base.sub.cache)
      ensures base.TriedWrite(old(Count()), PreSerialize(v, base.s.enumerator.host), stored,
                              old(base.s.LoadedPayload()), old(base.Cursor()), old(base.s.values.keys),
                              old(base.s.values.values), old(base.changed), old(base.Entries()),
                              old(base.Entries())[old(Count()) := v])
    {
      var r;
      r, stored := Set(Count(), v);
    }

    /** `Insert(index, item)`: the setter at `index`; the slot is overwritten, nothing shifts. */
    method Insert(index: int, v: Value) returns (r: Outcome, stored: bool)
      requires base.Valid() && WellTyped(v) && Assignable(v, base.sub.elementType)
      requires SetInRange(Count(), index) && index in base.s.values.keys ==>
        base.s.values.values[SlotDirectory.IndexOf(base.s.values.keys, index)] >= 0
      modifies base, base.s, base.s.values, base.s.ms, base.s.enumerator, base.s.enumerator.io
      modifies base.s.enumerator.subscribers, base.s.enumerator.Listeners(base.s), base.sub.cache
      ensures base.Valid() && base.sub.cache == old(base.sub.cache)
      ensures !SetInRange(old(Count()), index) ==> r == Fail(IndexOutOfRange) && base.View() == old(base.View())
      ensures SetInRange(old(Count()), index) ==>
        r == Pass
        && base.TriedWrite(index, PreSerialize(v, base.s.enumerator.host), stored, old(base.s.LoadedPayload()),
                           old(base.Cursor()), old(base.s.values.keys), old(base.s.values.values), old(base.changed),
                           old(base.Entries()), old(base.Entries())[index := v])
    {
      r, stored := Set(index, v);
    }

    /** `IndexOf(item)`: the getter is called on each key in directory order until one returns a
        value equal to `item`; the reads leave the cache coherent. */
    method IndexOf(item: Value) returns (r: Result<int>)
      requires base.Valid()
      modifies base.s, base.s.ms, base.s.enumerator.io, base.sub.cache
      ensures base.Valid() && base.sub.cache == old(base.sub.cache) && base.s.values == old(base.s.values)
      ensures base.s.ms == old(base.s.ms) || fresh(base.s.ms)
      ensures r == FirstMatch(old(base.View()), old(base.s.values.keys), item, base.sub.elementType)
      ensures Coherent(old(base.View()), base.View(), base.sub.elementType)
    {
      ghost var v0 := base.View();
      var t := base.sub.elementType;
      ghost var gs := Gots(v0, v0.keys, t);
      var ks := base.s.values.keys;
      CoherentSelf(v0, t);
      var i := 0;
      r := Success(-1);
      while i < |ks| && r == Success(-1)
        invariant 0 <= i <= |ks| == |gs| && ks == v0.keys
        invariant base.Valid() && base.sub.cache == old(base.sub.cache) && base.s.values == old(base.s.values)
        invariant base.s.ms == old(base.s.ms) || fresh(base.s.ms)
        invariant Coherent(v0, base.View(), t)
        invariant r == Success(-1) ==> forall j :: 0 <= j < i ==> Passes(gs[j], item)
        invariant r != Success(-1) ==> r == Scan(gs, ks, item)
      {
        r := Step(v0, gs, i, ks[i], item);
        i := i + 1;
      }
      if r == Success(-1) {
        ScanAllPass(gs, ks, item);
      }
    }

    /** Turn `i` of the `IndexOf` scan: the getter on the `i`th key `k` and the comparison with
        `item`. -1 means the scan goes on; any other answer is the scan's. */
    method Step(ghost v0: SlotView, ghost gs: seq<Result<Value>>, i: int, k: int, item: Value) returns (r: Result<int>)
      requires base.Valid() && WellFormed(v0) && Coherent(v0, base.View(), base.sub.elementType)
      requires gs == Gots(v0, v0.keys, base.sub.elementType) && 0 <= i < |gs| && k == v0.keys[i]
      requires forall j :: 0 <= j < i ==> Passes(gs[j], item)
      modifies base.s, base.s.ms, base.s.enumerator.io, base.sub.cache
      ensures base.Valid() && base.sub.cache == old(base.sub.cache) && base.s.values == old(base.s.values)
      ensures base.s.ms == old(base.s.ms) || fresh(base.s.ms)
      ensures Coherent(v0, base.View(), base.sub.elementType)
      ensures r == Success(-1) ==> forall j :: 0 <= j <= i ==> Passes(gs[j], item)
      ensures r != Success(-1) ==> r == Scan(gs, v0.keys, item)
    {
      ghost var w := base.View();
      var t := base.sub.elementType;
      CoherentFetched(v0, w, t, k);
      AbsorbedCoherent(v0, w, t, k);
      GotsAt(v0, v0.keys, t, i);
      var got := Get(k);
      if !Passes(got, item) {
        ScanStops(gs, v0.keys, item, i);
      }
      r := if Passes(got, item) then Success(-1)
           else if got.Failure? then Failure(got.error)
           else if got.value.Null? then Failure(NullReference)
           else Success(k);
    }

    /** `RemoveAt(index)`: `TryRemove(index)`, its answer (`ok`, kept here as ghost) discarded;
        what it leaves is `Dropped`. */
    method RemoveAt(index: int) returns (ghost ok: bool)
      requires base.Valid()
      modifies base, base.s, base.s.ms, base.s.enumerator.io, base.sub.cache
      ensures base.Valid() && base.sub.cache == old(base.sub.cache) && base.s.values == old(base.s.values)
      ensures base.Dropped(index, ok, old(base.s.LoadedPayload()), old(base.s.values.keys), old(base.s.values.values),
                           old(base.changed), old(base.View()), old(base.Entries()))
    {
      var removed := base.RemoveSlot(index);
      ok := removed;
    }

    /** `Remove(item)`: the first slot in directory order whose value equals `item` is removed
        with `TryRemove`, whose answer is returned; `false` when none matches. The getter's
        exceptions, and a null value, propagate as in `IndexOf`. */
    method Remove(item: Value) returns (r: Result<bool>)
      requires base.Valid()
      modifies base, base.s, base.s.ms, base.s.enumerator.io, base.sub.cache
      ensures base.Valid() && base.sub.cache == old(base.sub.cache) && base.s.values == old(base.s.values)
      ensures r.Failure? <==> FirstMatch(old(base.View()), old(base.s.values.keys), item, base.sub.elementType).Failure?
      ensures r.Failure? ==>
        r.error == FirstMatch(old(base.View()), old(base.s.values.keys), item, base.sub.elementType).error
        && base.changed == old(base.changed)
      ensures FirstMatch(old(base.View()), old(base.s.values.keys), item, base.sub.elementType) == Success(-1) ==>
        r == Success(false) && base.changed == old(base.changed)
      ensures forall j :: j in old(base.Entries()) && j !in base.Entries() ==>
        FirstMatch(old(base.View()), old(base.s.values.keys), item, base.sub.elementType) == Success(j)
      ensures FirstMatch(old(base.View()), old(base.s.values.keys), item, base.sub.elementType).Success? &&
              FirstMatch(old(base.View()), old(base.s.values.keys), item, base.sub.elementType).value != -1 ==>
        && old(base.s.LoadedPayload()).Success?
        && base.Removed(FirstMatch(old(base.View()), old(base.s.values.keys), item, base.sub.elementType).value,
                        r.value, old(base.s.LoadedPayload()).value, old(base.s.values.keys), old(base.s.values.values),
                        old(base.changed))
    {
      ghost var v0 := base.View();
      var k := IndexOf(item);
      if k.Success? && k.value != -1 {
        FirstMatchMeaning(v0, v0.keys, item, base.sub.elementType);
        GotNeedsPayload(v0, k.value, base.sub.elementType);
        var ok := RemoveFound(v0, k.value);
        r := Success(ok);
      } else {
        r := if k.Failure? then Failure(k.error) else Success(false);
      }
    }

    /** The `TryRemove` of `Remove`, on a slot `k` the scan found, after reads that left the
        slots coherent with `v0`. */
    method RemoveFound(ghost v0: SlotView, k: int) returns (ok: bool)
      requires base.Valid() && WellFormed(v0) && Coherent(v0, base.View(), base.sub.elementType)
      requires k in v0.keys && v0.payload.Success?
      modifies base, base.s, base.s.ms, base.s.enumerator.io, base.sub.cache
      ensures base.Valid() && base.sub.cache == old(base.sub.cache) && base.s.values == old(base.s.values)
      ensures base.Removed(k, ok, v0.payload.value, v0.keys, v0.lens, old(base.changed))
      ensures base.Entries() == if ok then old(base.Entries()) - {k} else old(base.Entries())
    {
      ghost var c := base.Cursor();
      CutIgnoresCursor(v0.payload.value, 0, c, v0.keys, v0.lens, k);
      ok := base.TryRemove(k);
    }
  }
}

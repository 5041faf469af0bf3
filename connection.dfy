/** `CoreConnection`: the factories that open a query on the sector of a name. Each kind of query
    lives in a sector of its own type, so one name can hold a list, a typed map and a dynamic map
    side by side. The one-argument overloads are these with `saveOnDisposed` set. */
module Connections {
  import opened Wrappers
  import opened Bytes
  import opened Text
  import opened Codec
  import opened Records
  import opened Sectors
  import opened ListQueries
  import opened DictionaryQueries
  import opened DynamicDictionaryQueries

  /** `SectorType.Generic | SectorType.Dictionary`: the flags are distinct bits, so their union is
      their sum. */
  const GENERIC_DICTIONARY: byte := GENERIC + DICTIONARY

  class Connection {
    const enumerator: SectorEnumerator

    constructor(enumerator: SectorEnumerator)
      ensures this.enumerator == enumerator
    {
      this.enumerator := enumerator;
    }

    /** `Query<T>(name, saveOnDisposed)`: a list over the `Generic` sector of the name. */
    method OpenQuery(name: string, elementType: TypeTag, saveOnDisposed: bool) returns (r: Result<Query>)
      requires enumerator.Valid()
      modifies enumerator, enumerator.subscribers
      ensures r.Success? <==> ';' !in Lower(name)
      ensures r.Failure? ==> r.error == FormatError
      ensures r.Success? ==>
        && fresh(r.value) && r.value.base.Valid() && r.value.base.sub.elementType == elementType
        && r.value.base.s.enumerator == enumerator && r.value.base.s in enumerator.cache
        && r.value.base.s.name == Lower(name) && r.value.base.s.kind == GENERIC
    {
      var sector := enumerator.OfNameAndType(name, GENERIC);
      if sector.Failure? {
        return Failure(sector.error);
      }
      var q := new Query(sector.value, elementType, saveOnDisposed);
      r := Success(q);
    }

    /** `DictionaryQuery<T>(name, saveOnDisposed)`: a typed map over the `Generic | Dictionary`
        sector of the name; reading its key list may throw. */
    method OpenDictionaryQuery(name: string, elementType: TypeTag, saveOnDisposed: bool) returns (r: Result<DictionaryQuery>)
      requires enumerator.Valid()
      modifies enumerator, enumerator.subscribers, enumerator.io, enumerator.Directories(), enumerator.Buffers()
      ensures ';' in Lower(name) ==> r == Failure(FormatError)
      ensures r.Success? ==>
        && fresh(r.value) && r.value.base.Valid() && r.value.base.sub.elementType == elementType
        && r.value.base.s.enumerator == enumerator && r.value.base.s in enumerator.cache
        && r.value.base.s.name == Lower(name) && r.value.base.s.kind == GENERIC_DICTIONARY
    {
      var sector := enumerator.OfNameAndType(name, GENERIC_DICTIONARY);
      if sector.Failure? {
        return Failure(sector.error);
      }
      ghost var cache := enumerator.cache;
      r := DictionaryQuery.Open(sector.value, elementType, saveOnDisposed);
      assert enumerator.cache == cache;
    }

    /** `DictionaryQuery(name, saveOnDisposed)`: a dynamic map over the `Dictionary` sector of the
        name; reading its lists may throw. */
    method OpenDynamicDictionaryQuery(name: string, saveOnDisposed: bool) returns (r: Result<DynamicDictionaryQuery>)
      requires enumerator.Valid()
      modifies enumerator, enumerator.subscribers, enumerator.io, enumerator.Directories(), enumerator.Buffers()
      ensures ';' in Lower(name) ==> r == Failure(FormatError)
      ensures r.Success? ==>
        && fresh(r.value) && r.value.base.Valid() && r.value.base.sub.elementType == OBJECT
        && r.value.base.s.enumerator == enumerator && r.value.base.s in enumerator.cache
        && r.value.base.s.name == Lower(name) && r.value.base.s.kind == DICTIONARY
    {
      var sector := enumerator.OfNameAndType(name, DICTIONARY);
      if sector.Failure? {
        return Failure(sector.error);
      }
      ghost var cache := enumerator.cache;
      r := DynamicDictionaryQuery.Open(sector.value, saveOnDisposed);
      assert enumerator.cache == cache;
    }
  }
}

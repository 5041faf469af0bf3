/** The slot directory of a sector: two parallel integer lists mapping each slot index to the byte
    length of its value, in the order the slots were last written. The offset of a slot inside the
    sector buffer is the sum of the lengths before it; the directory is persisted as `k:v;k:v`. */
module SlotDirectory {
  import opened Wrappers
  import opened Text

  // ---------------------------------------------------------------- list helpers

  /** `List<int>.IndexOf`: the first position of `x`, or -1. */
  function IndexOf(xs: seq<int>, x: int): (i: int)
    ensures -1 <= i < |xs|
    ensures i >= 0 ==> xs[i] == x && x !in xs[..i]
    ensures i == -1 <==> x !in xs
  {
    if |xs| == 0 then -1
    else if xs[0] == x then 0
    else
      var j := IndexOf(xs[1..], x);
      assert xs == [xs[0]] + xs[1..];
      if j == -1 then -1
      else
        assert xs[..j + 1] == [xs[0]] + xs[1..][..j];
        j + 1
  }

  /** `List<int>.RemoveAt(i)`. */
  function RemoveAt(xs: seq<int>, i: int): seq<int>
    requires 0 <= i < |xs|
  {
    xs[..i] + xs[i + 1..]
  }

  /** Removing a position keeps the relative order of everything else. */
  lemma RemoveAtShape(xs: seq<int>, i: int)
    requires 0 <= i < |xs|
    ensures |RemoveAt(xs, i)| == |xs| - 1
    ensures forall j :: 0 <= j < i ==> RemoveAt(xs, i)[j] == xs[j]
    ensures forall j :: i <= j < |xs| - 1 ==> RemoveAt(xs, i)[j] == xs[j + 1]
    ensures multiset(RemoveAt(xs, i)) + multiset{xs[i]} == multiset(xs)
  {
    assert xs == xs[..i] + [xs[i]] + xs[i + 1..];
  }

  function Sum(xs: seq<int>): int
  {
    if |xs| == 0 then 0 else Sum(xs[..|xs| - 1]) + xs[|xs| - 1]
  }

  lemma {:induction false} SumAppend(xs: seq<int>, ys: seq<int>)
    ensures Sum(xs + ys) == Sum(xs) + Sum(ys)
    decreases |ys|
  {
    if |ys| == 0 {
      assert xs + ys == xs;
    } else {
      SumAppend(xs, ys[..|ys| - 1]);
      assert (xs + ys)[..|xs + ys| - 1] == xs + ys[..|ys| - 1];
    }
  }

  lemma {:induction false} SumNonNegative(xs: seq<int>)
    requires forall i :: 0 <= i < |xs| ==> xs[i] >= 0
    ensures Sum(xs) >= 0
  {
    if |xs| > 0 {
      SumNonNegative(xs[..|xs| - 1]);
    }
  }

  /** `Values.TakeWhile(x => x.Key != key).Sum(x => x.Value)`. */
  function SlotOffset(keys: seq<int>, lens: seq<int>, key: int): int
    requires |keys| == |lens|
  {
    if |keys| == 0 || keys[0] == key then 0
    else lens[0] + SlotOffset(keys[1..], lens[1..], key)
  }

  /** The offset of a slot is the sum of the lengths before its first position, or the total
      length when the key is absent. */
  lemma {:induction false} SlotOffsetIsPrefixSum(keys: seq<int>, lens: seq<int>, key: int)
    requires |keys| == |lens|
    ensures IndexOf(keys, key) >= 0 ==> SlotOffset(keys, lens, key) == Sum(lens[..IndexOf(keys, key)])
    ensures IndexOf(keys, key) == -1 ==> SlotOffset(keys, lens, key) == Sum(lens)
  {
    if |keys| == 0 {
    } else if keys[0] == key {
      assert lens[..0] == [];
    } else {
      SlotOffsetIsPrefixSum(keys[1..], lens[1..], key);
      assert keys == [keys[0]] + keys[1..];
      var i := IndexOf(keys, key);
      assert Sum([lens[0]]) == lens[0] by {
        assert [lens[0]][..0] == [];
      }
      if i >= 0 {
        SumAppend([lens[0]], lens[1..][..i - 1]);
        assert lens[..i] == [lens[0]] + lens[1..][..i - 1];
      } else {
        SumAppend([lens[0]], lens[1..]);
        assert lens == [lens[0]] + lens[1..];
      }
    }
  }

  // ---------------------------------------------------------------- text form

  /** `key.ToString() + ':' + value.ToString()`. */
  function EntryText(k: int, v: int): string
  {
    IntText(k) + ":" + IntText(v)
  }

  function EntryTexts(keys: seq<int>, lens: seq<int>): (r: seq<string>)
    requires |keys| == |lens|
    ensures |r| == |keys|
  {
    seq(|keys|, i requires 0 <= i < |keys| => EntryText(keys[i], lens[i]))
  }

  /** The directory as written into a sector's metadata: `k:v` pairs joined by `;`. */
  function DirectoryText(keys: seq<int>, lens: seq<int>): string
    requires |keys| == |lens|
  {
    Join(EntryTexts(keys, lens), ';')
  }

  /** One element of the parse loop: `split = s.Split(':')`, then `int.Parse(split[0])` and
      `int.Parse(split[1])`; a piece without ':' has no `split[1]`. Pieces after the second are
      ignored. */
  function ParseEntry(s: string): (r: Result<(int, int)>)
    ensures r.Success? ==> IsInt32(r.value.0) && IsInt32(r.value.1)
  {
    var split := Split(s, ':');
    match ParseInt(split[0])
    case Failure(e) => Failure(e)
    case Success(k) =>
      if |split| < 2 then Failure(IndexOutOfRange)
      else
        match ParseInt(split[1])
        case Failure(e) => Failure(e)
        case Success(v) => Success((k, v))
  }

  /** The parse loop over the pieces, in order, stopping at the first piece that throws. */
  function ParseEntries(pieces: seq<string>): (r: Result<(seq<int>, seq<int>)>)
    ensures r.Success? ==> |r.value.0| == |r.value.1| == |pieces|
  {
    if |pieces| == 0 then Success(([], []))
    else
      match ParseEntries(pieces[..|pieces| - 1])
      case Failure(e) => Failure(e)
      case Success(kv) =>
        match ParseEntry(pieces[|pieces| - 1])
        case Failure(e) => Failure(e)
        case Success(entry) => Success((kv.0 + [entry.0], kv.1 + [entry.1]))
  }

  /** `new OrderedDictionary(data)`. */
  function ParseDirectory(data: string): Result<(seq<int>, seq<int>)>
  {
    ParseEntries(Split(data, ';'))
  }

  lemma {:induction false} ParseEntriesFailureExtends(pieces: seq<string>, i: nat)
    requires i <= |pieces|
    requires ParseEntries(pieces[..i]).Failure?
    ensures ParseEntries(pieces).Failure?
    decreases |pieces| - i
  {
    if i < |pieces| {
      assert pieces[..i + 1][..i] == pieces[..i];
      ParseEntriesFailureExtends(pieces, i + 1);
    } else {
      assert pieces[..i] == pieces;
    }
  }

  lemma ParseEntryText(k: int, v: int)
    requires IsInt32(k) && IsInt32(v)
    ensures ParseEntry(EntryText(k, v)) == Success((k, v))
  {
    IntTextHasNo(k, ':');
    IntTextHasNo(v, ':');
    SplitAtSeparator(IntText(k), ':', IntText(v));
    SplitNoSeparator(IntText(v), ':');
    assert IntText(k) + ":" + IntText(v) == IntText(k) + [':'] + IntText(v);
    ParseIntText(k);
    ParseIntText(v);
  }

  lemma ParseEntriesSnoc(pieces: seq<string>, ks: seq<int>, vs: seq<int>, k: int, v: int)
    requires |pieces| >= 1
    requires ParseEntries(pieces[..|pieces| - 1]) == Success((ks, vs))
    requires ParseEntry(pieces[|pieces| - 1]) == Success((k, v))
    ensures ParseEntries(pieces) == Success((ks + [k], vs + [v]))
  {
  }

  lemma {:induction false} ParseEntriesOfTexts(keys: seq<int>, lens: seq<int>)
    requires |keys| == |lens|
    requires forall i :: 0 <= i < |keys| ==> IsInt32(keys[i]) && IsInt32(lens[i])
    ensures ParseEntries(EntryTexts(keys, lens)) == Success((keys, lens))
  {
    if |keys| > 0 {
      var n := |keys| - 1;
      assert keys[..n] + [keys[n]] == keys;
      assert lens[..n] + [lens[n]] == lens;
      var pieces := EntryTexts(keys, lens);
      ParseEntriesOfTexts(keys[..n], lens[..n]);
      assert pieces[..n] == EntryTexts(keys[..n], lens[..n]);
      assert pieces[n] == EntryText(keys[n], lens[n]);
      ParseEntryText(keys[n], lens[n]);
      ParseEntriesSnoc(pieces, keys[..n], lens[..n], keys[n], lens[n]);
    }
  }

  lemma EntryTextHasNoSemicolon(k: int, v: int)
    ensures ';' !in EntryText(k, v)
  {
    IntTextHasNo(k, ';');
    IntTextHasNo(v, ';');
  }

  /** The text form of a non-empty directory of 32-bit integers parses back to the same pairs, in
      the same order. */
  lemma DirectoryRoundTrip(keys: seq<int>, lens: seq<int>)
    requires |keys| == |lens| >= 1
    requires forall i :: 0 <= i < |keys| ==> IsInt32(keys[i]) && IsInt32(lens[i])
    ensures ParseDirectory(DirectoryText(keys, lens)) == Success((keys, lens))
  {
    var texts := EntryTexts(keys, lens);
    forall i | 0 <= i < |texts|
      ensures ';' !in texts[i]
    {
      EntryTextHasNoSemicolon(keys[i], lens[i]);
    }
    SplitJoin(texts, ';');
    ParseEntriesOfTexts(keys, lens);
  }

  /** The empty directory is written as the empty text, which does not parse back: `int.Parse("")`
      throws. */
  lemma EmptyDirectoryDoesNotParse()
    ensures DirectoryText([], []) == ""
    ensures ParseDirectory("") == Failure(FormatError)
  {
    assert Split("", ';') == [""];
    assert Split("", ':') == [""];
    assert [""][..0] == [];
  }

  // ---------------------------------------------------------------- the dictionary object

  class OrderedDictionary {
    var keys: seq<int>
    var values: seq<int>

    /** Keys and Values always have the same length. */
    ghost predicate Valid()
      reads this
    {
      |keys| == |values|
    }

    constructor()
      ensures Valid() && keys == [] && values == []
    {
      keys := [];
      values := [];
    }

    /** A dictionary holding the given pairs, as the parse constructor leaves it once the text
        has been read. */
    constructor Of(ks: seq<int>, vs: seq<int>)
      requires |ks| == |vs|
      ensures Valid() && keys == ks && values == vs
    {
      keys := ks;
      values := vs;
    }

    /** `new OrderedDictionary(data)`: one pair per `;`-separated piece, in order. */
    static method FromText(data: string) returns (r: Result<OrderedDictionary>)
      ensures r.Success? <==> ParseDirectory(data).Success?
      ensures r.Success? ==> fresh(r.value) && r.value.Valid()
      ensures r.Success? ==> (r.value.keys, r.value.values) == ParseDirectory(data).value
    {
      var pieces := Split(data, ';');
      var d := new OrderedDictionary();
      var i := 0;
      while i < |pieces|
        invariant 0 <= i <= |pieces|
        invariant ParseEntries(pieces[..i]) == Success((d.keys, d.values))
        invariant fresh(d) && d.Valid()
      {
        assert pieces[..i + 1][..i] == pieces[..i];
        var entry := ParseEntry(pieces[i]);
        if entry.Failure? {
          ParseEntriesFailureExtends(pieces, i + 1);
          return Failure(entry.error);
        }
        d.keys := d.keys + [entry.value.0];
        d.values := d.values + [entry.value.1];
        i := i + 1;
      }
      assert pieces[..i] == pieces;
      return Success(d);
    }

    /** `Length`: the number of keys, which is also the number of values. */
    function Length(): (n: int)
      reads this
      requires Valid()
      ensures n == |keys| == |values|
    {
      |keys|
    }

    /** `ContainsKey(key)`. */
    function ContainsKey(key: int): (b: bool)
      reads this
      ensures b <==> key in keys
    {
      IndexOf(keys, key) != -1
    }

    /** The indexer getter: the value at the first position of `key`; `Values[-1]` throws when the
        key is absent. */
    function Get(key: int): (r: Result<int>)
      reads this
      requires Valid()
      ensures r.Success? <==> key in keys
      ensures r.Success? ==> exists i :: 0 <= i < |keys| && keys[i] == key && key !in keys[..i] && r.value == values[i]
      ensures r.Failure? ==> r.error == ArgumentError
    {
      var i := IndexOf(keys, key);
      if i == -1 then Failure(ArgumentError) else Success(values[i])
    }

    /** The indexer setter: changes the value at the first position of `key` and nothing else. */
    method Set(key: int, value: int) returns (r: Outcome)
      requires Valid()
      modifies this
      ensures Valid() && keys == old(keys)
      ensures r.Pass? <==> key in keys
      ensures r.Pass? ==> values == old(values)[IndexOf(keys, key) := value]
      ensures r.Fail? ==> r.error == ArgumentError && values == old(values)
    {
      var i := IndexOf(keys, key);
      if i == -1 {
        return Fail(ArgumentError);
      }
      values := values[i := value];
      return Pass;
    }

    /** `Remove(key)`: drops the pair at the first position of `key`; an absent key changes
        nothing. */
    method Remove(key: int)
      requires Valid()
      modifies this
      ensures Valid()
      ensures key !in old(keys) ==> keys == old(keys) && values == old(values)
      ensures key in old(keys) ==>
        keys == RemoveAt(old(keys), IndexOf(old(keys), key)) &&
        values == RemoveAt(old(values), IndexOf(old(keys), key))
    {
      var i := IndexOf(keys, key);
      if i != -1 {
        keys := RemoveAt(keys, i);
        values := RemoveAt(values, i);
      }
    }

    /** `Add(key, value)`: appends the pair, with no duplicate check. */
    method Add(key: int, value: int)
      requires Valid()
      modifies this
      ensures Valid()
      ensures keys == old(keys) + [key] && values == old(values) + [value]
    {
      keys := keys + [key];
      values := values + [value];
    }

    /** `PushToEnd(key, value)`: removes the first pair of `key` if there is one and appends
        `(key, value)`. */
    method PushToEnd(key: int, value: int)
      requires Valid()
      modifies this
      ensures Valid()
      ensures (keys, values) == PushedToEnd(old(keys), old(values), key, value)
    {
      var i := IndexOf(keys, key);
      if i != -1 {
        keys := RemoveAt(keys, i);
        values := RemoveAt(values, i);
      }
      keys := keys + [key];
      values := values + [value];
    }

    /** The enumerator: the pairs in list position order. */
    method Enumerate() returns (pairs: seq<(int, int)>)
      requires Valid()
      ensures |pairs| == |keys|
      ensures forall i :: 0 <= i < |pairs| ==> pairs[i] == (keys[i], values[i])
    {
      pairs := [];
      var i := 0;
      while i < |keys|
        invariant 0 <= i <= |keys|
        invariant |pairs| == i
        invariant forall j :: 0 <= j < i ==> pairs[j] == (keys[j], values[j])
      {
        pairs := pairs + [(keys[i], values[i])];
        i := i + 1;
      }
    }
  }

  /** The directory after `PushToEnd(key, value)`. */
  function PushedToEnd(keys: seq<int>, lens: seq<int>, key: int, value: int): (seq<int>, seq<int>)
    requires |keys| == |lens|
  {
    var i := IndexOf(keys, key);
    if i == -1 then (keys + [key], lens + [value])
    else (RemoveAt(keys, i) + [key], RemoveAt(lens, i) + [value])
  }

  /** After `PushToEnd(k, v)`, k is the last key with value v, the other pairs keep their order,
      and the length grows by one exactly when k was absent. */
  lemma PushToEndShape(keys: seq<int>, lens: seq<int>, key: int, value: int)
    requires |keys| == |lens|
    ensures var (ks, vs) := PushedToEnd(keys, lens, key, value);
      && |ks| == |vs| >= 1
      && ks[|ks| - 1] == key && vs[|vs| - 1] == value
      && (key in keys ==> |ks| == |keys|)
      && (key !in keys ==> |ks| == |keys| + 1 && ks[..|keys|] == keys && vs[..|lens|] == lens)
      && (key in keys ==>
            ks[..|ks| - 1] == RemoveAt(keys, IndexOf(keys, key)) &&
            vs[..|vs| - 1] == RemoveAt(lens, IndexOf(keys, key)))
  {
    var (ks, vs) := PushedToEnd(keys, lens, key, value);
    if key in keys {
      var i := IndexOf(keys, key);
      assert ks[..|ks| - 1] == RemoveAt(keys, i);
      assert vs[..|vs| - 1] == RemoveAt(lens, i);
    } else {
      assert ks[..|keys|] == keys;
      assert vs[..|lens|] == lens;
    }
  }

  /** Removing one element keeps the others distinct and drops every copy of it. */
  lemma RemoveAtKeepsDistinct(xs: seq<int>, i: int)
    requires 0 <= i < |xs| && Distinct(xs)
    ensures Distinct(RemoveAt(xs, i))
    ensures xs[i] !in RemoveAt(xs, i)
  {
    RemoveAtShape(xs, i);
    var rest := RemoveAt(xs, i);
    forall a, b | 0 <= a < b < |rest|
      ensures rest[a] != rest[b]
    {
      var a' := if a < i then a else a + 1;
      var b' := if b < i then b else b + 1;
      assert rest[a] == xs[a'] && rest[b] == xs[b'];
    }
    forall j | 0 <= j < |rest|
      ensures rest[j] != xs[i]
    {
      var j' := if j < i then j else j + 1;
      assert rest[j] == xs[j'];
    }
  }

  /** When keys are distinct they stay distinct after `PushToEnd`, and only the pushed key is
      touched. */
  lemma PushToEndKeepsDistinct(keys: seq<int>, lens: seq<int>, key: int, value: int)
    requires |keys| == |lens|
    requires Distinct(keys)
    ensures Distinct(PushedToEnd(keys, lens, key, value).0)
    ensures multiset(PushedToEnd(keys, lens, key, value).0) == multiset(keys) - multiset{key} + multiset{key}
  {
    var ks := PushedToEnd(keys, lens, key, value).0;
    var i := IndexOf(keys, key);
    if i == -1 {
      assert multiset(keys) - multiset{key} == multiset(keys);
    } else {
      RemoveAtShape(keys, i);
      RemoveAtKeepsDistinct(keys, i);
      var rest := RemoveAt(keys, i);
      assert ks == rest + [key];
      forall a, b | 0 <= a < b < |ks|
        ensures ks[a] != ks[b]
      {
        if b == |rest| {
          assert ks[a] == rest[a];
        } else {
          assert ks[a] == rest[a] && ks[b] == rest[b];
        }
      }
    }
  }

  /** A position holding `x` with no `x` before it is the one `IndexOf` finds. */
  lemma FirstIndex(xs: seq<int>, x: int, j: int)
    requires 0 <= j < |xs| && xs[j] == x
    requires forall k :: 0 <= k < j ==> xs[k] != x
    ensures IndexOf(xs, x) == j
  {
    assert xs[j] in xs;
  }

  /** Appending leaves the first position of every key already listed. */
  lemma IndexOfAppend(xs: seq<int>, y: int, x: int)
    requires x in xs
    ensures IndexOf(xs + [y], x) == IndexOf(xs, x)
  {
    var i := IndexOf(xs, x);
    forall k | 0 <= k < i
      ensures (xs + [y])[k] != x
    {
      assert xs[..i][k] == xs[k];
    }
    FirstIndex(xs + [y], x, i);
  }

  /** `RemoveAt(i)` keeps every other key `x` listed, one place lower when it came after `i`. */
  lemma IndexOfRemoveAt(xs: seq<int>, i: int, x: int)
    requires 0 <= i < |xs| && x != xs[i] && x in xs
    ensures x in RemoveAt(xs, i)
    ensures IndexOf(RemoveAt(xs, i), x) == if IndexOf(xs, x) < i then IndexOf(xs, x) else IndexOf(xs, x) - 1
  {
    var m := IndexOf(xs, x);
    RemoveAtShape(xs, i);
    var ys := RemoveAt(xs, i);
    var j := if m < i then m else m - 1;
    assert ys[j] == x;
    forall k | 0 <= k < j
      ensures ys[k] != x
    {
      if k < i {
        assert xs[..m][k] == xs[k];
      } else {
        assert xs[..m][k + 1] == xs[k + 1];
      }
    }
    FirstIndex(ys, x, j);
  }

  /** `PushToEnd(key, value)` keeps every other key listed or unlisted as it was, with the
      value it had. */
  lemma PushToEndKeepsOthers(keys: seq<int>, lens: seq<int>, key: int, value: int, other: int)
    requires |keys| == |lens| && other != key
    ensures |PushedToEnd(keys, lens, key, value).0| == |PushedToEnd(keys, lens, key, value).1|
    ensures other in PushedToEnd(keys, lens, key, value).0 <==> other in keys
    ensures other in keys ==>
      PushedToEnd(keys, lens, key, value).1[IndexOf(PushedToEnd(keys, lens, key, value).0, other)]
      == lens[IndexOf(keys, other)]
  {
    var i := IndexOf(keys, key);
    if i == -1 {
      if other in keys {
        IndexOfAppend(keys, key, other);
      }
    } else {
      RemoveAtShape(keys, i);
      RemoveAtShape(lens, i);
      assert keys == keys[..i] + [keys[i]] + keys[i + 1..];
      if other in keys {
        IndexOfRemoveAt(keys, i, other);
        IndexOfAppend(RemoveAt(keys, i), key, other);
      }
    }
  }

  predicate Distinct(xs: seq<int>)
  {
    forall a, b :: 0 <= a < b < |xs| ==> xs[a] != xs[b]
  }
}

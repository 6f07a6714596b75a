/**
 * The JSON-like tree helpers of src/utils/ObjectUtils.ts: `isObject`, `deepMerge` and
 * `addValueToObject`. Trees are values here: an object is its list of entries in key
 * order, and a write yields the new tree.
 */
module ObjectUtils {
  import opened Exceptions

  /** A JavaScript value as these helpers see it. */
  datatype Json =
    | JUndefined
    | JNull
    | JBool(b: bool)
    | JNum(n: int)
    | JStr(s: string)
    | JArray(items: seq<Json>)
    | JObject(entries: seq<(string, Json)>)

  type Entries = seq<(string, Json)>

  /** `isObject`: truthy exactly for a non-null object that is not an array. */
  predicate IsObject(v: Json)
    ensures IsObject(v) ==> Truthy(v)
    ensures v.JArray? || v.JNull? || v.JUndefined? ==> !IsObject(v)
  {
    v.JObject?
  }

  /** JavaScript truthiness (integers only: no NaN). */
  predicate Truthy(v: Json) {
    match v
    case JUndefined => false
    case JNull => false
    case JBool(b) => b
    case JNum(n) => n != 0
    case JStr(s) => s != ""
    case _ => true
  }

  // ---------------------------------------------------------------------------
  // Property access.
  // ---------------------------------------------------------------------------

  predicate HasKey(e: Entries, key: string) {
    exists i :: 0 <= i < |e| && e[i].0 == key
  }

  /** `obj[key]`: the entry's value, `undefined` when there is none. */
  function Lookup(e: Entries, key: string): Json {
    if e == [] then JUndefined
    else if e[0].0 == key then e[0].1
    else Lookup(e[1..], key)
  }

  /** `obj[key] = v`: an existing key keeps its place, a new one goes last. */
  function Assign(e: Entries, key: string, v: Json): Entries {
    if e == [] then [(key, v)]
    else if e[0].0 == key then [(key, v)] + e[1..]
    else [e[0]] + Assign(e[1..], key, v)
  }

  /** A property read on anything but an object finds nothing. */
  function Get(v: Json, key: string): Json {
    if v.JObject? then Lookup(v.entries, key) else JUndefined
  }

  /** Following a key path from the root. */
  function GetPath(v: Json, keys: seq<string>): Json
    decreases |keys|
  {
    if keys == [] then v else GetPath(Get(v, keys[0]), keys[1..])
  }

  predicate DistinctKeys(e: Entries) {
    forall i, j :: 0 <= i < j < |e| ==> e[i].0 != e[j].0
  }

  lemma {:induction false} LookupAssign(e: Entries, key: string, v: Json, other: string)
    decreases |e|
    ensures Lookup(Assign(e, key, v), key) == v
    ensures other != key ==> Lookup(Assign(e, key, v), other) == Lookup(e, other)
  {
    if e != [] && e[0].0 != key {
      var rest := Assign(e[1..], key, v);
      assert Assign(e, key, v) == [e[0]] + rest;
      assert ([e[0]] + rest)[1..] == rest;
      LookupAssign(e[1..], key, v, other);
    }
  }

  /** Assigning twice is assigning the second value. */
  lemma {:induction false} AssignTwice(e: Entries, key: string, v: Json, w: Json)
    decreases |e|
    ensures Assign(Assign(e, key, v), key, w) == Assign(e, key, w)
  {
    if e != [] && e[0].0 != key {
      var rest := Assign(e[1..], key, v);
      assert Assign(e, key, v) == [e[0]] + rest;
      assert ([e[0]] + rest)[1..] == rest;
      AssignTwice(e[1..], key, v, w);
    }
  }

  lemma {:induction false} LookupMissing(e: Entries, key: string)
    requires !HasKey(e, key)
    decreases |e|
    ensures Lookup(e, key) == JUndefined
  {
    if e != [] {
      assert forall i :: 0 <= i < |e[1..]| ==> e[1..][i] == e[i + 1];
      LookupMissing(e[1..], key);
    }
  }

  // ---------------------------------------------------------------------------
  // `deepMerge`.
  // ---------------------------------------------------------------------------

  /**
   * `deepMerge(target, source)` with one source: when both are objects, each source key
   * in order either merges its object value into the target's (a fresh `{}` when the
   * target's is falsy) or overwrites; otherwise the target is returned as it is.
   */
  function MergeInto(target: Json, source: Json): (r: Json)
    decreases source, 1
    ensures IsObject(r) <==> IsObject(target)
  {
    if IsObject(target) && IsObject(source) then JObject(MergeEntries(target.entries, source, 0))
    else target
  }

  /** What a source value does to the target's value under the same key. */
  function MergeValue(current: Json, v: Json): (r: Json)
    decreases v, 2
    ensures !IsObject(v) ==> r == v
    ensures IsObject(v) ==> (IsObject(r) <==> IsObject(current) || !Truthy(current))
    ensures IsObject(v) && Truthy(current) && !IsObject(current) ==> r == current
  {
    if IsObject(v) then MergeInto(if Truthy(current) then current else JObject([]), v) else v
  }

  /** The key loop of `deepMerge`, from the `i`th key of the source on. */
  function MergeEntries(t: Entries, source: Json, i: nat): Entries
    requires source.JObject? && i <= |source.entries|
    decreases source, 0, |source.entries| - i
  {
    if i == |source.entries| then t
    else
      var key := source.entries[i].0;
      var v := source.entries[i].1;
      MergeEntries(Assign(t, key, MergeValue(Lookup(t, key), v)), source, i + 1)
  }

  /** `deepMerge(target, ...sources)`: the sources one after the other. */
  function MergeAll(target: Json, sources: seq<Json>): (r: Json)
    decreases |sources|
    ensures IsObject(r) <==> IsObject(target)
  {
    if sources == [] then target else MergeAll(MergeInto(target, sources[0]), sources[1..])
  }

  /**
   * `deepMerge` itself: a loop over the sources, a loop over each source's keys, and a
   * recursive call for object values.
   */
  method DeepMerge(target: Json, sources: seq<Json>) returns (r: Json)
    ensures r == MergeAll(target, sources)
  {
    r := target;
    var k := 0;
    while k < |sources|
      invariant 0 <= k <= |sources|
      invariant MergeAll(r, sources[k..]) == MergeAll(target, sources)
    {
      assert sources[k..][1..] == sources[k + 1..];
      r := MergeOne(r, sources[k]);
      k := k + 1;
    }
  }

  /** One source merged into the target. */
  method MergeOne(target: Json, source: Json) returns (r: Json)
    decreases source
    ensures r == MergeInto(target, source)
  {
    if !(IsObject(target) && IsObject(source)) {
      return target;
    }
    var entries := target.entries;
    var i := 0;
    while i < |source.entries|
      invariant 0 <= i <= |source.entries|
      invariant MergeEntries(entries, source, i) == MergeEntries(target.entries, source, 0)
    {
      var key := source.entries[i].0;
      var v := source.entries[i].1;
      if IsObject(v) {
        var current := Lookup(entries, key);
        var start := entries;
        if !Truthy(current) {
          entries := Assign(entries, key, JObject([]));
          current := JObject([]);
        }
        var merged := MergeOne(current, v);
        AssignTwice(start, key, JObject([]), merged);
        entries := Assign(entries, key, merged);
      } else {
        entries := Assign(entries, key, v);
      }
      i := i + 1;
    }
    r := JObject(entries);
  }

  /** With no sources the target comes back unchanged. */
  lemma NoSources(target: Json)
    ensures MergeAll(target, []) == target
  {
  }

  /** A target that is not an object is returned as it is, whatever the sources. */
  lemma {:induction false} NonObjectTarget(target: Json, sources: seq<Json>)
    requires !IsObject(target)
    decreases |sources|
    ensures MergeAll(target, sources) == target
  {
    if sources != [] {
      NonObjectTarget(target, sources[1..]);
    }
  }

  /** Sources are applied left to right: the last one goes on top of all the others. */
  lemma {:induction false} MergeAllAppend(target: Json, sources: seq<Json>, last: Json)
    decreases |sources|
    ensures MergeAll(target, sources + [last]) == MergeInto(MergeAll(target, sources), last)
  {
    if sources == [] {
      assert ([last])[1..] == [];
    } else {
      assert (sources + [last])[1..] == sources[1..] + [last];
      MergeAllAppend(MergeInto(target, sources[0]), sources[1..], last);
    }
  }

  /** A key that none of the remaining source keys names keeps its value. */
  lemma {:induction false} MergeEntriesElsewhere(t: Entries, source: Json, i: nat, key: string)
    requires source.JObject? && i <= |source.entries|
    requires forall p :: i <= p < |source.entries| ==> source.entries[p].0 != key
    decreases |source.entries| - i
    ensures Lookup(MergeEntries(t, source, i), key) == Lookup(t, key)
  {
    if i < |source.entries| {
      var k := source.entries[i].0;
      var next := Assign(t, k, MergeValue(Lookup(t, k), source.entries[i].1));
      LookupAssign(t, k, MergeValue(Lookup(t, k), source.entries[i].1), key);
      MergeEntriesElsewhere(next, source, i + 1, key);
    }
  }

  /** The key at position p of a source with distinct keys gets that entry's merge. */
  lemma {:induction false} MergeEntriesAt(t: Entries, source: Json, i: nat, p: nat)
    requires source.JObject? && DistinctKeys(source.entries) && i <= p < |source.entries|
    decreases |source.entries| - i
    ensures Lookup(MergeEntries(t, source, i), source.entries[p].0)
         == MergeValue(Lookup(t, source.entries[p].0), source.entries[p].1)
  {
    var key := source.entries[p].0;
    var k := source.entries[i].0;
    var next := Assign(t, k, MergeValue(Lookup(t, k), source.entries[i].1));
    LookupAssign(t, k, MergeValue(Lookup(t, k), source.entries[i].1), key);
    if i == p {
      MergeEntriesElsewhere(next, source, i + 1, key);
    } else {
      MergeEntriesAt(next, source, i + 1, p);
    }
  }

  /**
   * One source merged into an object: a key of the source gets the merge of its value
   * (overwrite for a scalar or array, recursive merge for an object), every other key
   * keeps its value.
   */
  lemma MergeIntoLookup(target: Json, source: Json, key: string)
    requires IsObject(target) && IsObject(source) && DistinctKeys(source.entries)
    ensures !HasKey(source.entries, key) ==>
      Get(MergeInto(target, source), key) == Get(target, key)
    ensures HasKey(source.entries, key) ==>
      Get(MergeInto(target, source), key) == MergeValue(Get(target, key), Get(source, key))
  {
    if HasKey(source.entries, key) {
      var p :| 0 <= p < |source.entries| && source.entries[p].0 == key;
      MergeEntriesAt(target.entries, source, 0, p);
      LookupDistinct(source.entries, p);
    } else {
      MergeEntriesElsewhere(target.entries, source, 0, key);
    }
  }

  lemma {:induction false} LookupDistinct(e: Entries, p: nat)
    requires DistinctKeys(e) && p < |e|
    decreases |e|
    ensures Lookup(e, e[p].0) == e[p].1
  {
    if p > 0 {
      assert forall i :: 0 <= i < |e[1..]| ==> e[1..][i] == e[i + 1];
      LookupDistinct(e[1..], p - 1);
    }
  }

  /** A key that no object source names keeps the target's value through the whole merge. */
  lemma {:induction false} KeyOutsideSources(target: Json, sources: seq<Json>, key: string)
    requires forall i :: 0 <= i < |sources| && IsObject(sources[i]) ==> !HasKey(sources[i].entries, key)
    decreases |sources|
    ensures Get(MergeAll(target, sources), key) == Get(target, key)
  {
    if sources != [] {
      var next := MergeInto(target, sources[0]);
      if IsObject(target) && IsObject(sources[0]) {
        MergeEntriesElsewhere(target.entries, sources[0], 0, key);
      }
      KeyOutsideSources(next, sources[1..], key);
    }
  }

  /**
   * A truthy scalar in the target under a key whose source value is an object is left
   * alone: the recursive merge skips a target that is not an object.
   */
  lemma TruthyScalarKept(target: Json, source: Json, key: string)
    requires IsObject(target) && IsObject(source) && DistinctKeys(source.entries)
    requires IsObject(Get(source, key)) && Truthy(Get(target, key)) && !IsObject(Get(target, key))
    ensures Get(MergeInto(target, source), key) == Get(target, key)
  {
    if !HasKey(source.entries, key) {
      LookupMissing(source.entries, key);
    }
    MergeIntoLookup(target, source, key);
  }

  /** The last source's scalar for a key is what the merged object holds. */
  lemma LastScalarWins(target: Json, sources: seq<Json>, last: Json, key: string)
    requires IsObject(target) && IsObject(last) && DistinctKeys(last.entries)
    requires HasKey(last.entries, key) && !IsObject(Get(last, key))
    ensures Get(MergeAll(target, sources + [last]), key) == Get(last, key)
  {
    MergeAllAppend(target, sources, last);
    MergeIntoLookup(MergeAll(target, sources), last, key);
  }

  // ---------------------------------------------------------------------------
  // `addValueToObject`.
  // ---------------------------------------------------------------------------

  /**
   * `addValueToObject(obj, keys, value)`: store the value at the key path, replacing a
   * falsy intermediate by `{}` and descending into a truthy one. Writing a property of
   * something that is not an object is the strict-mode TypeError, whatever the path; an
   * empty path into an object recurses without end in the source, which ends in a
   * RangeError.
   */
  function PutPath(obj: Json, keys: seq<string>, value: Json): (r: Result<Json>)
    decreases |keys|
    ensures r.Ok? ==> IsObject(r.value)
    ensures keys == [] ==> r == Err(if IsObject(obj) then RangeError else PropertyOnPrimitive)
    ensures keys != [] && r.Err? ==> r.error == PropertyOnPrimitive
  {
    if !IsObject(obj) then Err(PropertyOnPrimitive)
    else if keys == [] then Err(RangeError)
    else if |keys| == 1 then Ok(JObject(Assign(obj.entries, keys[0], value)))
    else
      match PutPath(Descend(obj, keys[0]), keys[1..], value)
      case Err(e) => Err(e)
      case Ok(c) => Ok(JObject(Assign(obj.entries, keys[0], c)))
  }

  /** The node `addValueToObject` descends into: the property when truthy, else a fresh `{}`. */
  function Descend(obj: Json, key: string): Json {
    var current := Get(obj, key);
    if Truthy(current) then current else JObject([])
  }

  /**
   * A key path the insertion can follow: a non-empty path into an object whose every
   * intermediate node is an object or falsy (and so replaced by `{}`).
   */
  predicate Storable(obj: Json, keys: seq<string>)
    decreases |keys|
  {
    IsObject(obj) && keys != [] && (|keys| > 1 ==> Storable(Descend(obj, keys[0]), keys[1..]))
  }

  /** An insertion succeeds exactly on a storable path. */
  lemma {:induction false} PutPathOk(obj: Json, keys: seq<string>, value: Json)
    decreases |keys|
    ensures PutPath(obj, keys, value).Ok? <==> Storable(obj, keys)
  {
    if IsObject(obj) && |keys| > 1 {
      PutPathOk(Descend(obj, keys[0]), keys[1..], value);
    }
  }

  /** Every non-empty path is storable in the empty object: all it meets is `undefined`. */
  lemma {:induction false} EmptyStorable(keys: seq<string>)
    requires keys != []
    decreases |keys|
    ensures Storable(JObject([]), keys)
  {
    if |keys| > 1 {
      EmptyStorable(keys[1..]);
    }
  }

  /** `p` is a strictly shorter path that `q` continues. */
  predicate ProperPrefix(p: seq<string>, q: seq<string>) {
    |p| < |q| && q[..|p|] == p
  }

  /**
   * An insertion keeps every other storable path storable, unless the inserted path is a
   * proper prefix of it (the new leaf would then sit on its way).
   */
  lemma {:induction false} StorableAfterPut(obj: Json, keys: seq<string>, value: Json, q: seq<string>)
    requires Storable(obj, keys) && Storable(obj, q) && !ProperPrefix(keys, q)
    decreases |keys|
    ensures PutPath(obj, keys, value).Ok?
    ensures Storable(PutPath(obj, keys, value).value, q)
  {
    PutPathOk(obj, keys, value);
    var r := PutPath(obj, keys, value).value;
    if |q| > 1 {
      if |keys| == 1 {
        assert q[..1] == [q[0]];
        LookupAssign(obj.entries, keys[0], value, q[0]);
        assert Descend(r, q[0]) == Descend(obj, q[0]);
      } else {
        var c := PutPath(Descend(obj, keys[0]), keys[1..], value).value;
        LookupAssign(obj.entries, keys[0], c, q[0]);
        if q[0] == keys[0] {
          assert |keys| < |q| ==> q[..|keys|] == [q[0]] + q[1..][..|keys| - 1];
          assert keys == [keys[0]] + keys[1..];
          StorableAfterPut(Descend(obj, keys[0]), keys[1..], value, q[1..]);
          assert Descend(r, q[0]) == c;
        } else {
          assert Descend(r, q[0]) == Descend(obj, q[0]);
        }
      }
    }
  }

  /** After a successful insertion the path leads to the value. */
  lemma {:induction false} PutPathGet(obj: Json, keys: seq<string>, value: Json)
    requires PutPath(obj, keys, value).Ok?
    decreases |keys|
    ensures GetPath(PutPath(obj, keys, value).value, keys) == value
  {
    if |keys| == 1 {
      LookupAssign(obj.entries, keys[0], value, keys[0]);
      assert keys[1..] == [];
    } else {
      var current := Lookup(obj.entries, keys[0]);
      var child := if Truthy(current) then current else JObject([]);
      var c := PutPath(child, keys[1..], value).value;
      LookupAssign(obj.entries, keys[0], c, keys[0]);
      PutPathGet(child, keys[1..], value);
    }
  }

  /**
   * Siblings survive: a path that leaves the inserted one at some depth reads the same
   * before and after (what was under a falsy node read as nothing, and still does).
   */
  lemma {:induction false} PutPathSiblings(obj: Json, keys: seq<string>, value: Json, q: seq<string>, i: nat)
    requires PutPath(obj, keys, value).Ok?
    requires i < |keys| && i < |q| && q[..i] == keys[..i] && q[i] != keys[i]
    decreases |keys|
    ensures GetPath(PutPath(obj, keys, value).value, q) == GetPath(obj, q)
  {
    var r := PutPath(obj, keys, value).value;
    var current := Lookup(obj.entries, keys[0]);
    if i == 0 {
      if |keys| == 1 {
        LookupAssign(obj.entries, keys[0], value, q[0]);
      } else {
        var child := if Truthy(current) then current else JObject([]);
        LookupAssign(obj.entries, keys[0], PutPath(child, keys[1..], value).value, q[0]);
      }
    } else {
      assert q[0] == keys[0];
      assert q[1..][..i - 1] == keys[1..][..i - 1];
      var child := if Truthy(current) then current else JObject([]);
      LookupAssign(obj.entries, keys[0], PutPath(child, keys[1..], value).value, keys[0]);
      PutPathSiblings(child, keys[1..], value, q[1..], i - 1);
      if !Truthy(current) {
        EmptyPath(q[1..], i - 1);
        UndefinedPath(current, q[1..]);
      }
    }
  }

  /** Below a node that was falsy nothing can be read. */
  lemma UndefinedPath(v: Json, q: seq<string>)
    requires !Truthy(v) && q != []
    ensures GetPath(v, q) == JUndefined
  {
    UndefinedAll(q[1..]);
  }

  lemma {:induction false} UndefinedAll(q: seq<string>)
    decreases |q|
    ensures GetPath(JUndefined, q) == JUndefined
  {
    if q != [] {
      UndefinedAll(q[1..]);
    }
  }

  /** A path through the empty object reads nothing once it leaves it. */
  lemma EmptyPath(q: seq<string>, i: nat)
    requires i < |q|
    ensures GetPath(JObject([]), q) == JUndefined
  {
    UndefinedAll(q[1..]);
  }

  /** Into an object, a one-key path is a plain property write. */
  lemma PutTopLevel(obj: Json, key: string, value: Json)
    requires IsObject(obj)
    ensures PutPath(obj, [key], value) == Ok(JObject(Assign(obj.entries, key, value)))
    ensures Get(PutPath(obj, [key], value).value, key) == value
  {
    LookupAssign(obj.entries, key, value, key);
  }
}

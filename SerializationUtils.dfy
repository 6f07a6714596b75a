/**
 * `serializeSettings` (src/utils/SerializationUtils.ts): every value of a settings
 * collection becomes a leaf of a nested tree, at the path spelt by its dotted name.
 */
module SerializationUtils {
  import opened DataTypes
  import opened Exceptions
  import opened RetroTinkSetting
  import opened ObjectUtils
  import opened JsText
  import RetroTinkProfile
  import Schema

  /** One entry of a settings collection: its key, its descriptor and its bytes. */
  type Item = (string, Setting, seq<Byte>)

  /**
   * The leaf a value becomes: `asString` for STR, `asBoolean` for BIT and `asInt` for every
   * other type, ENUM included. An `asInt` that yields `undefined` stores `undefined`; one that
   * throws makes the whole serialization throw.
   */
  function Leaf(s: Setting, bytes: seq<Byte>): (r: Result<Json>)
    ensures r.Err? ==> r.error == NotImplementedYet
    ensures r.Ok? ==> !IsObject(r.value)
    ensures r.Ok? <==> s.dtype in {STR, BIT} || Length(s) == 1
  {
    match s.dtype
    case STR => Ok(JStr(DecodeString(bytes)))
    case BIT => Ok(JBool(DecodeBoolean(bytes)))
    case _ =>
      var n := DecodeInt(s.dtype, Length(s), bytes);
      if n.Ok? then Ok(JNum(n.value))
      else if n.error == UndefinedByte then Ok(JUndefined)
      else Err(n.error)
  }

  /** The key path of a dotted name. */
  function PathOf(name: string): seq<string> {
    Split(name, '.')
  }

  /** One entry written into the tree. */
  function SerializeItem(tree: Json, item: Item): Result<Json> {
    var leaf := Leaf(item.1, item.2);
    if leaf.Err? then Err(leaf.error) else PutPath(tree, PathOf(item.0), leaf.value)
  }

  /** The entries written one after the other, in collection order. */
  function Serialize(tree: Json, items: seq<Item>): (r: Result<Json>)
    decreases |items|
    ensures IsObject(tree) && r.Ok? ==> IsObject(r.value)
    ensures r.Err? ==> r.error == NotImplementedYet || r.error == PropertyOnPrimitive
  {
    if items == [] then Ok(tree)
    else
      var next := SerializeItem(tree, items[0]);
      if next.Err? then next else Serialize(next.value, items[1..])
  }

  /** The key, descriptor and current bytes of each value of a collection, in order. */
  function Items(t: Table<RetroTinkSettingValue>): (r: seq<Item>)
    reads RetroTinkProfile.Holders(t), RetroTinkProfile.Buffers(t)
    ensures |r| == |t|
    ensures forall i :: 0 <= i < |t| ==> r[i] == (t[i].0, t[i].1.setting, t[i].1.value[..])
  {
    if t == [] then []
    else Items(t[..|t| - 1]) + [(t[|t| - 1].0, t[|t| - 1].1.setting, t[|t| - 1].1.value[..])]
  }

  /** `serializeSettings`: a loop over the collection, each entry written from the root. */
  method SerializeSettings(settings: Table<RetroTinkSettingValue>) returns (r: Result<Json>)
    ensures r == Serialize(JObject([]), Items(settings))
  {
    var items := Items(settings);
    var tree := JObject([]);
    var k := 0;
    while k < |settings|
      invariant 0 <= k <= |settings|
      invariant Serialize(tree, items[k..]) == Serialize(JObject([]), items)
    {
      var item := settings[k];
      var leaf: Result<Json>;
      match item.1.setting.dtype {
        case STR => leaf := Ok(JStr(item.1.AsString()));
        case BIT => leaf := Ok(JBool(item.1.AsBoolean()));
        case _ =>
          var n := item.1.AsInt();
          if n.Ok? {
            leaf := Ok(JNum(n.value));
          } else if n.error == UndefinedByte {
            leaf := Ok(JUndefined);
          } else {
            leaf := Err(n.error);
          }
      }
      assert items[k] == (item.0, item.1.setting, item.1.value[..]);
      assert leaf == Leaf(items[k].1, items[k].2);
      assert items[k..][1..] == items[k + 1..];
      if leaf.Err? {
        return Err(leaf.error);
      }
      var next := PutPath(tree, PathOf(item.0), leaf.value);
      if next.Err? {
        return next;
      }
      tree := next.value;
      k := k + 1;
    }
    r := Ok(tree);
  }

  // ---------------------------------------------------------------------------
  // Properties.
  // ---------------------------------------------------------------------------

  /** The leaf kind follows the data type; a one-byte number setting with bytes gives its number. */
  lemma LeafKind(s: Setting, bytes: seq<Byte>)
    ensures s.dtype == STR ==> Leaf(s, bytes) == Ok(JStr(DecodeString(bytes)))
    ensures s.dtype == BIT ==> Leaf(s, bytes) == Ok(JBool(DecodeBoolean(bytes)))
    ensures s.dtype !in {STR, BIT} && Length(s) == 1 && |bytes| > 0 ==>
      Leaf(s, bytes).Ok? && Leaf(s, bytes).value.JNum? &&
      Ok(Leaf(s, bytes).value.n) == DecodeInt(s.dtype, 1, bytes)
    ensures s.dtype !in {STR, BIT} && Length(s) != 1 ==> Leaf(s, bytes) == Err(NotImplementedYet)
  {
  }

  /** Serializing a concatenation serializes the first part, then the second into its result. */
  lemma {:induction false} SerializeAppend(tree: Json, a: seq<Item>, b: seq<Item>)
    decreases |a|
    ensures var m := Serialize(tree, a);
      Serialize(tree, a + b) == if m.Err? then m else Serialize(m.value, b)
  {
    if a == [] {
      assert a + b == b;
    } else {
      assert (a + b)[1..] == a[1..] + b;
      var next := SerializeItem(tree, a[0]);
      if next.Ok? {
        SerializeAppend(next.value, a[1..], b);
      }
    }
  }

  /** After the last entry, its dotted path leads to its decoded value. */
  lemma LastLeafReachable(tree: Json, items: seq<Item>, last: Item)
    requires Serialize(tree, items + [last]).Ok?
    ensures Leaf(last.1, last.2).Ok?
    ensures GetPath(Serialize(tree, items + [last]).value, PathOf(last.0)) == Leaf(last.1, last.2).value
  {
    SerializeAppend(tree, items, [last]);
    var m := Serialize(tree, items).value;
    assert Serialize(tree, items + [last]) == SerializeItem(m, last);
    PutPathGet(m, PathOf(last.0), Leaf(last.1, last.2).value);
  }

  /** Two key paths part ways: they agree up to some depth and differ there. */
  predicate Diverge(p: seq<string>, q: seq<string>) {
    exists i :: 0 <= i < |p| && i < |q| && p[..i] == q[..i] && p[i] != q[i]
  }

  /** A path that every entry's path parts ways with reads the same after serialization. */
  lemma {:induction false} UntouchedPath(tree: Json, items: seq<Item>, q: seq<string>)
    requires Serialize(tree, items).Ok?
    requires forall k :: 0 <= k < |items| ==> Diverge(PathOf(items[k].0), q)
    decreases |items|
    ensures GetPath(Serialize(tree, items).value, q) == GetPath(tree, q)
  {
    if items != [] {
      var keys := PathOf(items[0].0);
      var v := Leaf(items[0].1, items[0].2).value;
      assert Diverge(keys, q);
      var i :| 0 <= i < |keys| && i < |q| && keys[..i] == q[..i] && keys[i] != q[i];
      assert q[..i] == keys[..i];
      PutPathSiblings(tree, keys, v, q, i);
      var next := SerializeItem(tree, items[0]).value;
      assert forall k :: 0 <= k < |items[1..]| ==> items[1..][k] == items[k + 1];
      UntouchedPath(next, items[1..], q);
    }
  }

  /**
   * Names sharing a prefix share a subtree: an entry's leaf survives every later entry
   * whose path parts ways with its own.
   */
  lemma EarlierLeafSurvives(tree: Json, items: seq<Item>, j: nat)
    requires j < |items| && Serialize(tree, items).Ok?
    requires forall k :: j < k < |items| ==> Diverge(PathOf(items[k].0), PathOf(items[j].0))
    ensures Leaf(items[j].1, items[j].2).Ok?
    ensures GetPath(Serialize(tree, items).value, PathOf(items[j].0)) == Leaf(items[j].1, items[j].2).value
  {
    var a, b := items[..j], items[j + 1..];
    assert items == (a + [items[j]]) + b;
    SerializeAppend(tree, a + [items[j]], b);
    var m := Serialize(tree, a + [items[j]]);
    LastLeafReachable(tree, a, items[j]);
    assert forall k :: 0 <= k < |b| ==> b[k] == items[j + 1 + k];
    UntouchedPath(m.value, b, PathOf(items[j].0));
  }

  /** A name without a dot is a top-level key holding the leaf. */
  lemma TopLevelLeaf(tree: Json, items: seq<Item>, last: Item)
    requires forall c :: 0 <= c < |last.0| ==> last.0[c] != '.'
    requires Serialize(tree, items + [last]).Ok?
    ensures Leaf(last.1, last.2).Ok?
    ensures ObjectUtils.Get(Serialize(tree, items + [last]).value, last.0) == Leaf(last.1, last.2).value
  {
    SplitWithoutSeparator(last.0, '.');
    LastLeafReachable(tree, items, last);
  }

  /**
   * A leaf write replaces a subtree: after `input.audio` and then `input`, the `input`
   * key holds the scalar of `input`, and the audio leaf is gone from the tree.
   */
  lemma LeafReplacesSubtree(audio: Item, input: Item)
    requires audio.0 == "input.audio" && input.0 == "input"
    requires Serialize(JObject([]), [audio, input]).Ok?
    ensures Leaf(input.1, input.2).Ok?
    ensures ObjectUtils.Get(Serialize(JObject([]), [audio, input]).value, "input") == Leaf(input.1, input.2).value
    ensures !IsObject(Leaf(input.1, input.2).value) ==>
      GetPath(Serialize(JObject([]), [audio, input]).value, ["input", "audio"]) == JUndefined
  {
    assert [audio, input] == [audio] + [input];
    TopLevelLeaf(JObject([]), [audio], input);
    var v := Leaf(input.1, input.2).value;
    if !IsObject(v) {
      var r := Serialize(JObject([]), [audio, input]).value;
      assert GetPath(r, ["input", "audio"]) == GetPath(ObjectUtils.Get(v, "audio"), []);
    }
  }

  /** When one name's key path leads on into another's, the other name is below it. */
  lemma PathPrefixName(a: string, b: string)
    ensures ObjectUtils.ProperPrefix(PathOf(a), PathOf(b)) ==> Schema.NestsUnder(a, b)
  {
    var p, q := PathOf(a), PathOf(b);
    if ObjectUtils.ProperPrefix(p, q) {
      var rest := q[|p|..];
      assert q == p + rest;
      SplitJoin(a, '.');
      SplitJoin(b, '.');
      JoinAppend(p, rest, '.');
      assert b == a + ['.'] + Join(rest, '.');
    }
  }

  /**
   * Serialization succeeds when every leaf decodes, every path is storable in the tree
   * and no path is continued by a later one: each write leaves the later paths storable.
   */
  lemma {:induction false} SerializeStores(tree: Json, items: seq<Item>)
    requires forall k :: 0 <= k < |items| ==>
      Leaf(items[k].1, items[k].2).Ok? && Storable(tree, PathOf(items[k].0))
    requires forall j, k :: 0 <= j < k < |items| ==>
      !ObjectUtils.ProperPrefix(PathOf(items[j].0), PathOf(items[k].0))
    decreases |items|
    ensures Serialize(tree, items).Ok?
  {
    if items != [] {
      var keys := PathOf(items[0].0);
      var v := Leaf(items[0].1, items[0].2).value;
      PutPathOk(tree, keys, v);
      var next := PutPath(tree, keys, v).value;
      var rest := items[1..];
      forall k | 0 <= k < |rest| ensures Storable(next, PathOf(rest[k].0)) {
        assert rest[k] == items[k + 1];
        StorableAfterPut(tree, keys, v, PathOf(items[k + 1].0));
      }
      forall j, k | 0 <= j < k < |rest|
        ensures !ObjectUtils.ProperPrefix(PathOf(rest[j].0), PathOf(rest[k].0))
      {
        assert rest[j] == items[j + 1] && rest[k] == items[k + 1];
      }
      SerializeStores(next, rest);
    }
  }

  /**
   * From the empty object, serialization succeeds when every leaf decodes and no name is
   * below an earlier one; a name below a later one is fine, as the later leaf replaces
   * the subtree.
   */
  lemma SerializeFresh(items: seq<Item>)
    requires forall k :: 0 <= k < |items| ==> Leaf(items[k].1, items[k].2).Ok?
    requires forall j, k :: 0 <= j < k < |items| ==> !Schema.NestsUnder(items[j].0, items[k].0)
    ensures Serialize(JObject([]), items).Ok?
  {
    forall k | 0 <= k < |items| ensures Storable(JObject([]), PathOf(items[k].0)) {
      EmptyStorable(PathOf(items[k].0));
    }
    forall j, k | 0 <= j < k < |items|
      ensures !ObjectUtils.ProperPrefix(PathOf(items[j].0), PathOf(items[k].0))
    {
      PathPrefixName(items[j].0, items[k].0);
    }
    SerializeStores(JObject([]), items);
  }

  /** The items of a profile's values: each keyed by its setting's name. */
  function EntryItems(es: seq<RetroTinkProfile.Entry>): (r: seq<Item>)
    ensures |r| == |es| && forall i :: 0 <= i < |es| ==> r[i] == (es[i].0.name, es[i].0, es[i].1)
  {
    seq(|es|, i requires 0 <= i < |es| => (es[i].0.name, es[i].0, es[i].1))
  }

  /** Every number setting of the 1.4.2 schema is one byte, so every leaf decodes. */
  lemma SchemaLeaves(image: seq<Byte>)
    ensures forall i :: 0 <= i < |Schema.Settings142| ==>
      Leaf(Schema.Settings142[i], RetroTinkProfile.SliceBytes(Schema.Settings142[i], image)).Ok?
  {
    forall i | 0 <= i < |Schema.Settings142|
      ensures Schema.Settings142[i].dtype in {STR, BIT} || Length(Schema.Settings142[i]) == 1
    {
      Schema.Below20(i);
    }
  }

  /** `serializeValues` of any image: all of its 1.4.2 values serialize without error. */
  lemma SerializeSchema(image: seq<Byte>)
    ensures Serialize(JObject([]), EntryItems(RetroTinkProfile.ValuesOf([], image))).Ok?
  {
    RetroTinkProfile.GetValuesUnscoped();
    var items := EntryItems(RetroTinkProfile.ValuesOf([], image));
    assert forall i :: 0 <= i < |items| ==>
      items[i] == (Schema.Settings142[i].name, Schema.Settings142[i],
                   RetroTinkProfile.SliceBytes(Schema.Settings142[i], image));
    Schema.NamesNest();
    SchemaLeaves(image);
    SerializeFresh(items);
  }
}

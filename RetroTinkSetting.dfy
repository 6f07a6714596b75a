/**
 * Setting descriptors, the name-keyed settings table and the value codec
 * (src/settings/RetroTinkSetting.ts). A descriptor carries a list of byte ranges; the
 * single-range descriptors of the 1.4.2 schema are the `address`/`length` pair of the
 * older descriptor, with `length` the sum of the range lengths.
 */
module RetroTinkSetting {
  import opened DataTypes
  import opened Exceptions
  import opened Bytes
  import JsText

  /** Where part of a setting lives in the profile image. */
  datatype ByteRange = ByteRange(address: nat, length: nat)

  /** Two ranges share no byte. */
  predicate Disjoint(x: ByteRange, y: ByteRange) {
    x.address + x.length <= y.address || y.address + y.length <= x.address
  }

  /** One named byte pattern of an ENUM setting. */
  datatype EnumChoice = EnumChoice(name: string, value: seq<Byte>)

  /** The closed set of derivation functions of read-only settings (`deriveValue`). */
  datatype DeriveRule =
    | FixedBytes(bytes: seq<Byte>)
    | AudioInputTable

  /** A stored setting, or a read-only one derived from the named settings (`derivedFrom`). */
  datatype Derivation =
    | Stored
    | ReadOnly(derivedFrom: seq<string>, rule: DeriveRule)

  /** A setting descriptor; `enums` is empty for settings that have none. */
  datatype Setting = Setting(
    name: string,
    desc: string,
    byteRanges: seq<ByteRange>,
    dtype: DataType,
    enums: seq<EnumChoice>,
    derivation: Derivation)

  function SumLengths(rs: seq<ByteRange>): nat {
    if rs == [] then 0 else rs[0].length + SumLengths(rs[1..])
  }

  /** The descriptor's `length`: the total number of bytes over its ranges. */
  function Length(s: Setting): nat {
    SumLengths(s.byteRanges)
  }

  /** A single-range descriptor is the `address`/`length` pair of the older descriptor. */
  lemma SingleRangeLength(s: Setting)
    requires |s.byteRanges| == 1
    ensures Length(s) == s.byteRanges[0].length
  {
    assert s.byteRanges[1..] == [];
    assert SumLengths(s.byteRanges[1..]) == 0;
  }

  // ---------------------------------------------------------------------------
  // RetroTinkBaseSettings: a Map from name to entry whose `get` throws on a miss.
  // ---------------------------------------------------------------------------

  /** The entries of a JavaScript Map, in insertion order. */
  type Table<T> = seq<(string, T)>

  predicate Has<T>(t: Table<T>, key: string) {
    exists i :: 0 <= i < |t| && t[i].0 == key
  }

  function IndexOf<T>(t: Table<T>, key: string): (i: nat)
    requires Has(t, key)
    ensures i < |t| && t[i].0 == key
    ensures forall j :: 0 <= j < i ==> t[j].0 != key
  {
    if t[0].0 == key then 0 else 1 + IndexOf(t[1..], key)
  }

  /** `Map.prototype.set`: replace the entry in place, or append a new one. */
  function Put<T>(t: Table<T>, key: string, v: T): (r: Table<T>)
    ensures Has(t, key) ==> |r| == |t| && r[IndexOf(t, key)] == (key, v)
    ensures Has(t, key) ==> forall j :: 0 <= j < |t| && j != IndexOf(t, key) ==> r[j] == t[j]
    ensures !Has(t, key) ==> r == t + [(key, v)]
  {
    if Has(t, key) then t[IndexOf(t, key) := (key, v)] else t + [(key, v)]
  }

  /** The Map built from a list of entries (`new Map(settings.map((s) => [s.name, s]))`). */
  function FromList<T>(items: seq<T>, key: T -> string): Table<T> {
    if items == [] then []
    else Put(FromList(items[..|items| - 1], key), key(items[|items| - 1]), items[|items| - 1])
  }

  /** `RetroTinkBaseSettings.get`: the stored entry, or SettingNotSupportedError for a missing key. */
  function Get<T>(t: Table<T>, key: string): (r: Result<T>)
    ensures r.Ok? <==> Has(t, key)
    ensures r.Err? ==> r.error == SettingNotSupported(key)
    ensures r.Ok? ==> (key, r.value) in t
  {
    if Has(t, key) then Ok(t[IndexOf(t, key)].1) else Err(SettingNotSupported(key))
  }

  lemma GetPut<T>(t: Table<T>, k: string, v: T, key: string)
    ensures Get(Put(t, k, v), key) == if key == k then Ok(v) else Get(t, key)
  {
    var r := Put(t, k, v);
    if Has(t, k) {
      assert forall j :: 0 <= j < |t| ==> r[j].0 == t[j].0;
      assert Has(r, key) <==> Has(t, key);
      if Has(t, key) {
        assert IndexOf(r, key) == IndexOf(t, key) by {
          var i, i' := IndexOf(r, key), IndexOf(t, key);
          assert !(i < i') && !(i' < i);
        }
      }
    } else {
      if Has(t, key) {
        var i' := IndexOf(t, key);
        assert r[i'].0 == key;
        var i := IndexOf(r, key);
        assert !(i < i') && !(i' < i);
      } else if key == k {
        assert r[|t|].0 == key;
        assert IndexOf(r, key) == |t|;
      }
    }
  }

  /**
   * The Map semantics of the table: a key is present iff some item has it, and `get`
   * returns the LAST item with that key.
   */
  lemma {:induction false} GetFromList<T>(items: seq<T>, key: T -> string, k: string)
    ensures Get(FromList(items, key), k).Ok? <==> exists i :: 0 <= i < |items| && key(items[i]) == k
    ensures Get(FromList(items, key), k).Ok? ==>
              (exists i :: 0 <= i < |items| && key(items[i]) == k
                 && Get(FromList(items, key), k).value == items[i]
                 && forall j :: i < j < |items| ==> key(items[j]) != k)
  {
    if items != [] {
      var n := |items| - 1;
      var prefix := items[..n];
      GetFromList(prefix, key, k);
      GetPut(FromList(prefix, key), key(items[n]), items[n], k);
      if key(items[n]) != k {
        assert forall i :: 0 <= i < n ==> prefix[i] == items[i];
        if Get(FromList(prefix, key), k).Ok? {
          var i :| 0 <= i < n && key(prefix[i]) == k && Get(FromList(prefix, key), k).value == prefix[i]
                   && forall j :: i < j < n ==> key(prefix[j]) != k;
          assert forall j :: i < j < |items| ==> key(items[j]) != k;
        }
      }
    }
  }

  /** With pairwise distinct keys the Map keeps every item, in list order. */
  lemma {:induction false} FromListDistinct<T>(items: seq<T>, key: T -> string)
    requires forall i, j :: 0 <= i < j < |items| ==> key(items[i]) != key(items[j])
    ensures |FromList(items, key)| == |items|
    ensures forall i :: 0 <= i < |items| ==> FromList(items, key)[i] == (key(items[i]), items[i])
  {
    if items != [] {
      var n := |items| - 1;
      var prefix := items[..n];
      FromListDistinct(prefix, key);
    }
  }

  // ---------------------------------------------------------------------------
  // The value codec of RetroTinkSettingValue, on byte sequences.
  // ---------------------------------------------------------------------------

  /** `asString`: the empty string when byte 0 is zero, else one character per byte. */
  function DecodeString(bytes: seq<Byte>): (r: string)
    ensures |bytes| > 0 && bytes[0] == 0 ==> r == ""
    ensures !(|bytes| > 0 && bytes[0] == 0) ==>
              |r| == |bytes| && forall i :: 0 <= i < |bytes| ==> r[i] as int == bytes[i]
  {
    if |bytes| > 0 && bytes[0] == 0 then "" else seq(|bytes|, i requires 0 <= i < |bytes| => bytes[i] as char)
  }

  /** A character code stored into a `Uint8Array` element (ToUint8). */
  function StoreChar(c: char): Byte {
    (c as int) % 256
  }

  /**
   * The buffer `fromString` builds: `length` bytes, the first min(|s|, length) holding the
   * stored character codes of `s` and all the others zero.
   */
  function EncodeString(s: string, length: nat): (r: seq<Byte>)
    ensures |r| == length
    ensures forall i :: 0 <= i < length && i < |s| ==> r[i] == StoreChar(s[i])
    ensures forall i :: |s| <= i < length ==> r[i] == 0
  {
    seq(length, i requires 0 <= i < length => if i < |s| then StoreChar(s[i]) else 0)
  }

  /** `asInt`: one byte read unsigned, or as two's complement for SIGNED_INT. */
  function DecodeInt(dtype: DataType, length: nat, bytes: seq<Byte>): (r: Result<int>)
    ensures length != 1 <==> r == Err(NotImplementedYet)
    ensures length == 1 && |bytes| > 0 && dtype != SIGNED_INT ==> r == Ok(bytes[0])
    ensures length == 1 && |bytes| > 0 && dtype == SIGNED_INT ==>
              r.Ok? && -128 <= r.value < 128 && r.value % 256 == bytes[0]
    ensures length == 1 && |bytes| == 0 ==> r == if dtype == SIGNED_INT then Ok(0) else Err(UndefinedByte)
  {
    if length == 1 then
      if dtype == SIGNED_INT then
        // `undefined & 0xff` is 0; for a byte, `& 0x80` is set exactly from 128 up
        var u: int := if |bytes| > 0 then bytes[0] else 0;
        Ok(if u >= 0x80 then u - 256 else u)
      else if |bytes| > 0 then Ok(bytes[0])
      else Err(UndefinedByte)
    else Err(NotImplementedYet)
  }

  /** The new `value` of a setter and the error it raised, if any. */
  datatype Written = Written(value: seq<Byte>, error: Option<ProfileError>)

  predicate InByteRange(dtype: DataType, n: int) {
    if dtype == SIGNED_INT then -128 <= n <= 127 else 0 <= n <= 255
  }

  /**
   * `fromInt`: the value is replaced by a zero buffer FIRST, so a rejected number leaves
   * it all zeros; on a one-byte setting an in-range number is stored (negatives as
   * 256 + n), anything else is a SettingValidationError; wider settings are not implemented.
   */
  function EncodeInt(s: Setting, n: int): (r: Written)
    ensures |r.value| == Length(s)
    ensures r.error == None <==> Length(s) == 1 && InByteRange(s.dtype, n)
    ensures r.error == None ==> r.value == [n % 256]
    ensures r.error != None ==> r.value == Zeros(Length(s))
    ensures Length(s) != 1 ==> r.error == Some(NotImplementedYet)
    ensures Length(s) == 1 && !InByteRange(s.dtype, n) ==> r.error == Some(SettingValidation(s.name, n))
  {
    var zero := Zeros(Length(s));
    if Length(s) == 1 then
      if s.dtype == SIGNED_INT then
        if n < -128 || n > 127 then Written(zero, Some(SettingValidation(s.name, n)))
        else Written(zero[0 := if n < 0 then 256 + n else n], None)
      else
        if n < 0 || n > 255 then Written(zero, Some(SettingValidation(s.name, n)))
        else Written(zero[0 := n], None)
    else Written(zero, Some(NotImplementedYet))
  }

  /**
   * `set(val)`: dispatch on the input's kind and the setting's type. Strings go through
   * `fromString` (STR) or `parseInt(val, 10)` then `fromInt` (INT, SIGNED_INT); numbers go
   * through `fromInt` (INT, SIGNED_INT) or are rendered as decimal text (STR). Every other
   * combination is a SettingTypeError that leaves the value as it was.
   */
  function SetValue(s: Setting, current: seq<Byte>, val: Primitive): (r: Written)
    ensures r.error.None? ==> |r.value| == Length(s)
    ensures r.error.Some? ==>
      r.error.value.SettingType? || r.error.value.SettingValidation? || r.error.value == NotImplementedYet
    ensures r.error.Some? && r.error.value.SettingType? ==> r.value == current
    ensures r.error.Some? && !r.error.value.SettingType? ==> r.value == Zeros(Length(s))
  {
    var typeError := Written(current, Some(SettingType(s.name, s.dtype, val)));
    match val
    case Str(str) =>
      (match s.dtype
       case STR => Written(EncodeString(str, Length(s)), None)
       case INT | SIGNED_INT =>
         (match JsText.ParseInt10(str)
          case None => typeError
          case Some(v) => EncodeInt(s, v))
       case _ => typeError)
    case Num(n) =>
      (match s.dtype
       case INT | SIGNED_INT => EncodeInt(s, n)
       case STR => Written(EncodeString(JsText.Decimal(n), Length(s)), None)
       case _ => typeError)
    case _ => typeError
  }

  /** `asBoolean` is not part of this model's source; it is taken as "some byte is nonzero". */
  predicate DecodeBoolean(bytes: seq<Byte>) {
    exists i :: 0 <= i < |bytes| && bytes[i] != 0
  }

  // ---------------------------------------------------------------------------
  // Properties of the codec.
  // ---------------------------------------------------------------------------

  /**
   * String round trip: text of codes 1..255 that fits decodes back to itself, followed
   * by one NUL character per unused byte (asString keeps trailing zero bytes).
   */
  lemma StringRoundTrip(s: string, n: nat)
    requires |s| <= n
    requires forall i :: 0 <= i < |s| ==> 0 < s[i] as int < 256
    ensures DecodeString(EncodeString(s, n)) == if s == "" then "" else s + seq(n - |s|, _ => '\0')
  {
    var e := EncodeString(s, n);
    if s == "" {
      if n > 0 { assert e[0] == 0; }
    } else {
      assert e[0] == StoreChar(s[0]) != 0;
      var d := DecodeString(e);
      var want := s + seq(n - |s|, _ => '\0');
      assert |d| == |want|;
      forall i | 0 <= i < n ensures d[i] == want[i] {
        assert d[i] as int == e[i];
        if i < |s| { assert want[i] == s[i]; } else { assert want[i] == '\0'; }
      }
    }
  }

  /** Integer round trip: a number `fromInt` accepts reads back unchanged through `asInt`. */
  lemma IntRoundTrip(s: Setting, n: int)
    requires EncodeInt(s, n).error == None
    ensures DecodeInt(s.dtype, Length(s), EncodeInt(s, n).value) == Ok(n)
  {
  }

  /** The other direction: every byte of a one-byte integer setting is what `fromInt` writes for its `asInt`. */
  lemma ByteRoundTrip(s: Setting, b: Byte)
    requires Length(s) == 1 && (s.dtype == INT || s.dtype == SIGNED_INT)
    ensures DecodeInt(s.dtype, 1, [b]).Ok?
    ensures EncodeInt(s, DecodeInt(s.dtype, 1, [b]).value) == Written([b], None)
  {
  }

  /**
   * The SettingTypeError cases of `set`, both directions: booleans and other shapes
   * always, BIT and ENUM for every input, and INT or SIGNED_INT text that does not parse.
   * The value is left untouched in exactly those cases.
   */
  lemma SetTypeErrors(s: Setting, current: seq<Byte>, val: Primitive)
    ensures var r := SetValue(s, current, val);
      (r.error.Some? && r.error.value.SettingType?) <==>
        || val.Bool? || val.Other?
        || s.dtype == BIT || s.dtype == ENUM
        || (val.Str? && s.dtype != STR && JsText.ParseInt10(val.s).None?)
    ensures var r := SetValue(s, current, val);
      r.error.Some? && r.error.value.SettingType? ==> r.value == current && r.error.value.input == val
  {
    match val
    case Str(t) =>
      if s.dtype == INT || s.dtype == SIGNED_INT {
        var p := JsText.ParseInt10(t);
        if p.Some? {
          assert SetValue(s, current, val) == EncodeInt(s, p.value);
        }
      }
    case Num(n) =>
      if s.dtype == INT || s.dtype == SIGNED_INT {
        assert SetValue(s, current, val) == EncodeInt(s, n);
      }
    case _ =>
  }

  /** Decimal text and the number it renders set an integer setting alike. */
  lemma SetDecimalTextAsNumber(s: Setting, current: seq<Byte>, n: int)
    requires s.dtype == INT || s.dtype == SIGNED_INT
    ensures SetValue(s, current, Str(JsText.Decimal(n))) == SetValue(s, current, Num(n))
  {
    JsText.ParseDecimal(n);
  }

  /**
   * `set` on a STR setting never fails: a string is stored as is, a number as its
   * decimal text, both truncated or zero-padded to the setting's length.
   */
  lemma SetOnString(s: Setting, current: seq<Byte>, val: Primitive)
    requires s.dtype == STR && (val.Str? || val.Num?)
    ensures SetValue(s, current, val).error == None
    ensures SetValue(s, current, val).value ==
              EncodeString(if val.Str? then val.s else JsText.Decimal(val.n), Length(s))
  {
  }

  // ---------------------------------------------------------------------------
  // RetroTinkSettingValue: a descriptor bound to a byte buffer.
  // ---------------------------------------------------------------------------

  class RetroTinkSettingValue {
    const setting: Setting
    var value: array<Byte>

    /** Without explicit bytes the value is a fresh zero buffer of the setting's length. */
    constructor (setting: Setting)
      ensures this.setting == setting
      ensures fresh(value) && value[..] == Zeros(Length(setting))
    {
      this.setting := setting;
      value := new Byte[Length(setting)](_ => 0);
    }

    /** With explicit bytes the given buffer itself is kept (no copy, no check). */
    constructor WithBytes(setting: Setting, value: array<Byte>)
      ensures this.setting == setting && this.value == value
    {
      this.setting := setting;
      this.value := value;
    }

    function AsString(): string
      reads this, value
    {
      DecodeString(value[..])
    }

    function AsInt(): Result<int>
      reads this, value
    {
      DecodeInt(setting.dtype, Length(setting), value[..])
    }

    function AsBoolean(): bool
      reads this, value
    {
      DecodeBoolean(value[..])
    }

    /** `fromString`: fill a fresh zero buffer with the stored character codes. */
    method FromString(str: string)
      modifies this
      ensures fresh(value) && value[..] == EncodeString(str, Length(setting))
    {
      var n := Length(setting);
      var buf := new Byte[n](_ => 0);
      var i := 0;
      while i < |str| && i < n
        invariant 0 <= i <= n && i <= |str|
        invariant forall k :: 0 <= k < i ==> buf[k] == StoreChar(str[k])
        invariant forall k :: i <= k < n ==> buf[k] == 0
      {
        buf[i] := StoreChar(str[i]);
        i := i + 1;
      }
      if |str| < n {
        buf[|str|] := 0;  // null-terminate if there is space
      }
      value := buf;
    }

    /** `fromInt`: a fresh zero buffer, then the range check, then the byte. */
    method FromInt(num: int) returns (err: Option<ProfileError>)
      modifies this
      ensures fresh(value)
      ensures value[..] == EncodeInt(setting, num).value && err == EncodeInt(setting, num).error
    {
      value := new Byte[Length(setting)](_ => 0);
      if Length(setting) == 1 {
        if setting.dtype == SIGNED_INT {
          if num < -128 || num > 127 {
            return Some(SettingValidation(setting.name, num));
          }
          value[0] := if num < 0 then 256 + num else num;
        } else {
          if num < 0 || num > 255 {
            return Some(SettingValidation(setting.name, num));
          }
          value[0] := num;
        }
        err := None;
      } else {
        err := Some(NotImplementedYet);
      }
    }

    /** `set(val)`: the new buffer and the error are those of `SetValue`. */
    method Set(val: Primitive) returns (err: Option<ProfileError>)
      modifies this
      ensures value == old(value) || fresh(value)
      ensures value[..] == SetValue(setting, old(value[..]), val).value
      ensures err == SetValue(setting, old(value[..]), val).error
    {
      var typeError := Some(SettingType(setting.name, setting.dtype, val));
      match val {
        case Str(str) =>
          match setting.dtype {
            case STR =>
              FromString(str);
              err := None;
            case INT =>
              var v := JsText.ParseInt10(str);
              if v.None? {
                err := typeError;
              } else {
                err := FromInt(v.value);
              }
            case SIGNED_INT =>
              var v := JsText.ParseInt10(str);
              if v.None? {
                err := typeError;
              } else {
                err := FromInt(v.value);
              }
            case _ =>
              err := typeError;
          }
        case Num(n) =>
          match setting.dtype {
            case INT =>
              err := FromInt(n);
            case SIGNED_INT =>
              err := FromInt(n);
            case STR =>
              FromString(JsText.Decimal(n));
              err := None;
            case _ =>
              err := typeError;
          }
        case _ =>
          err := typeError;
      }
    }
  }
}

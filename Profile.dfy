/**
 * The older profile reader (src/profile/Profile.ts): a fixed list of four single-range
 * descriptors and a `getValues` that slices each out of the image.
 */
module Profile {
  import opened DataTypes
  import opened Bytes
  import opened RetroTinkSetting
  import Schema
  import RetroTinkProfile

  const LegacyHeader: Setting :=
    Setting("header", "File Header", [ByteRange(0x0000, 12)], STR, [], Stored)

  const LegacyMaskEnabled: Setting :=
    Setting("advanced." + "effects." + "mask." + "enabled", "Advanced -> Processing -> Mask -> Enabled",
      [ByteRange(0x008c, 1)], INT, [], Stored)

  const LegacyMaskStrength: Setting :=
    Setting("advanced." + "effects." + "mask." + "strength", "Advanced -> Processing -> Mask -> Strength",
      [ByteRange(0x02a0, 1)], SIGNED_INT, [], Stored)

  const LegacyMaskPath: Setting :=
    Setting("advanced." + "effects." + "mask." + "path", "Advanced -> Processing -> Mask -> Path",
      [ByteRange(0x0090, 256)], STR, [], Stored)

  /** The static descriptor list, in declaration order. */
  const LegacySettings: seq<Setting> := [LegacyHeader, LegacyMaskEnabled, LegacyMaskStrength, LegacyMaskPath]

  /** The first, and only, range of a legacy descriptor: its `address` and `length`. */
  function Address(s: Setting): nat
    requires |s.byteRanges| == 1
  {
    s.byteRanges[0].address
  }

  function Span(s: Setting): nat
    requires |s.byteRanges| == 1
  {
    s.byteRanges[0].length
  }

  class Profile {
    var bytes: array<Byte>

    constructor (bytes: array<Byte>)
      ensures this.bytes == bytes
    {
      this.bytes := bytes;
    }

    /**
     * `getValues`: one value per descriptor, in declaration order, each holding a copy of
     * `bytes.slice(address, address + length)`.
     */
    function GetValues(): (r: seq<(Setting, seq<Byte>)>)
      reads this, bytes
      ensures |r| == |LegacySettings|
      ensures forall i :: 0 <= i < |r| ==> r[i].0 == LegacySettings[i]
      ensures forall i :: 0 <= i < |r| ==>
        r[i].1 == Slice(bytes[..], Address(LegacySettings[i]), Address(LegacySettings[i]) + Span(LegacySettings[i]))
    {
      var image := bytes[..];
      seq(|LegacySettings|, i requires 0 <= i < |LegacySettings| =>
        var s := LegacySettings[i];
        (s, Slice(image, Address(s), Address(s) + Span(s))))
    }
  }

  /** Names and labels run header, enabled, strength, path. */
  lemma LegacyOrder()
    ensures |LegacySettings| == 4
    ensures LegacySettings[0].name == "header"
    ensures LegacySettings[1].name == "advanced." + "effects." + "mask." + "enabled"
    ensures LegacySettings[2].name == "advanced." + "effects." + "mask." + "strength"
    ensures LegacySettings[3].name == "advanced." + "effects." + "mask." + "path"
  {
  }

  /**
   * The four descriptors are the first four of the 1.4.2 schema by name and by byte range;
   * only the type of `enabled` differs (INT here, BIT there) and the descriptions of the header.
   */
  lemma AgreesWithSchema()
    ensures forall i :: 0 <= i < 4 ==>
      LegacySettings[i].name == Schema.Settings142[i].name &&
      LegacySettings[i].byteRanges == Schema.Settings142[i].byteRanges
    ensures forall i :: 0 <= i < 4 && i != 1 ==> LegacySettings[i].dtype == Schema.Settings142[i].dtype
    ensures LegacyMaskEnabled.dtype == INT && Schema.Settings142[1].dtype == BIT
  {
  }

  lemma SingleSlice(s: Setting, image: seq<Byte>)
    requires |s.byteRanges| == 1
    ensures RetroTinkProfile.SliceBytes(s, image) == Slice(image, Address(s), Address(s) + Span(s))
  {
    assert s.byteRanges[1..] == [];
  }

  /** Both readers cut the same bytes out of an image for the four shared settings. */
  lemma SameBytesAsSchemaReader(p: Profile)
    ensures forall i :: 0 <= i < 4 ==>
      p.GetValues()[i].1 == RetroTinkProfile.SliceBytes(Schema.Settings142[i], p.bytes[..])
  {
    AgreesWithSchema();
    forall i | 0 <= i < 4
      ensures p.GetValues()[i].1 == RetroTinkProfile.SliceBytes(Schema.Settings142[i], p.bytes[..])
    {
      SingleSlice(Schema.Settings142[i], p.bytes[..]);
    }
  }

  /** On an image that holds all four ranges, each value has its descriptor's length. */
  lemma ValueLengths(p: Profile)
    requires p.bytes.Length >= 0x0090 + 256 && p.bytes.Length >= 0x02a0 + 1
    ensures forall i :: 0 <= i < |LegacySettings| ==> |p.GetValues()[i].1| == Span(LegacySettings[i])
  {
  }
}

/**
 * The '1.4.2' settings table (src/settings/Schema.ts): literal descriptor data, the
 * fixed bytes of the read-only `header` and the derivation table of `input.audio`.
 */
module Schema {
  import opened DataTypes
  import opened Exceptions
  import opened RetroTinkSetting
  import JsText

  /** The bytes of "RT4K Profile" that the read-only `header` setting derives. */
  const HeaderBytes: seq<Byte> := [82, 84, 52, 75, 32, 80, 114, 111, 102, 105, 108, 101]

  const HeaderText: string := "RT4K Profile"

  const InputOverrideName: string := "advanced." + "acquisition." + "audio_input." + "source." + "input_override"

  const InputAudioName: string := "input." + "audio"

  const InputName: string := "input"

  /** The `desc` text of each setting. */
  const HeaderDesc: string := "File Header (Read-Only)"
  const MaskEnabledDesc: string := "Advanced -> Processing -> Mask -> Enabled"
  const MaskStrengthDesc: string := "Advanced -> Processing -> Mask -> Strength"
  const MaskPathDesc: string := "Advanced -> Processing -> Mask -> Path"
  const SampleRateDesc: string := "Advanced -> Acquisition -> Audio Input -> Sampling -> Sample Rate"
  const InputAudioDesc: string := "Audio Input (Read-Only)"
  const InputOverrideDesc: string := "Advanced -> Acquisition -> Audio Input -> Source -> Input Override"
  const LoadBannerDesc: string := "Advanced -> System -> OSD/Firmware -> On Screen Display -> Load Banner"
  const OsdPositionDesc: string := "Advanced -> System -> OSD/Firmware -> On Screen Display -> Position"
  const OsdAutoOffDesc: string := "Advanced -> System -> OSD/Firmware -> On Screen Display -> Auto-Off"
  const HideInputResDesc: string := "Advanced -> System -> OSD/Firmware -> On Screen Display -> Hide Input Res."
  const EnableDebugOsdDesc: string := "Advanced -> System -> OSD/Firmware -> On Screen Display -> Enable Debug OSD"
  const InputDesc: string := "Input"
  const OutputResolutionDesc: string := "HDMI Output -> Resolution"
  const HdrDesc: string := "HDMI Output -> Transmitter -> HDR"
  const ColorimetryDesc: string := "HDMI Output -> Transmitter -> Colorimetry"
  const RgbRangeDesc: string := "HDMI Output -> Transmitter -> RGB Range"
  const SyncLockDesc: string := "HDMI Output -> Transmitter -> Sync Lock"
  const VrrDesc: string := "HDMI Output -> Transmitter -> VRR"
  const DeepColorDesc: string := "HDMI Output -> Transmitter -> Deep Color"

  /**
   * The settings of version 1.4.2, in declaration order. A dotted name is spelt key by
   * key (`"output." + "resolution"` is "output.resolution"), so its characters can be
   * read off one key at a time.
   */
  const Settings142: seq<Setting> := [
    Header, MaskEnabled, MaskStrength, MaskPath, SampleRate,
    InputAudio, InputOverride, LoadBanner, OsdPosition, OsdAutoOff,
    HideInputRes, EnableDebugOsd, Input, OutputResolution, Hdr,
    Colorimetry, RgbRange, SyncLock, Vrr, DeepColor
  ]

  const Header: Setting :=
    Setting("header", HeaderDesc, [ByteRange(0x0000, 12)], STR, [],
      ReadOnly([], FixedBytes(HeaderBytes)))

  const MaskEnabled: Setting :=
    Setting("advanced." + "effects." + "mask." + "enabled", MaskEnabledDesc,
      [ByteRange(0x008c, 1)], BIT, [], Stored)

  const MaskStrength: Setting :=
    Setting("advanced." + "effects." + "mask." + "strength", MaskStrengthDesc,
      [ByteRange(0x02a0, 1)], SIGNED_INT, [], Stored)

  const MaskPath: Setting :=
    Setting("advanced." + "effects." + "mask." + "path", MaskPathDesc,
      [ByteRange(0x0090, 256)], STR, [], Stored)

  const SampleRate: Setting :=
    Setting("advanced." + "acquisition." + "audio_input." + "sampling." + "sample_rate",
      SampleRateDesc,
      [ByteRange(0x1624, 1)], ENUM,
      [EnumChoice("48 kHz", [0]), EnumChoice("96 kHz", [1])], Stored)

  const InputAudio: Setting :=
    Setting(InputAudioName, InputAudioDesc, [ByteRange(0x0368, 1)], INT, [],
      ReadOnly([InputOverrideName, InputName], AudioInputTable))

  const InputOverride: Setting :=
    Setting(InputOverrideName, InputOverrideDesc,
      [ByteRange(0x1618, 1)], ENUM, OverrideChoices, Stored)

  const LoadBanner: Setting :=
    Setting("advanced." + "system." + "osd_firmware." + "banner_image." + "load_banner",
      LoadBannerDesc,
      [ByteRange(0x1644, 256)], STR, [], Stored)

  const OsdPosition: Setting :=
    Setting("advanced." + "system." + "osd_firmware." + "on_screen_display." + "position",
      OsdPositionDesc,
      [ByteRange(0x184c, 1)], ENUM,
      [EnumChoice("Left", [0]), EnumChoice("Center", [1]), EnumChoice("Right", [2])], Stored)

  const OsdAutoOff: Setting :=
    Setting("advanced." + "system." + "osd_firmware." + "on_screen_display." + "auto_off",
      OsdAutoOffDesc,
      [ByteRange(0x1848, 1)], ENUM,
      [EnumChoice("Off", [0]), EnumChoice("10sec", [1]), EnumChoice("20sec", [2]),
       EnumChoice("30sec", [3]), EnumChoice("40sec", [4]), EnumChoice("50sec", [5]),
       EnumChoice("60sec", [6]), EnumChoice("70sec", [7]), EnumChoice("80sec", [8]),
       EnumChoice("90sec", [9]), EnumChoice("100sec", [10])], Stored)

  const HideInputRes: Setting :=
    Setting("advanced." + "system." + "osd_firmware." + "on_screen_display." + "hide_input_res",
      HideInputResDesc,
      [ByteRange(0x1ef8, 1)], BIT, [], Stored)

  const EnableDebugOsd: Setting :=
    Setting("advanced." + "system." + "osd_firmware." + "on_screen_display." + "enable_debug_osd",
      EnableDebugOsdDesc,
      [ByteRange(0x1854, 1)], ENUM,
      [EnumChoice("Off", [0]), EnumChoice("Status Pg 1", [1]), EnumChoice("Status Pg 2", [2]),
       EnumChoice("Status Pg 3", [3]), EnumChoice("Console", [4])], Stored)

  const Input: Setting :=
    Setting(InputName, InputDesc, [ByteRange(0x5869, 1)], ENUM, InputChoices, Stored)

  const OutputResolution: Setting :=
    Setting("output." + "resolution", OutputResolutionDesc, [ByteRange(0x36c, 1)], ENUM,
      [EnumChoice("4K60", [0]), EnumChoice("4K50", [1]), EnumChoice("1080p60", [2]),
       EnumChoice("1080p50", [3]), EnumChoice("1440p60", [4]), EnumChoice("1440p50", [5]),
       EnumChoice("1080p100", [6]), EnumChoice("1440p100", [7]), EnumChoice("1080p120", [8]),
       EnumChoice("1440p120", [9]), EnumChoice("480p60", [13]), EnumChoice("Custom 1", [69]),
       EnumChoice("Custom 2", [70]), EnumChoice("Custom 3", [71]), EnumChoice("Custom 4", [72])],
      Stored)

  const Hdr: Setting :=
    Setting("output." + "transmitter." + "hdr", HdrDesc, [ByteRange(0x2d0, 1)], ENUM,
      [EnumChoice("Off", [0]), EnumChoice("HDR10 [8-bit]", [1]), EnumChoice("HLG [8-bit]", [2])],
      Stored)

  const Colorimetry: Setting :=
    Setting("output." + "transmitter." + "colorimetry", ColorimetryDesc,
      [ByteRange(0x1ec8, 1)], ENUM,
      [EnumChoice("Auto-Rec.709", [0]), EnumChoice("Rec.709", [1]), EnumChoice("Rec.2020", [2]),
       EnumChoice("Adobe RGB", [3]), EnumChoice("Display-P3", [4])], Stored)

  const RgbRange: Setting :=
    Setting("output." + "transmitter." + "rgb_range", RgbRangeDesc,
      [ByteRange(0x1f08, 1)], ENUM, [EnumChoice("Full", [0]), EnumChoice("Limited", [1])], Stored)

  const SyncLock: Setting :=
    Setting("output." + "transmitter." + "sync_lock", SyncLockDesc,
      [ByteRange(0x2d8, 1)], ENUM,
      [EnumChoice("Triple Buffer", [0]), EnumChoice("Gen Lock", [1]), EnumChoice("Frame Lock", [2])],
      Stored)

  const Vrr: Setting :=
    Setting("output." + "transmitter." + "vrr", VrrDesc, [ByteRange(0x2dc, 1)], ENUM,
      [EnumChoice("Off", [0]), EnumChoice("FreeSync", [1]), EnumChoice("VESA", [2])], Stored)

  const DeepColor: Setting :=
    Setting("output." + "transmitter." + "deep_color", DeepColorDesc,
      [ByteRange(0x2d4, 1)], BIT, [], Stored)

  /** The choices of the audio input override: Off, then the audio connectors. */
  const OverrideChoices: seq<EnumChoice> := [
    EnumChoice("Off", [0]), EnumChoice("RCA", [1]), EnumChoice("HD-15", [2]),
    EnumChoice("SCART", [3]), EnumChoice("Front", [4]), EnumChoice("S/PDIF", [5])
  ]

  /** The choices of the video input, named "connector|signal" (HDMI alone). */
  const InputChoices: seq<EnumChoice> := [
    EnumChoice("HDMI", [0]),
    EnumChoice("Front|Composite", [3]), EnumChoice("Front|S-Video", [4]),
    EnumChoice("RCA|YPbPr", [7]), EnumChoice("RCA|RGsB", [8]), EnumChoice("RCA|CVBS on Green", [9]),
    EnumChoice("SCART|RGBS (75 Ohm)", [12]), EnumChoice("SCART|RGsB", [13]),
    EnumChoice("SCART|YPbPr", [14]), EnumChoice("SCART|CVBS on Pin 20", [15]),
    EnumChoice("SCART|CVBS on Green", [16]), EnumChoice("SCART|Y/C on Pin 20/Red", [17]),
    EnumChoice("HD-15|RGBHV", [20]), EnumChoice("HD-15|RGBS", [21]), EnumChoice("HD-15|RGsB", [22]),
    EnumChoice("HD-15|YPbPr", [23]), EnumChoice("HD-15|CVBS on Hsync", [24]),
    EnumChoice("HD-15|CVBS on Green", [25]), EnumChoice("HD-15|Y/C on Green/Red", [26]),
    EnumChoice("HD-15|Y/C on G/R (Enh.)", [27])
  ]

  function SettingName(s: Setting): string {
    s.name
  }

  /** `RetroTinkSettingsVersion['1.4.2']`: the table keyed by setting name. */
  const Table142: Table<Setting> := FromList(Settings142, SettingName)

  /**
   * The `deriveValue` of `input.audio`, given `asInt` of the input override and of the
   * input. A nonzero override selects audio code override - 1 (stored as a byte); with
   * the override off the audio code follows the input's connector, and an input code
   * outside the switch yields no value.
   */
  function AudioInput(overrideVal: int, sourceVal: int): (r: Option<seq<Byte>>)
    ensures overrideVal != 0 ==> r == Some([(overrideVal - 1) % 256])
    ensures r.Some? ==> |r.value| == 1
  {
    if overrideVal == 0 then
      if sourceVal == 0 then Some([5])
      else if sourceVal == 3 || sourceVal == 4 then Some([3])
      else if 7 <= sourceVal <= 9 then Some([0])
      else if 12 <= sourceVal <= 17 then Some([2])
      else if 20 <= sourceVal <= 27 then Some([1])
      else None
    else Some([(overrideVal - 1) % 256])
  }

  // ---------------------------------------------------------------------------
  // Facts about the literal data.
  // ---------------------------------------------------------------------------

  lemma Below20(i: int)
    requires 0 <= i < 20
    ensures i == 0 || i == 1 || i == 2 || i == 3 || i == 4 || i == 5 || i == 6 || i == 7 || i == 8
         || i == 9 || i == 10 || i == 11 || i == 12 || i == 13 || i == 14 || i == 15 || i == 16
         || i == 17 || i == 18 || i == 19
  {
  }

  /** Every setting name occurs once. */
  lemma NamesUnique()
    ensures |Settings142| == 20
    ensures forall i, j :: 0 <= i < j < |Settings142| ==> Settings142[i].name != Settings142[j].name
  {
    forall i, j | 0 <= i < j < |Settings142| ensures Settings142[i].name != Settings142[j].name {
      NamesApartAt(i, j);
    }
  }

  /** `b` is a dotted name below `a`: `a`, a dot, then more. */
  predicate NestsUnder(a: string, b: string) {
    |a| < |b| && b[|a|] == '.' && b[..|a|] == a
  }

  /** No name is below an earlier one; `input` is above `input.audio`, but comes after it. */
  lemma NamesNest()
    ensures forall j, k :: 0 <= j < k < |Settings142| ==>
      !NestsUnder(Settings142[j].name, Settings142[k].name)
  {
    forall j, k | 0 <= j < k < |Settings142|
      ensures !NestsUnder(Settings142[j].name, Settings142[k].name)
    {
      NamesApartAt(j, k);
    }
  }

  /** Two names, the first declared earlier: they differ, and the second is not below the first. */
  predicate NamesApart(j: nat, k: nat)
    requires j < k < |Settings142|
  {
    Settings142[j].name != Settings142[k].name && !NestsUnder(Settings142[j].name, Settings142[k].name)
  }

  /** The pairs are checked a band of later names at a time. */
  lemma NamesApartAt(j: nat, k: nat)
    requires j < k < |Settings142|
    ensures NamesApart(j, k)
  {
    if k < 6 {
      NamesApartBelow6(j, k);
    } else if k < 9 {
      NamesApartBelow9(j, k);
    } else if k < 11 {
      NamesApartBelow11(j, k);
    } else if k < 13 {
      NamesApartBelow13(j, k);
    } else if k < 15 {
      NamesApartBelow15(j, k);
    } else if k < 17 {
      NamesApartBelow17(j, k);
    } else if k < 19 {
      NamesApartBelow19(j, k);
    } else {
      NamesApartBelow20(j, k);
    }
  }

  /** Names differ when their lengths, last characters or third-last characters do. */
  lemma Differ(a: string, b: string)
    requires |a| >= 3 && |b| >= 3
    requires |a| != |b| || a[|a| - 1] != b[|b| - 1] || a[|a| - 3] != b[|b| - 3]
    ensures a != b
  {
  }

  /** A name is not below another when no dot follows it there, or their first characters differ. */
  lemma NotBelow(a: string, b: string)
    requires |b| <= |a| || b[|a|] != '.' || (|a| > 0 && b[0] != a[0])
    ensures !NestsUnder(a, b)
  {
  }

  lemma NamesApartBelow6(j: nat, k: nat)
    requires j < k < 6
    ensures NamesApart(j, k)
  {
    Below20(j);
    Below20(k);
    Differ(Settings142[j].name, Settings142[k].name);
    NotBelow(Settings142[j].name, Settings142[k].name);
  }

  lemma NamesApartBelow9(j: nat, k: nat)
    requires j < k && 6 <= k < 9
    ensures NamesApart(j, k)
  {
    Below20(j);
    Below20(k);
    Differ(Settings142[j].name, Settings142[k].name);
    NotBelow(Settings142[j].name, Settings142[k].name);
  }

  lemma NamesApartBelow11(j: nat, k: nat)
    requires j < k && 9 <= k < 11
    ensures NamesApart(j, k)
  {
    Below20(j);
    Below20(k);
    Differ(Settings142[j].name, Settings142[k].name);
    NotBelow(Settings142[j].name, Settings142[k].name);
  }

  lemma NamesApartBelow13(j: nat, k: nat)
    requires j < k && 11 <= k < 13
    ensures NamesApart(j, k)
  {
    Below20(j);
    Below20(k);
    Differ(Settings142[j].name, Settings142[k].name);
    NotBelow(Settings142[j].name, Settings142[k].name);
  }

  lemma NamesApartBelow15(j: nat, k: nat)
    requires j < k && 13 <= k < 15
    ensures NamesApart(j, k)
  {
    Below20(j);
    Below20(k);
    Differ(Settings142[j].name, Settings142[k].name);
    NotBelow(Settings142[j].name, Settings142[k].name);
  }

  lemma NamesApartBelow17(j: nat, k: nat)
    requires j < k && 15 <= k < 17
    ensures NamesApart(j, k)
  {
    Below20(j);
    Below20(k);
    Differ(Settings142[j].name, Settings142[k].name);
    NotBelow(Settings142[j].name, Settings142[k].name);
  }

  lemma NamesApartBelow19(j: nat, k: nat)
    requires j < k && 17 <= k < 19
    ensures NamesApart(j, k)
  {
    Below20(j);
    Below20(k);
    Differ(Settings142[j].name, Settings142[k].name);
    NotBelow(Settings142[j].name, Settings142[k].name);
  }

  lemma NamesApartBelow20(j: nat, k: nat)
    requires j < k && 19 <= k < 20
    ensures NamesApart(j, k)
  {
    Below20(j);
    Below20(k);
    Differ(Settings142[j].name, Settings142[k].name);
    NotBelow(Settings142[j].name, Settings142[k].name);
  }

  /** Looking a declared setting up by its name yields that setting. */
  lemma LookupDeclared(i: nat)
    requires i < |Settings142|
    ensures Get(Table142, Settings142[i].name) == Ok(Settings142[i])
  {
    NamesUnique();
    GetFromList(Settings142, SettingName, Settings142[i].name);
  }

  /** Exactly the declared names are found; any other name is SettingNotSupportedError. */
  lemma LookupUndeclared(name: string)
    requires forall i :: 0 <= i < |Settings142| ==> Settings142[i].name != name
    ensures Get(Table142, name) == Err(SettingNotSupported(name))
  {
    GetFromList(Settings142, SettingName, name);
  }

  predicate SettingsDisjoint(x: Setting, y: Setting) {
    forall p, q :: 0 <= p < |x.byteRanges| && 0 <= q < |y.byteRanges| ==>
      Disjoint(x.byteRanges[p], y.byteRanges[q])
  }

  /** The two CRC bytes at indices 32 and 33. */
  predicate AvoidsCrc(s: Setting) {
    forall p :: 0 <= p < |s.byteRanges| ==> Disjoint(s.byteRanges[p], ByteRange(32, 2))
  }

  /**
   * Each setting has one byte range; no two settings share a byte, and no setting
   * touches the CRC bytes.
   */
  lemma RangesDisjoint()
    ensures forall i :: 0 <= i < |Settings142| ==> |Settings142[i].byteRanges| == 1
    ensures forall i, j :: 0 <= i < j < |Settings142| ==> SettingsDisjoint(Settings142[i], Settings142[j])
    ensures forall i :: 0 <= i < |Settings142| ==> AvoidsCrc(Settings142[i])
  {
    LayoutOfSettings();
    LayoutDisjoint();
    LayoutAvoidsCrc();
    forall i, j | 0 <= i < j < |Settings142| ensures SettingsDisjoint(Settings142[i], Settings142[j]) {
      SingleRangesDisjoint(Settings142[i], Settings142[j], Layout142[i], Layout142[j]);
    }
  }

  /** Two settings of one range each are disjoint when the ranges are. */
  lemma SingleRangesDisjoint(x: Setting, y: Setting, a: ByteRange, b: ByteRange)
    requires x.byteRanges == [a] && y.byteRanges == [b] && Disjoint(a, b)
    ensures SettingsDisjoint(x, y)
  {
  }

  lemma LayoutAvoidsCrc()
    ensures forall i :: 0 <= i < |Layout142| ==> Disjoint(Layout142[i], ByteRange(32, 2))
  {
    forall i | 0 <= i < |Layout142| ensures Disjoint(Layout142[i], ByteRange(32, 2)) {
      Below20(i);
    }
  }

  lemma LayoutDisjoint()
    ensures forall i, j :: 0 <= i < j < |Layout142| ==> Disjoint(Layout142[i], Layout142[j])
  {
    forall i, j | 0 <= i < j < |Layout142| ensures Disjoint(Layout142[i], Layout142[j]) {
      Below20(i);
      Below20(j);
    }
  }

  /** The byte range of each setting, in declaration order. */
  const Layout142: seq<ByteRange> := [
    ByteRange(0x0000, 12), ByteRange(0x008c, 1), ByteRange(0x02a0, 1), ByteRange(0x0090, 256),
    ByteRange(0x1624, 1), ByteRange(0x0368, 1), ByteRange(0x1618, 1), ByteRange(0x1644, 256),
    ByteRange(0x184c, 1), ByteRange(0x1848, 1), ByteRange(0x1ef8, 1), ByteRange(0x1854, 1),
    ByteRange(0x5869, 1), ByteRange(0x036c, 1), ByteRange(0x02d0, 1), ByteRange(0x1ec8, 1),
    ByteRange(0x1f08, 1), ByteRange(0x02d8, 1), ByteRange(0x02dc, 1), ByteRange(0x02d4, 1)
  ]

  lemma LayoutOfSettings()
    ensures |Settings142| == |Layout142|
    ensures forall i :: 0 <= i < |Settings142| ==> Settings142[i].byteRanges == [Layout142[i]]
  {
    forall i | 0 <= i < |Settings142| ensures Settings142[i].byteRanges == [Layout142[i]] {
      Below20(i);
    }
  }

  /** One-byte choice patterns in strictly increasing order. */
  predicate Ascending(es: seq<EnumChoice>) {
    (forall a :: 0 <= a < |es| ==> |es[a].value| == 1)
    && forall a :: 0 <= a < |es| - 1 ==> es[a].value[0] < es[a + 1].value[0]
  }

  predicate WellFormedEnums(s: Setting) {
    (forall a :: 0 <= a < |s.enums| ==> |s.enums[a].value| == Length(s))
    && forall a, b :: 0 <= a < b < |s.enums| ==> s.enums[a].value != s.enums[b].value
  }

  lemma {:induction false} AscendingDistinct(es: seq<EnumChoice>)
    requires Ascending(es)
    ensures forall a, b :: 0 <= a < b < |es| ==> es[a].value[0] < es[b].value[0]
  {
    if |es| > 1 {
      var tail := es[1..];
      AscendingDistinct(tail);
      forall a, b | 0 <= a < b < |es| ensures es[a].value[0] < es[b].value[0] {
        if a > 0 {
          assert es[a] == tail[a - 1] && es[b] == tail[b - 1];
        } else if b > 1 {
          assert es[1] == tail[0] && es[b] == tail[b - 1];
        }
      }
    }
  }

  /** Choice patterns are pairwise distinct and as long as their setting. */
  lemma EnumsWellFormed()
    ensures forall i :: 0 <= i < |Settings142| ==> WellFormedEnums(Settings142[i])
  {
    forall i | 0 <= i < |Settings142| ensures WellFormedEnums(Settings142[i]) {
      EnumsWellFormedAt(i);
    }
  }

  lemma EnumsWellFormedAt(i: nat)
    requires i < |Settings142|
    ensures WellFormedEnums(Settings142[i])
  {
    ChoicesAscend();
    ChoiceSettingsOneByte();
    if Settings142[i].enums != [] {
      OneByteAscending(Settings142[i]);
    }
  }

  /** Every choice list of the schema has one-byte patterns in increasing order. */
  lemma ChoicesAscend()
    ensures forall i :: 0 <= i < |Settings142| ==> Ascending(Settings142[i].enums)
  {
    SampleRateAscend();
    OverrideChoicesAscend();
    OsdPositionAscend();
    OsdAutoOffAscend();
    EnableDebugOsdAscend();
    InputChoicesAscend();
    OutputResolutionAscend();
    HdrAscend();
    ColorimetryAscend();
    RgbRangeAscend();
    SyncLockAscend();
    VrrAscend();
    forall i | 0 <= i < |Settings142| ensures Ascending(Settings142[i].enums) {
      Below20(i);
    }
  }

  /** The settings that have choices are one byte wide. */
  lemma ChoiceSettingsOneByte()
    ensures forall i :: 0 <= i < |Settings142| && Settings142[i].enums != [] ==>
      |Settings142[i].byteRanges| == 1 && Settings142[i].byteRanges[0].length == 1
  {
    forall i | 0 <= i < |Settings142| && Settings142[i].enums != []
      ensures |Settings142[i].byteRanges| == 1 && Settings142[i].byteRanges[0].length == 1
    {
      Below20(i);
    }
  }

  lemma SampleRateAscend()
    ensures Ascending(SampleRate.enums)
  {
    var es := SampleRate.enums;
    forall a | 0 <= a < |es| ensures |es[a].value| == 1 {
      Below20(a);
    }
    forall a | 0 <= a < |es| - 1 ensures es[a].value[0] < es[a + 1].value[0] {
      Below20(a);
    }
  }

  lemma OverrideChoicesAscend()
    ensures Ascending(OverrideChoices)
  {
    var es := OverrideChoices;
    forall a | 0 <= a < |es| ensures |es[a].value| == 1 {
      Below20(a);
    }
    forall a | 0 <= a < |es| - 1 ensures es[a].value[0] < es[a + 1].value[0] {
      Below20(a);
    }
  }

  lemma OsdPositionAscend()
    ensures Ascending(OsdPosition.enums)
  {
    var es := OsdPosition.enums;
    forall a | 0 <= a < |es| ensures |es[a].value| == 1 {
      Below20(a);
    }
    forall a | 0 <= a < |es| - 1 ensures es[a].value[0] < es[a + 1].value[0] {
      Below20(a);
    }
  }

  lemma OsdAutoOffAscend()
    ensures Ascending(OsdAutoOff.enums)
  {
    var es := OsdAutoOff.enums;
    forall a | 0 <= a < |es| ensures |es[a].value| == 1 {
      Below20(a);
    }
    forall a | 0 <= a < |es| - 1 ensures es[a].value[0] < es[a + 1].value[0] {
      Below20(a);
    }
  }

  lemma EnableDebugOsdAscend()
    ensures Ascending(EnableDebugOsd.enums)
  {
    var es := EnableDebugOsd.enums;
    forall a | 0 <= a < |es| ensures |es[a].value| == 1 {
      Below20(a);
    }
    forall a | 0 <= a < |es| - 1 ensures es[a].value[0] < es[a + 1].value[0] {
      Below20(a);
    }
  }

  lemma InputChoicesAscend()
    ensures Ascending(InputChoices)
  {
    var es := InputChoices;
    forall a | 0 <= a < |es| ensures |es[a].value| == 1 {
      Below20(a);
    }
    forall a | 0 <= a < |es| - 1 ensures es[a].value[0] < es[a + 1].value[0] {
      Below20(a);
    }
  }

  lemma OutputResolutionAscend()
    ensures Ascending(OutputResolution.enums)
  {
    var es := OutputResolution.enums;
    forall a | 0 <= a < |es| ensures |es[a].value| == 1 {
      Below20(a);
    }
    forall a | 0 <= a < |es| - 1 ensures es[a].value[0] < es[a + 1].value[0] {
      Below20(a);
    }
  }

  lemma HdrAscend()
    ensures Ascending(Hdr.enums)
  {
    var es := Hdr.enums;
    forall a | 0 <= a < |es| ensures |es[a].value| == 1 {
      Below20(a);
    }
    forall a | 0 <= a < |es| - 1 ensures es[a].value[0] < es[a + 1].value[0] {
      Below20(a);
    }
  }

  lemma ColorimetryAscend()
    ensures Ascending(Colorimetry.enums)
  {
    var es := Colorimetry.enums;
    forall a | 0 <= a < |es| ensures |es[a].value| == 1 {
      Below20(a);
    }
    forall a | 0 <= a < |es| - 1 ensures es[a].value[0] < es[a + 1].value[0] {
      Below20(a);
    }
  }

  lemma RgbRangeAscend()
    ensures Ascending(RgbRange.enums)
  {
    var es := RgbRange.enums;
    forall a | 0 <= a < |es| ensures |es[a].value| == 1 {
      Below20(a);
    }
    forall a | 0 <= a < |es| - 1 ensures es[a].value[0] < es[a + 1].value[0] {
      Below20(a);
    }
  }

  lemma SyncLockAscend()
    ensures Ascending(SyncLock.enums)
  {
    var es := SyncLock.enums;
    forall a | 0 <= a < |es| ensures |es[a].value| == 1 {
      Below20(a);
    }
    forall a | 0 <= a < |es| - 1 ensures es[a].value[0] < es[a + 1].value[0] {
      Below20(a);
    }
  }

  lemma VrrAscend()
    ensures Ascending(Vrr.enums)
  {
    var es := Vrr.enums;
    forall a | 0 <= a < |es| ensures |es[a].value| == 1 {
      Below20(a);
    }
    forall a | 0 <= a < |es| - 1 ensures es[a].value[0] < es[a + 1].value[0] {
      Below20(a);
    }
  }

  /** A one-byte setting whose choices ascend has well-formed choices. */
  lemma OneByteAscending(s: Setting)
    requires |s.byteRanges| == 1 && s.byteRanges[0].length == 1
    requires Ascending(s.enums)
    ensures WellFormedEnums(s)
  {
    SingleRangeLength(s);
    AscendingDistinct(s.enums);
  }

  /** The header derives the twelve bytes of "RT4K Profile", in bytes 0..11 of the image. */
  lemma HeaderDerivesSignature()
    ensures Settings142[0].name == "header" && Settings142[0].byteRanges == [ByteRange(0, 12)]
    ensures Settings142[0].derivation == ReadOnly([], FixedBytes(HeaderBytes))
    ensures |HeaderBytes| == Length(Settings142[0])
    ensures DecodeString(HeaderBytes) == HeaderText
  {
    var d := DecodeString(HeaderBytes);
    assert |d| == 12;
    forall k | 0 <= k < 12 ensures d[k] == HeaderText[k] {
      assert d[k] as int == HeaderBytes[k];
    }
  }

  /**
   * `input.audio` is read-only, derived from the input override and the input in the
   * order `deriveValue` takes them, and it is declared before `input`.
   */
  lemma InputAudioDerivation()
    ensures Settings142[5].name == InputAudioName
    ensures Settings142[5].derivation == ReadOnly([InputOverrideName, InputName], AudioInputTable)
    ensures Settings142[6].name == InputOverrideName && Settings142[6].enums == OverrideChoices
    ensures Settings142[12].name == InputName && Settings142[12].enums == InputChoices
  {
  }

  /** With the override off, the table is defined exactly on the codes of the input choices. */
  lemma AudioInputDefinedOnInputs(sourceVal: int)
    ensures AudioInput(0, sourceVal).Some? <==>
              exists k :: 0 <= k < |InputChoices| && InputChoices[k].value == [sourceVal]
  {
    if AudioInput(0, sourceVal).Some? {
      var k := if sourceVal == 0 then 0
        else if sourceVal <= 4 then sourceVal - 2
        else if sourceVal <= 9 then sourceVal - 4
        else if sourceVal <= 17 then sourceVal - 6
        else sourceVal - 8;
      assert InputChoices[k].value == [sourceVal];
    }
    if exists k :: 0 <= k < |InputChoices| && InputChoices[k].value == [sourceVal] {
      var k :| 0 <= k < |InputChoices| && InputChoices[k].value == [sourceVal];
      Below20(k);
    }
  }

  /** The audio code each input connector selects when the override is off. */
  lemma AudioInputTableValues(sourceVal: int)
    ensures sourceVal == 0 ==> AudioInput(0, sourceVal) == Some([5])
    ensures sourceVal in {3, 4} ==> AudioInput(0, sourceVal) == Some([3])
    ensures sourceVal in {7, 8, 9} ==> AudioInput(0, sourceVal) == Some([0])
    ensures 12 <= sourceVal <= 17 ==> AudioInput(0, sourceVal) == Some([2])
    ensures 20 <= sourceVal <= 27 ==> AudioInput(0, sourceVal) == Some([1])
  {
  }

  /** The override choice of an input choice's connector: Front, RCA, SCART or HD-15. */
  function Connector(k: nat): nat {
    if k <= 2 then 4 else if k <= 5 then 1 else if k <= 11 then 3 else 2
  }

  lemma ConnectorPrefix(k: nat)
    requires 1 <= k < |InputChoices|
    ensures JsText.StartsWith(InputChoices[k].name, OverrideChoices[Connector(k)].name + "|")
  {
    Below20(k);
    if k == 1 {
      assert InputChoices[1].name[..6] == "Front|";
    } else if k == 2 {
      assert InputChoices[2].name[..6] == "Front|";
    } else if k == 3 {
      assert InputChoices[3].name[..4] == "RCA|";
    } else if k == 4 {
      assert InputChoices[4].name[..4] == "RCA|";
    } else if k == 5 {
      assert InputChoices[5].name[..4] == "RCA|";
    } else if k == 6 {
      assert InputChoices[6].name[..6] == "SCART|";
    } else if k == 7 {
      assert InputChoices[7].name[..6] == "SCART|";
    } else if k == 8 {
      assert InputChoices[8].name[..6] == "SCART|";
    } else if k == 9 {
      assert InputChoices[9].name[..6] == "SCART|";
    } else if k == 10 {
      assert InputChoices[10].name[..6] == "SCART|";
    } else if k == 11 {
      assert InputChoices[11].name[..6] == "SCART|";
    } else if k == 12 {
      assert InputChoices[12].name[..6] == "HD-15|";
    } else if k == 13 {
      assert InputChoices[13].name[..6] == "HD-15|";
    } else if k == 14 {
      assert InputChoices[14].name[..6] == "HD-15|";
    } else if k == 15 {
      assert InputChoices[15].name[..6] == "HD-15|";
    } else if k == 16 {
      assert InputChoices[16].name[..6] == "HD-15|";
    } else if k == 17 {
      assert InputChoices[17].name[..6] == "HD-15|";
    } else if k == 18 {
      assert InputChoices[18].name[..6] == "HD-15|";
    } else if k == 19 {
      assert InputChoices[19].name[..6] == "HD-15|";
    }
  }

  /**
   * Automatic selection agrees with the override table: with the override off, an input
   * on connector C (its choice name starts with "C|") gets the audio code that
   * overriding to C gives; HDMI inputs get 5.
   */
  lemma AudioFollowsConnector(k: nat, anySource: int)
    requires k < |InputChoices|
    ensures var v := InputChoices[k].value[0];
      k == 0 ==> InputChoices[k].name == "HDMI" && AudioInput(0, v) == Some([5])
    ensures var v := InputChoices[k].value[0];
      k > 0 ==> exists m :: 1 <= m < |OverrideChoices|
                  && JsText.StartsWith(InputChoices[k].name, OverrideChoices[m].name + "|")
                  && AudioInput(0, v) == AudioInput(OverrideChoices[m].value[0], anySource)
  {
    Below20(k);
    var v := InputChoices[k].value[0];
    if k > 0 {
      var m := Connector(k);
      ConnectorPrefix(k);
      assert AudioInput(0, v) == AudioInput(OverrideChoices[m].value[0], anySource);
    }
  }

  /** Overriding to RCA, HD-15, SCART, Front or S/PDIF selects audio codes 0 to 4. */
  lemma OverrideChoicesAudio(m: nat, sourceVal: int)
    requires 1 <= m < |OverrideChoices|
    ensures AudioInput(OverrideChoices[m].value[0], sourceVal) == Some([m - 1])
  {
  }
}

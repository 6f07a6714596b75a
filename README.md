# rt4k-profile in Dafny

rt4k-profile reads and writes RetroTINK-4K profile files (`.rt4`). A profile is a flat
byte image. The 1.4.2 settings schema names each setting and says which byte ranges of
the image hold it and how those bytes are read: as a string, a one-byte unsigned or
signed integer, a bit or an enumeration.

This project models the core of the library and proves properties of the model:

- the setting descriptor, its value codec and the name-keyed settings table
  (`RetroTinkSetting.dfy`);
- the literal 1.4.2 schema, including the fixed header bytes and the derived `input.audio`
  table (`Schema.dfy`);
- the profile document, a class owning the image (`RetroTinkProfile.dfy`). It slices
  settings out, splices them back in range by range, filters reads by scope, merges
  sources in order, wraps deserialization errors, and lays out and formats the CRC;
- the tree helpers `deepMerge` and `addValueToObject` (`ObjectUtils.dfy`), and
  `serializeSettings`, which builds a nested tree from dotted names
  (`SerializationUtils.dfy`);
- the older fixed-list profile reader (`Profile.dfy`).

Support modules:

- `DataTypes.dfy`: bytes, data types and JavaScript primitives.
- `Exceptions.dfy`: the error kinds as one datatype, plus `Result`/`Option`/`Outcome`.
- `Bytes.dfy`: the array primitives `slice`, `splice` and `new Uint8Array`.
- `JsText.dfy`: the JavaScript string built-ins the core calls. These are `parseInt(s, 10)`,
  decimal rendering, `toString(16).toUpperCase()`, `padStart` and `split`.

## State and form

- Profiles are objects. `RetroTinkProfile` holds `bytes: array<Byte>` and so does the older
  `Profile`. Setting values are objects too: `RetroTinkSettingValue` holds
  `value: array<Byte>`.
- The writers reassign the field to a fresh array (`setValues`, `setValue`). The profile
  methods that do this state the new contents against the old ones.
- `clone` shares the array, and `_writeCrc` writes into it in place. The model keeps both: a
  clone's later CRC write is visible through the original. `merge` modifies nothing of
  `this`, because every write it makes reassigns the clone's field.
- The pure parts are functions over `seq<Byte>`, with lemmas relating them: slicing,
  scope filtering, the codec, the schema and the schema lookup.
- A value collection (`RetroTinkSettingsValues`) is a `seq<(string, RetroTinkSettingValue)>`
  in insertion order. `Snapshot` reads it as (descriptor, bytes) pairs.
- JSON-like trees are the `Json` datatype. An object is its list of entries in key order.

The CRC-16 routine is not part of this model. The profile methods that need it take it as
a parameter `crc16(bytes, start)`.

Where the library's description and its code disagree, the model follows the code:

- `asString` keeps embedded and trailing zero bytes, one character per byte.
- `fromString` builds a fresh zero buffer, so every byte past the text is zero.
- There is no ENUM, BIT or boolean encoding on `set`. Those inputs raise SettingTypeError.
- A value built with explicit bytes keeps the given buffer and is not checked.

## Model

| member | source | states |
|---|---|---|
| Bytes.Slice | src/profile/RetroTinkProfile.ts:54 | `slice(start, end)` is exactly `s[start..end]` when in bounds. It is empty when it starts past the end, and never longer than its input. |
| Bytes.SpliceOverwrites | src/profile/RetroTinkProfile.ts:72 | A splice that deletes as many bytes as it inserts, inside the array, keeps the length. It puts the items at the window and leaves every other index alone. |
| Bytes.ToArray | src/profile/RetroTinkProfile.ts:75 | `new Uint8Array(byte_array)` is a fresh buffer holding exactly the given bytes. |
| JsText.TrimStart | src/settings/RetroTinkSetting.ts:81 | The white space `parseInt` skips: the result is a suffix of the input, everything cut off is white space, and the result does not start with white space. |
| JsText.ParseInt10 | src/settings/RetroTinkSetting.ts:81 | `parseInt(s, 10)` is NaN exactly when no digit follows the leading white space and optional sign. Otherwise it is the signed value of the longest leading digit run. |
| JsText.Decimal | src/settings/RetroTinkSetting.ts:100 | The rendering of an integer is never empty. It starts with a minus sign exactly for negative numbers, and everything else is decimal digits. |
| JsText.ParseDecimal | src/settings/RetroTinkSetting.ts:100 | The model's decimal rendering of an integer parses back to it. This matches `${n}` for \|n\| < 10^21 (see Left out). |
| JsText.HexUpper | src/profile/RetroTinkProfile.ts:233 | `toString(16).toUpperCase()` yields only hex digits. It has one digit exactly below 16. |
| JsText.HexUpperValue | src/profile/RetroTinkProfile.ts:233 | The hex digits denote the number back, and there are at most four below 65536. |
| JsText.PadStart | src/profile/RetroTinkProfile.ts:233 | `padStart` reaches the length by prefixing fill characters only, and keeps the text as a suffix. |
| JsText.HexPadValue | src/profile/RetroTinkProfile.ts:233 | Zero padding keeps every character a hex digit and does not change the value. |
| JsText.Split | src/utils/SerializationUtils.ts:12 | `split('.')` yields at least one piece, and no piece contains the separator. |
| JsText.SplitJoin | src/utils/SerializationUtils.ts:12 | Joining the pieces of a split with the same separator gives the name back. |
| JsText.SplitWithoutSeparator | src/utils/SerializationUtils.ts:12 | A name without a dot is a single key. |
| JsText.StartsWith | src/profile/RetroTinkProfile.ts:103 | `key.startsWith(p)` holds exactly when p is no longer than the key and agrees with it character by character. |
| RetroTinkSetting.SingleRangeLength | src/settings/RetroTinkSetting.ts:19-20 | A single-range descriptor's length is its range's length, as in the older `address`/`length` descriptor. |
| RetroTinkSetting.Get | src/settings/RetroTinkSetting.ts:37-40 | Table lookup succeeds iff the name is present and returns a stored entry. A missing name is SettingNotSupportedError(name). |
| RetroTinkSetting.GetFromList | src/settings/RetroTinkSetting.ts:33-40 | A table built from a list finds a name iff some item has it, and it finds the last such item (Map insertion). |
| RetroTinkSetting.FromListDistinct | src/settings/RetroTinkSetting.ts:34 | With distinct names the table lists every item under its name, in order. |
| RetroTinkSetting.GetPut | src/settings/RetroTinkSetting.ts:34 | After setting a key, a lookup of that key yields the new entry and a lookup of any other key is unchanged. |
| RetroTinkSetting.DecodeString | src/settings/RetroTinkSetting.ts:59-62 | `asString` is `''` when byte 0 is zero. Otherwise it is one character per byte with that code, all bytes included. |
| RetroTinkSetting.EncodeString | src/settings/RetroTinkSetting.ts:108-117 | `fromString` yields `length` bytes. Byte i is char code i mod 256 for i < min(\|s\|, length), and every other byte is zero. |
| RetroTinkSetting.DecodeInt | src/settings/RetroTinkSetting.ts:64-73 | `asInt` fails with Not Implemented Yet iff length ≠ 1. Otherwise it reads byte 0 unsigned, or as two's complement in [-128, 128) for SIGNED_INT. An empty buffer gives `undefined` (INT) or 0 (SIGNED_INT). |
| RetroTinkSetting.EncodeInt | src/settings/RetroTinkSetting.ts:119-134 | `fromInt` succeeds iff length = 1 and n is in range (signed [-128, 127], else [0, 255]), storing n mod 256. Otherwise the value is all zeros, with SettingValidationError or Not Implemented Yet. |
| RetroTinkSetting.SetValue | src/settings/RetroTinkSetting.ts:75-106 | A successful `set` leaves a value of the setting's length. Its only errors are SettingTypeError, which keeps the value as it was, and the out-of-range SettingValidationError and multi-byte Not Implemented Yet of `fromInt`, which leave it all zeros. |
| RetroTinkSetting.StringRoundTrip | src/settings/RetroTinkSetting.ts:108-117 | Text of codes 1..255 that fits decodes back to itself followed by one NUL per unused byte. Empty text decodes to `''`. |
| RetroTinkSetting.IntRoundTrip | src/settings/RetroTinkSetting.ts:119-134 | After a successful `fromInt(n)`, `asInt` returns n. |
| RetroTinkSetting.ByteRoundTrip | src/settings/RetroTinkSetting.ts:64-73 | On a one-byte number setting, re-encoding the decoded byte gives the same byte without error. |
| RetroTinkSetting.SetTypeErrors | src/settings/RetroTinkSetting.ts:75-106 | Every input kind or type combination not handled raises SettingTypeError and leaves the value as it was. |
| RetroTinkSetting.SetDecimalTextAsNumber | src/settings/RetroTinkSetting.ts:80-98 | On a number setting, setting the decimal text of n is the same as setting n. |
| RetroTinkSetting.SetOnString | src/settings/RetroTinkSetting.ts:76-100 | A string or number set on a STR setting never fails. It stores the text, or the number's decimal text in full digits (see JsText.Decimal under Left out), as `fromString` does. |
| RetroTinkSetting.RetroTinkSettingValue.constructor | src/settings/RetroTinkSetting.ts:54-57 | Without explicit bytes the value is a fresh buffer of `length` zero bytes. |
| RetroTinkSetting.RetroTinkSettingValue.WithBytes | src/settings/RetroTinkSetting.ts:54-57 | With explicit bytes the given buffer itself is kept. |
| RetroTinkSetting.RetroTinkSettingValue.FromString | src/settings/RetroTinkSetting.ts:108-117 | The index loop leaves a fresh buffer equal to the string encoding. |
| RetroTinkSetting.RetroTinkSettingValue.FromInt | src/settings/RetroTinkSetting.ts:119-134 | A fresh zero buffer replaces the value before the range check. The result and error are those of the encoding. |
| RetroTinkSetting.RetroTinkSettingValue.Set | src/settings/RetroTinkSetting.ts:75-106 | The new value and the error are those of the `set` dispatch. The buffer is untouched on a type error. |
| Schema.AudioInput | src/settings/Schema.ts:128-176 | A nonzero override o gives `[o - 1]`, and every defined result is one byte. |
| Schema.NamesUnique | src/settings/Schema.ts:85-361 | The schema has 20 settings with pairwise distinct names. |
| Schema.NamesNest | src/settings/Schema.ts:85-361 | No 1.4.2 name is below an earlier one. `input` is above `input.audio`, but it is declared after it. |
| Schema.LookupDeclared | src/settings/Schema.ts:85-361 | Each declared setting is found under its name. |
| Schema.LookupUndeclared | src/settings/RetroTinkSetting.ts:38 | An undeclared name is SettingNotSupportedError. |
| Schema.RangesDisjoint | src/settings/Schema.ts:85-361 | Every setting has one range, no two settings share a byte, and none touches the CRC bytes 32 and 33. |
| Schema.LayoutOfSettings | src/settings/Schema.ts:85-361 | The schema's ranges are the address and length literals of the source, in order. |
| Schema.EnumsWellFormed | src/settings/Schema.ts:116-120 | Every ENUM setting's choice patterns are pairwise distinct and have the setting's length. |
| Schema.HeaderDerivesSignature | src/settings/Schema.ts:86-93 | The header covers bytes 0..12 and derives fixed bytes that decode to "RT4K Profile". |
| Schema.InputAudioDerivation | src/settings/Schema.ts:122-128 | `input.audio` derives from [input override, input], the parameter order of the table. |
| Schema.AudioInputDefinedOnInputs | src/settings/Schema.ts:131-175 | With override 0 the table is defined exactly on the byte values of the `input` enum. |
| Schema.AudioInputTableValues | src/settings/Schema.ts:128-173 | With override 0: 0→5; 3,4→3; 7,8,9→0; 12..17→2; 20..27→1. |
| Schema.AudioFollowsConnector | src/settings/Schema.ts:253-274 | With override 0, HDMI gives audio 5, and any other input choice gives the audio code of an override to its connector family (the name before `\|`). |
| Schema.OverrideChoicesAudio | src/settings/Schema.ts:174-191 | Override choice m (RCA..S/PDIF) selects audio m - 1 whatever the input. |
| RetroTinkProfile.SliceRanges | src/profile/RetroTinkProfile.ts:51-57 | The concatenated slices have the sum of the range lengths when every range is in bounds. |
| RetroTinkProfile.SliceBytes | src/profile/RetroTinkProfile.ts:51-57 | `sliceBytes` has the setting's length when its ranges lie in the image. For one range it is `bytes.slice(address, address + length)`. |
| RetroTinkProfile.WriteRangesLength | src/profile/RetroTinkProfile.ts:70-74 | The splice loop keeps the image's length when the ranges lie inside it and the value covers them. |
| RetroTinkProfile.WriteRangesFrame | src/profile/RetroTinkProfile.ts:70-74 | The splice loop leaves every byte outside the ranges as it was. |
| RetroTinkProfile.WriteRangesSlice | src/profile/RetroTinkProfile.ts:70-74 | With disjoint in-bounds ranges, slicing the ranges after the loop gives the part of the value it read, from the running offset on. |
| RetroTinkProfile.WriteSetting | src/profile/RetroTinkProfile.ts:69-75 | The write of one setting keeps the image's size when its ranges lie inside and the value covers them. |
| RetroTinkProfile.WriteThenSlice | src/profile/RetroTinkProfile.ts:67-76 | A write of \|value\| = length keeps the size, and slicing the setting back gives the value. Every byte outside its ranges is unchanged. |
| RetroTinkProfile.WriteLeavesOthers | src/profile/RetroTinkProfile.ts:67-76 | A write leaves the slice of any setting with disjoint ranges unchanged. |
| RetroTinkProfile.SchemaFits | src/settings/Schema.ts:85-361 | Every schema setting has one in-bounds range on an image of at least 0x586a bytes. |
| RetroTinkProfile.WriteSchemaSetting | src/profile/RetroTinkProfile.ts:67-76 | Writing a schema setting keeps the size and stores the value. Every other schema setting reads the same. |
| RetroTinkProfile.WriteAll | src/profile/RetroTinkProfile.ts:127-141 | `setValues` keeps the image's size when every value fits its setting's ranges. |
| RetroTinkProfile.SetValuesLastWins | src/profile/RetroTinkProfile.ts:127-141 | `setValues` writes in collection order with no check. Each schema setting ends up holding the last value given for it, or its old bytes. |
| RetroTinkProfile.WriteChecked | src/profile/RetroTinkProfile.ts:67-76 | A write fails with SettingNotSupportedError(name) iff the name is not in the schema. Otherwise it is the range-by-range splice. |
| RetroTinkProfile.WriteEach | src/profile/RetroTinkProfile.ts:91-95 | Writing a collection value by value either passes every name check and equals `setValues`, or fails with SettingNotSupportedError for a name outside the schema. |
| RetroTinkProfile.WriteEachSchema | src/profile/RetroTinkProfile.ts:91-95 | Writing schema values one by one through `setValue` never fails and equals `setValues`. |
| RetroTinkProfile.WriteEachSingle | src/profile/RetroTinkProfile.ts:97-99 | Merging one value is one checked write: the error leaves the image as it was. |
| RetroTinkProfile.SetPrimitive | src/profile/RetroTinkProfile.ts:78-83 | A primitive write to an unknown name fails with SettingNotSupportedError before anything changes. |
| RetroTinkProfile.SetPrimitiveOnSchema | src/profile/RetroTinkProfile.ts:78-83 | For a schema setting: read the current slice, `set` it, write it back. A `set` error is returned with the image unchanged. |
| RetroTinkProfile.SetThenGetInt | src/profile/RetroTinkProfile.ts:78-83 | Setting an in-range number on a one-byte number setting succeeds. Reading it back gives the number, and every other setting is unchanged. |
| RetroTinkProfile.SetThenGetString | src/profile/RetroTinkProfile.ts:78-83 | Setting text that fits on a STR setting succeeds. Reading it back gives the text padded with NULs, and every other setting is unchanged. |
| RetroTinkProfile.ApplyPairs | src/profile/RetroTinkProfile.ts:152-154 | Applying flattened pairs fails only with a setting error: unknown name, type mismatch, bad number or a wide integer. |
| RetroTinkProfile.ApplyPairsStopsAtFailure | src/profile/RetroTinkProfile.ts:162-171 | When a pair fails, the pairs before it stay applied and the error is that pair's: no rollback. |
| RetroTinkProfile.ApplyPairsAppend | src/profile/RetroTinkProfile.ts:152-154 | Pairs are applied in order: one more pair acts on the result of the others, unless they already failed. |
| RetroTinkProfile.Matches | src/profile/RetroTinkProfile.ts:102-106 | A string scope matches a key exactly when the key is the scope followed by some rest. The empty string scope matches every key. |
| RetroTinkProfile.MatchesAnyScope | src/profile/RetroTinkProfile.ts:101-107 | No scope matches nothing, and one matching scope is enough. |
| RetroTinkProfile.FilterScopes | src/profile/RetroTinkProfile.ts:114 | The default is never empty. With no scopes every key is selected, and given scopes select exactly what they match. |
| RetroTinkProfile.Select | src/profile/RetroTinkProfile.ts:116-118 | Filtering never yields more settings than it is given. |
| RetroTinkProfile.SelectMembers | src/profile/RetroTinkProfile.ts:101-118 | A setting is kept iff it is listed and its name matches some scope: prefix, test predicate or callback. |
| RetroTinkProfile.SelectAll | src/profile/RetroTinkProfile.ts:114-118 | When every name matches, the filter keeps everything in order. |
| RetroTinkProfile.GetValuesUnscoped | src/profile/RetroTinkProfile.ts:114 | With no scopes every schema setting is kept, in schema order. |
| RetroTinkProfile.Pairs | src/profile/RetroTinkProfile.ts:116 | Each kept setting is paired with its slice of the image, in order. |
| RetroTinkProfile.MergeStep | src/profile/RetroTinkProfile.ts:187-198 | One source fails only with a setting error. A value collection that passes is written as `setValues` writes it. |
| RetroTinkProfile.MergeAll | src/profile/RetroTinkProfile.ts:187-199 | Merging a list of sources fails only with a setting error. |
| RetroTinkProfile.MergeProfileCopies | src/profile/RetroTinkProfile.ts:85-89 | Merging a profile copies every schema setting's bytes from it without error and keeps the size. |
| RetroTinkProfile.MergeAppend | src/profile/RetroTinkProfile.ts:187-199 | Sources are applied left to right: one more source acts on the result of the earlier ones. |
| RetroTinkProfile.MergeLastValueWins | src/profile/RetroTinkProfile.ts:177-202 | A value given as the last source is what the merged profile holds for that setting. |
| RetroTinkProfile.MergeLastProfileWins | src/profile/RetroTinkProfile.ts:188-189 | A profile given as the last source never fails. Every schema setting of the merged image then holds that profile's bytes, and the size is kept. |
| RetroTinkProfile.HeaderCheck | src/profile/RetroTinkProfile.ts:34-39 | The header decodes to "RT4K Profile" iff the first 12 bytes are exactly its bytes. |
| RetroTinkProfile.HeaderValue | src/profile/RetroTinkProfile.ts:35-36 | The decoded header has at most 12 characters. On an image whose first byte is nonzero it is those 12 bytes as characters. |
| RetroTinkProfile.CrcSplit | src/profile/RetroTinkProfile.ts:209 | High byte × 256 + low byte is the CRC modulo 65536. |
| RetroTinkProfile.CrcBytes | src/profile/RetroTinkProfile.ts:205-210 | `_getCrc` is two bytes that recombine to the CRC modulo 65536. |
| RetroTinkProfile.CrcValue | src/profile/RetroTinkProfile.ts:231-232 | `(high << 8) \| low` of the two CRC bytes is the CRC modulo 65536. |
| RetroTinkProfile.HexWord | src/profile/RetroTinkProfile.ts:233 | Four hex digits denote the number below 65536. |
| RetroTinkProfile.CrcString | src/profile/RetroTinkProfile.ts:230-234 | `getCrcString` is `0x` and four upper-case hex digits denoting the CRC modulo 65536. |
| RetroTinkProfile.WithCrc | src/profile/RetroTinkProfile.ts:212-214 | After `_writeCrc` the size is kept, bytes 33 and 32 recombine to the CRC modulo 65536, and every other byte is as it was. |
| RetroTinkProfile.CrcLeavesSettings | src/profile/RetroTinkProfile.ts:212-214 | Writing the CRC changes no schema setting's bytes. |
| RetroTinkProfile.RetroTinkProfile.constructor | src/profile/RetroTinkProfile.ts:30-32 | The profile keeps the given buffer. |
| RetroTinkProfile.RetroTinkProfile.FromBytes | src/profile/RetroTinkProfile.ts:34-39 | Succeeds iff the header decodes to "RT4K Profile", holding the same buffer. Otherwise InvalidProfileFormatError carries the decoded header. |
| RetroTinkProfile.RetroTinkProfile.GetValue | src/profile/RetroTinkProfile.ts:122-125 | A fresh value holding the setting's slice, or SettingNotSupportedError for an unknown name. |
| RetroTinkProfile.RetroTinkProfile.GetValues | src/profile/RetroTinkProfile.ts:113-120 | Fresh values: the schema settings matching some scope (all when none is given), in schema order, each with its slice. |
| RetroTinkProfile.RetroTinkProfile.Collect | src/profile/RetroTinkProfile.ts:116-118 | The map-and-filter loop yields exactly the selected settings paired with their slices. |
| RetroTinkProfile.RetroTinkProfile.SpliceInto | src/profile/RetroTinkProfile.ts:69-75 | The offset loop of splices computes the range-by-range write. |
| RetroTinkProfile.RetroTinkProfile.SetValueInstance | src/profile/RetroTinkProfile.ts:67-76 | An unknown name raises SettingNotSupportedError with the buffer untouched. Otherwise a fresh buffer holds the write. |
| RetroTinkProfile.RetroTinkProfile.SetValues | src/profile/RetroTinkProfile.ts:127-141 | A fresh buffer holds all values written in collection order. |
| RetroTinkProfile.RetroTinkProfile.SetValuePrimitive | src/profile/RetroTinkProfile.ts:78-83 | The buffer becomes the primitive write, or an error leaves it untouched. |
| RetroTinkProfile.RetroTinkProfile.SetValueObject | src/profile/RetroTinkProfile.ts:152-154 | Flattened pairs are applied in order up to the first error, which is returned. |
| RetroTinkProfile.RetroTinkProfile.DeserializeValues | src/profile/RetroTinkProfile.ts:162-171 | Parse and setting errors become SettingDeserializationError(cause), keeping the pairs applied before the failure. |
| RetroTinkProfile.RetroTinkProfile.Clone | src/profile/RetroTinkProfile.ts:173-175 | A fresh profile sharing the same buffer. |
| RetroTinkProfile.RetroTinkProfile.MergeAllSettings | src/profile/RetroTinkProfile.ts:85-89 | Every schema value of the source profile is written into the target in schema order. |
| RetroTinkProfile.RetroTinkProfile.WriteValues | src/profile/RetroTinkProfile.ts:91-95 | Each value of the collection goes through `setValue` in order, stopping at the first error. |
| RetroTinkProfile.RetroTinkProfile.MergeSource | src/profile/RetroTinkProfile.ts:187-198 | One source of any of the four kinds is applied to the target. |
| RetroTinkProfile.RetroTinkProfile.ApplySources | src/profile/RetroTinkProfile.ts:187-199 | All sources are applied in order, stopping at the first error. |
| RetroTinkProfile.RetroTinkProfile.Merge | src/profile/RetroTinkProfile.ts:177-202 | A new profile holds the in-order merge of the sources over this profile's bytes, and this profile is not modified. |
| RetroTinkProfile.RetroTinkProfile.GetCrc | src/profile/RetroTinkProfile.ts:205-210 | The two bytes are low and high byte of the CRC of the image from byte 128. |
| RetroTinkProfile.RetroTinkProfile.WriteCrc | src/profile/RetroTinkProfile.ts:212-214 | In place: bytes 32 and 33 become the CRC bytes and nothing else changes. An image shorter than 34 bytes is a RangeError. |
| RetroTinkProfile.RetroTinkProfile.Save | src/profile/RetroTinkProfile.ts:216-219 | The CRC is written, then the buffer's bytes are handed off. A failed CRC write hands off nothing. |
| RetroTinkProfile.RetroTinkProfile.GetCrcString | src/profile/RetroTinkProfile.ts:230-234 | `0x` and four hex digits denoting the CRC of the current image modulo 65536. |
| ObjectUtils.IsObject | src/utils/ObjectUtils.ts:1-3 | Every object is truthy, and arrays, null and undefined are not objects. |
| ObjectUtils.LookupAssign | src/utils/ObjectUtils.ts:15 | After `obj[key] = v`, `obj[key]` is v and every other key reads as before. |
| ObjectUtils.MergeInto | src/utils/ObjectUtils.ts:9-18 | Merging one source keeps the target an object exactly when it was one. |
| ObjectUtils.MergeValue | src/utils/ObjectUtils.ts:11-16 | A source value that is not an object overwrites. An object value merges into the target's value, or into a fresh `{}` when that is falsy. A truthy scalar stays as it is. |
| ObjectUtils.MergeEntriesElsewhere | src/utils/ObjectUtils.ts:10-17 | The key loop leaves every key that no remaining source key names as it was. |
| ObjectUtils.MergeEntriesAt | src/utils/ObjectUtils.ts:10-17 | With distinct source keys, each source key ends up holding the merge of its value into the target's. |
| ObjectUtils.MergeIntoLookup | src/utils/ObjectUtils.ts:10-17 | A source key gets the merge of its value: recursive for objects, overwrite for the rest. Keys the source does not name keep their value. |
| ObjectUtils.TruthyScalarKept | src/utils/ObjectUtils.ts:11-13 | A truthy non-object under a key whose source value is an object stays unchanged. |
| ObjectUtils.NoSources | src/utils/ObjectUtils.ts:6 | With no sources the target comes back unchanged. |
| ObjectUtils.NonObjectTarget | src/utils/ObjectUtils.ts:5-21 | A non-object target is returned as it is whatever the sources. |
| ObjectUtils.MergeAllAppend | src/utils/ObjectUtils.ts:5-21 | Sources apply left to right: the last source goes on top of the others. |
| ObjectUtils.KeyOutsideSources | src/utils/ObjectUtils.ts:5-21 | A key no object source names keeps the target's value through the whole merge. |
| ObjectUtils.LastScalarWins | src/utils/ObjectUtils.ts:5-21 | A scalar under a key of the last source is what the merged object holds. |
| ObjectUtils.MergeAll | src/utils/ObjectUtils.ts:5-21 | `deepMerge` returns an object exactly when the target is one. |
| ObjectUtils.DeepMerge | src/utils/ObjectUtils.ts:5-21 | The loop over sources computes the left-to-right merge. |
| ObjectUtils.MergeOne | src/utils/ObjectUtils.ts:9-18 | The key loop, with `{}` created for falsy targets and the recursive call, computes the one-source merge. |
| ObjectUtils.PutPath | src/utils/ObjectUtils.ts:23-33 | A path insertion that succeeds yields an object. A non-empty path fails only with the TypeError of writing into a primitive. An empty path is that TypeError on a primitive and a RangeError on an object. |
| ObjectUtils.PutPathOk | src/utils/ObjectUtils.ts:23-33 | `addValueToObject` succeeds exactly on a storable path: a non-empty path into an object whose every intermediate is an object, or falsy and so replaced by `{}`. |
| ObjectUtils.EmptyStorable | src/utils/ObjectUtils.ts:28-31 | Every non-empty path is storable in `{}`, as each intermediate it meets is `undefined`. |
| ObjectUtils.StorableAfterPut | src/utils/ObjectUtils.ts:23-33 | An insertion keeps every other storable path storable, unless the inserted path is a proper prefix of it. |
| ObjectUtils.PutPathGet | src/utils/ObjectUtils.ts:23-33 | After a successful insertion the key path leads to the value. |
| ObjectUtils.PutPathSiblings | src/utils/ObjectUtils.ts:28-31 | Any path that parts from the inserted one reads the same before and after. Existing intermediates and their other keys survive. |
| ObjectUtils.PutTopLevel | src/utils/ObjectUtils.ts:25-26 | A one-key path is a plain property write. |
| SerializationUtils.Leaf | src/utils/SerializationUtils.ts:19-28 | A leaf is never an object. It decodes exactly for STR, BIT and one-byte settings, and otherwise fails with Not Implemented Yet. |
| SerializationUtils.Serialize | src/utils/SerializationUtils.ts:11-34 | Serializing into an object yields an object. It fails only with Not Implemented Yet or the TypeError of writing into a scalar. |
| SerializationUtils.PathPrefixName | src/utils/SerializationUtils.ts:12 | When one name's key path is continued by another's, the other name is the first name, a dot, then more. |
| SerializationUtils.SerializeStores | src/utils/SerializationUtils.ts:11-34 | Serialization succeeds when every leaf decodes, every path is storable in the starting tree, and no path is continued by a later one. |
| SerializationUtils.SerializeFresh | src/utils/SerializationUtils.ts:8-37 | From `{}`, serialization succeeds when every leaf decodes and no name is below an earlier name. |
| SerializationUtils.SchemaLeaves | src/utils/SerializationUtils.ts:19-28 | Every 1.4.2 value decodes to a leaf, whatever the image, because every number setting there is one byte. |
| SerializationUtils.SerializeSchema | src/utils/SerializationUtils.ts:8-37 | `serializeSettings` of a profile's 1.4.2 values succeeds on every image. |
| SerializationUtils.SerializeSettings | src/utils/SerializationUtils.ts:8-37 | The loop over the collection computes the in-order serialization of its names, descriptors and bytes. |
| SerializationUtils.LeafKind | src/utils/SerializationUtils.ts:18-28 | STR gives `asString`, BIT `asBoolean`, and any other type `asInt`: its number on a one-byte setting, Not Implemented Yet otherwise. |
| SerializationUtils.SerializeAppend | src/utils/SerializationUtils.ts:11-34 | Entries are written in collection order, each into the tree left by the earlier ones. |
| SerializationUtils.LastLeafReachable | src/utils/SerializationUtils.ts:11-33 | After the last entry, following `name.split('.')` from the root reaches its decoded value. |
| SerializationUtils.UntouchedPath | src/utils/SerializationUtils.ts:30-31 | A path that every entry's path parts from reads the same after serialization. |
| SerializationUtils.EarlierLeafSurvives | src/utils/SerializationUtils.ts:30-31 | An earlier entry's leaf survives every later entry whose path parts from it: shared prefixes share a subtree. |
| SerializationUtils.TopLevelLeaf | src/utils/SerializationUtils.ts:12-21 | A name without a dot is a top-level key holding its leaf. |
| SerializationUtils.LeafReplacesSubtree | src/utils/SerializationUtils.ts:11-21 | `input.audio` then `input` leaves `input` holding the scalar, and the audio leaf is gone. |
| Profile.Profile.constructor | src/profile/Profile.ts:38-40 | The profile keeps the given buffer. |
| Profile.Profile.GetValues | src/profile/Profile.ts:47-51 | One value per static descriptor, in declaration order, each holding `bytes.slice(address, address + length)`. |
| Profile.LegacyOrder | src/profile/Profile.ts:7-36 | The descriptors are header, enabled, strength and path, in that order. |
| Profile.AgreesWithSchema | src/profile/Profile.ts:7-36 | The four descriptors have the names and byte ranges of the first four 1.4.2 settings. Only `enabled`'s type differs: INT here, BIT there. |
| Profile.SameBytesAsSchemaReader | src/profile/Profile.ts:49 | For those four settings the older reader and the profile document's `sliceBytes` cut the same bytes. |
| Profile.ValueLengths | src/profile/Profile.ts:49 | On an image holding all four ranges, each value has its descriptor's length. |

## Left out

- File I/O, async code and default paths (`build`, `buildSync`, `save`/`saveSync` writes, `readFileBinary`). `Save` returns the bytes it would write.
- The CRC-16 algorithm. It is a parameter `crc16(bytes, start)`, and only the byte layout and formatting around it are modelled.
- `getSettingsNames`, `serializeValues`, `toString`, `asPlainObject` and `JSON.stringify`: these are rendering only. Serialization is modelled up to the tree.
- `JSON.parse` and `flattenObject`. Their bodies are not part of this model. A plain-object source or a deserialized document comes in as its flattened (name, primitive) pairs, and a parse failure as an error value.
- RegExp matching. A RegExp scope, like a callback scope, is taken as a predicate on the name. A RegExp with the `g` or `y` flag keeps `lastIndex` from one `test` to the next (src/profile/RetroTinkProfile.ts:104), so its answer also depends on the names tested before. That state is not modelled: for such a scope the source can drop settings that the model selects.
- RetroTinkSetting.DecodeBoolean: `asBoolean` is not part of this model. It is taken as "some byte is nonzero".
- `RetroTinkReadOnlySetting` and `compareUint8Array`: not part of this model beyond the derivation data of the schema.
- Non-integer numbers, NaN besides the `parseInt` failure, and UTF-16 beyond one `char` per code unit.
- JsText.Decimal: every integer is rendered in full decimal digits. JavaScript's `${n}` switches to exponent notation (`1e+21`) once |n| reaches 10^21, and a number beyond 2^53 has already lost precision. Neither is modelled, so what a STR setting stores for such numbers differs.
- Flattened pairs whose value is not a string, number or boolean: pairs are typed `(string, JsPrimitive)`, which leaves such values out. The source would send one to the `flattenObject` branch of `setValue` with the name string as the object, and `flattenObject` is not part of this model.
- ObjectUtils.DeepMerge: trees are values, so object aliasing and in-place mutation through shared nested objects are not modelled. `deepMerge`'s `sources.shift()` on the caller's array is not modelled either. The result is the tree the mutation leaves.
- ObjectUtils.MergeInto: a property read sees only the object's own entries. In the source `target[key]` also finds members inherited from `Object.prototype`. So `deepMerge({}, {constructor: {a: 1}})` finds the truthy `Object` function, recurses into it to no effect (to `isObject` a function is not an object) and returns `{}`, where the model returns `{constructor: {a: 1}}`. A parsed source with an own `__proto__` key merges into `Object.prototype` itself. Inherited members are not modelled.
- ObjectUtils.PutPath: a key naming an inherited member of `Object.prototype` reads that member in the source. `addValueToObject({}, ["toString", "x"], 1)` writes `x` onto the prototype's `toString` function and leaves the object `{}`, where the model stores `{toString: {x: 1}}`. Inherited members are not modelled.
- ObjectUtils.PutPath: writing a property of a primitive is taken as a TypeError (strict mode), and an array intermediate as a primitive. An empty key path on a non-object is that TypeError. On an object it recurses without end in the source, and is modelled as a RangeError.
- SerializationUtils.SerializeSettings: the walk of the `currentLevel` pointer is the recursive path insertion. It produces the same tree, but is not a loop over a pointer. When both a leaf decoding and the write along the path fail, which of the two errors is reported is not modelled.
- JavaScript property order for integer-like keys: objects keep insertion order.
- Partial mutation before a thrown error in `deepMerge`/`addValueToObject`. The error is returned instead of a half-updated tree.

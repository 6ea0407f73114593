# CustomClothingBase overlay core, modelled in Dafny

CustomClothingBase is a server mod that lets JSON files stand in for, or patch, the
"clothing table" records of the game's binary portal dat. This project models the overlay logic
of the mod and proves properties of it:

- the `HexUintJsonConverter`, which writes a `uint` as `"0x"` and eight upper-case hex digits, and
  reads a string token as hex and a number token by printing it in decimal and re-reading those
  digits as hex (so `10` reads as `0x10`);
- the merge of a JSON-sourced clothing table into a dat-sourced one: every entry of the overlay's
  `ClothingBaseEffects` and `ClothingSubPalEffects` is upserted into the base record, in place;
- the 16-byte stub (`int 0`, `uint id`, `int 0`, `int 0`, little-endian) written once for a record
  that exists only as JSON, and the file names `{id:X}.json` and `{id:X8}.bin`;
- the hooks on the dat loader: serving the stub for a missing record, merging after unpack, and
  reading a palette that stands where a palette set is expected;
- the admin commands: parsing the export id, the guards of the export, and clearing the cached
  clothing tables with a count of what was removed.

Files, one module each: `wrappers.dfy` (Option, Result), `numbers.dfy` (`uint`, `int`, `byte`,
little-endian layout), `hex_text.dfy` (.NET formatting with `X`, `X8` and `ToString()`, .NET
`uint.TryParse` with the default and `HexNumber` styles, and the assumed `TryParseHex`),
`json_converters.dfy` (the converter), `effect_table.dfy` (a `Dictionary<uint, V>` as its entries in
insertion order, with upsert), `clothing_table.dfy` (the `ClothingTable` class and
`MergeClothingTable`), `storage.dfy` (paths, the file system, the stub), and `patch_class.dfy`
(`DatDatabase`, the hooks and the commands).

Modelling choices:

- A `Dictionary<uint, V>` is modelled as its entries in enumeration order, with no key twice. A
  dictionary that is only added to enumerates in insertion order. The merge overwrites a present
  key where it stands and appends a new key at the end. `ToMap` gives the plain key-to-value view.
- The effect value types are type parameters: the merge never looks inside them.
- The file system is a class holding a `map<Path, seq<byte>>`. How a write ends is a
  `WriteFault` parameter. `NoFault` means every byte is written. `FailsBeforeOpen` is an
  exception before the file is opened, such as one thrown by the serializer, and changes nothing.
  `FailsAfterOpen(n)` is an exception after `FileMode.Create` has created or emptied the file, and
  leaves at most the first `n` bytes of the content in it.
- `TryParseHex` is an extension method whose source is not part of this model. The model assumes
  it drops an optional `0x` or `0X` prefix and then parses like `uint.TryParse(s,
  NumberStyles.HexNumber)`. That parse allows white space around one or more hex digits of either
  case and fails at 2^32 or more. Under this assumption, every string that `Write` produces reads
  back to the value written.
- `BinaryReader` is modelled over a `MemoryStream`. `ReadUInt32` with fewer than four bytes left
  throws `EndOfStream` and leaves the position at the end of the stream.

Details of the code that the model keeps:

- The stub hook (PatchClass.cs:87) and the cache clearing (PatchClass.cs:346) use the range
  `0x10000000 < id <= 0x10FFFFFF`, with an exclusive lower bound. The export (PatchClass.cs:310)
  accepts `0x10000000 <= id <= 0x10FFFFFF`. So the id `0x10000000` can be exported but is never
  served from a stub and never cleared.
- The stub hook applies only to a dat whose header names the Portal data set (PatchClass.cs:87).
- The converter has no special case for `"0"`: it reads as zero because it is a valid hex string.
- Stub creation returns true or false, not a path (PatchClass.cs:250, 277, 280). The stub hook
  rebuilds the path itself (PatchClass.cs:93), and it is the same path `createStubClothingBase`
  writes.

## Model

| member | source | states |
|---|---|---|
| `Numbers.UInt32Bytes` | PatchClass.cs:268 | the four bytes `BinaryWriter.Write(uint)` emits, least significant first; `UInt32BytesRoundTrip` shows they read back as the value |
| `Numbers.UInt32FromBytes` | PatchClass.cs:117 | the value `BinaryReader.ReadUInt32` assembles from four little-endian bytes; `UInt32FromBytesRoundTrip` shows it is the inverse of `UInt32Bytes` |
| `Numbers.Int32Bytes` | PatchClass.cs:267 | `BinaryWriter.Write(int)` writes the two's complement pattern of its argument, least significant byte first, so `(int)0` is four zero bytes |
| `Numbers.UInt32BytesRoundTrip` | PatchClass.cs:268 | reading back the four little-endian bytes written for a `uint` gives that `uint` |
| `Numbers.UInt32FromBytesRoundTrip` | PatchClass.cs:117 | a `uint` read from any four bytes writes back as exactly those bytes, so the layout is a bijection |
| `HexText.Digits` | PatchClass.cs:25 | the `X` format gives at least one upper-case digit with no leading zero unless the value is 0 |
| `HexText.DigitsValue` | PatchClass.cs:25 | the value of the printed digits is the number printed, in any base from 2 to 16 |
| `HexText.DigitsLength` | PatchClass.cs:255 | a number needs at most k digits exactly when it is below b^k, so a `uint` needs at most 8 hex digits |
| `HexText.FormatHex8` | JsonConverters/ClothingTableJsonConverter.cs:33 | `X8` of a `uint` is exactly 8 upper-case hex digits whose value is the `uint` |
| `HexText.PadLeftZerosFacts` | PatchClass.cs:255 | zero-padding reaches the width, keeps the characters hex digits and keeps the value |
| `HexText.FormatHex` | PatchClass.cs:25 | `ToString("X")` is `Digits` in base 16, whose contract and `DigitsValue` give its form and value |
| `HexText.FormatDecimal` | JsonConverters/ClothingTableJsonConverter.cs:23 | `ToString()` is `Digits` in base 10, whose contract and `DigitsValue` give its form and value |
| `HexText.ParseHexNumber` | PatchClass.cs:192 | `uint.TryParse` with `HexNumber`: white space trimmed, then one or more hex digits of either case whose value is below 2^32, then any trailing white space and NUL characters; `FormatHexParses` and `FormatHex8Parses` state its round trips |
| `HexText.ParseInteger` | PatchClass.cs:199 | `uint.TryParse` with the default style: white space trimmed, an optional '+', a '-' only on the value 0, then decimal digits below 2^32, then any trailing white space and NUL characters; `FormatDecimalParses` states its round trip |
| `HexText.TryParseHex` | JsonConverters/ClothingTableJsonConverter.cs:17-24 | the assumed extension: an optional "0x" or "0X" is dropped and the rest parsed by `ParseHexNumber`; `ReadWriteRoundTrip` and `ReadNumberToken` use it |
| `HexText.ParseTrailingNul` | PatchClass.cs:192-199 | both parsers accept NUL characters after the number and its trailing white space (`"1F \0\0"` is 0x1F, `"31\0"` is 31), but nothing after those NULs (`"1F\0 "` is refused) |
| `HexText.FormatHexParses` | PatchClass.cs:25 | the hex parser reads the `X` form of a `uint` back as that `uint` |
| `HexText.FormatHex8Parses` | PatchClass.cs:255 | the hex parser reads the `X8` form of a `uint` back as that `uint` |
| `HexText.FormatDecimalParses` | PatchClass.cs:199 | `uint.TryParse` reads the decimal `ToString()` of a `uint` back as that `uint` |
| `JsonConverters.Read` | JsonConverters/ClothingTableJsonConverter.cs:12-29 | defined as: a string token is parsed by `TryParseHex`; a number token outside `uint` fails in `GetUInt32`, and otherwise its decimal text is parsed by `TryParseHex`; anything that does not parse is "Invalid format for hex number"; its properties are the `Read…` lemmas below |
| `JsonConverters.Write` | JsonConverters/ClothingTableJsonConverter.cs:31-34 | the output is always 10 characters: `"0x"` then 8 upper-case hex digits |
| `JsonConverters.ReadWriteRoundTrip` | JsonConverters/ClothingTableJsonConverter.cs:14-18 | reading the string token that `Write(v)` produced gives `v` |
| `JsonConverters.ReadZeroString` | JsonConverters/ClothingTableJsonConverter.cs:14-18 | the string `"0"` reads as 0 |
| `JsonConverters.ReadRejectsOtherTokens` | JsonConverters/ClothingTableJsonConverter.cs:28 | a token that is neither a string nor a number fails with "Invalid format for hex number" |
| `JsonConverters.ReadNumberToken` | JsonConverters/ClothingTableJsonConverter.cs:21-28 | a number token below 10^8 reads as the hex value of its decimal digits; one of 10^8 or more fails with the converter's error |
| `JsonConverters.ReadNumberIsIdentityOnlyOnOneDigit` | JsonConverters/ClothingTableJsonConverter.cs:21-25 | a number token reads as itself exactly when it is 0 to 9 |
| `JsonConverters.ReadNumberTen` | JsonConverters/ClothingTableJsonConverter.cs:21-25 | the number token 10 reads as 16 |
| `JsonConverters.DecimalDigitsReadAsHex` | JsonConverters/ClothingTableJsonConverter.cs:23-24 | hex-parsing the decimal digits of n computes the reference function `DecimalDigitsAsHex(n)` |
| `JsonConverters.DecimalDigitsAsHexBound` | JsonConverters/ClothingTableJsonConverter.cs:23-28 | the hex reading of n's digits is below 16^j exactly when n is below 10^j, which decides the overflow |
| `JsonConverters.DecimalDigitsAsHexGrows` | JsonConverters/ClothingTableJsonConverter.cs:23-24 | the hex reading never makes a number smaller, and makes every number of two or more digits larger |
| `EffectTables.IndexOf` | PatchClass.cs:147 | `ContainsKey` holds exactly when the key is among the keys; the index found is the first entry with that key |
| `EffectTables.ContainsKey` | PatchClass.cs:147 | holds exactly when the key is among the dictionary's keys |
| `EffectTables.Upsert` | PatchClass.cs:147-150 | defined as: overwrite the entry of a present key where it stands, or append a new entry; `UpsertFacts`, `UpsertOverwrites` and `UpsertAppends` state its properties |
| `EffectTables.UpsertAll` | PatchClass.cs:145-158 | defined as: every overlay entry upserted in the overlay's order; `UpsertAllView`, `UpsertAllOrder` and `UpsertAllFacts` state its properties |
| `EffectTables.UpsertOverwrites` | PatchClass.cs:147-148 | overwriting a present key keeps the key set and the unique keys, and changes only that key's value |
| `EffectTables.UpsertAppends` | PatchClass.cs:149-150 | adding an absent key adds it to the key set, keeps keys unique, and maps it to the new value |
| `EffectTables.UpsertFacts` | PatchClass.cs:147-150 | one upsert maps the key to the new value and leaves every other key alone; existing entries keep their positions; a new key goes last |
| `EffectTables.UpsertAllView` | PatchClass.cs:145-151 | after the merge loop, the map view is the base's map overridden by the overlay's map, and keys stay unique |
| `EffectTables.UpsertAllOrder` | PatchClass.cs:145-151 | the merge leaves every base entry at its position, and only keys the base lacked come after them |
| `EffectTables.UpsertAllFacts` | PatchClass.cs:145-158 | every overlay key maps to the overlay's value, overwritten or inserted; keys only in the base keep the base's value; the key set is the union |
| `ClothingTables.MergeClothingTable` | PatchClass.cs:143-160 | both tables of `cb` become the upsert of `cb2`'s entries in place; `cb`'s id is unchanged; `cb` itself is returned; `cb2` is not modified |
| `ClothingTables.MergeIntoEmpty` | PatchClass.cs:145-158 | merging into the empty tables of a stub gives exactly the overlay's tables |
| `ClothingTables.MergeWithItself` | PatchClass.cs:145-158 | merging a table with itself leaves it as it was, since every write stores the value its key already holds |
| `ClothingTables.MergeExample` | PatchClass.cs:145-151 | base {1: A, 2: B} merged with overlay {2: C, 3: D} gives {1: A, 2: C, 3: D} |
| `Storage.GetFilename` | PatchClass.cs:25 | the override is in the content directory, named by 1 to 8 upper-case hex digits of the id and then ".json"; the digits read back as the id, and start with '0' only for the id 0, whose file is exactly "0.json" |
| `Storage.StubFilename` | PatchClass.cs:255 | the stub is in the stub directory, named by exactly 8 upper-case hex digits of the id and then ".bin"; the digits read back as the id |
| `Storage.GetFilenameInjective` | PatchClass.cs:25 | two different ids never share an override file |
| `Storage.StubFilenameInjective` | PatchClass.cs:255 | two different ids never share a stub file |
| `Storage.StubBytes` | PatchClass.cs:267-270 | the stub is 16 bytes: 4 zero bytes, the little-endian id, then 8 zero bytes |
| `Storage.StubBytesExample` | PatchClass.cs:267-270 | the stub of 0x10ABCDEF is 00 00 00 00 EF CD AB 10 followed by eight zero bytes |
| `Storage.JsonFileExists` | PatchClass.cs:26 | holds exactly when a file exists at the path `GetFilename` gives for the id |
| `Storage.WriteFile` | PatchClass.cs:263-272 | a failure before the open changes nothing; otherwise the file exists afterwards, no other file changes, and it holds the whole content, or a prefix of at most `n` bytes when the write fails after `n` |
| `Storage.CreateStubClothingBase` | PatchClass.cs:250-281 | an existing stub gives true with nothing written; otherwise the stub bytes are written and true returned, or false when the write throws, leaving what the fault says of the file |
| `Storage.CreateStubTwice` | PatchClass.cs:257-259 | after a successful first call, a second call succeeds and writes nothing, so the stub file is written at most once; after a first call that failed once the file was open, the second call returns true for the truncated stub |
| `PatchClass.PreGetReaderForFile` | PatchClass.cs:82-104 | a file in `AllFiles` runs the original; the stub is used exactly when the file is missing, the dat is Portal, 0x10000000 < id <= 0x10FFFFFF, the JSON exists and the stub exists or is written in full; the only file change is the stub write, complete or truncated |
| `PatchClass.PostUnpack` | PatchClass.cs:71-78 | with no override the record is unchanged; with one, the override is merged in place; a stub's empty tables end up equal to the override's |
| `PatchClass.ReadUInt32` | PatchClass.cs:117 | four little-endian bytes are read at the position and it advances by 4; with fewer left the read throws |
| `PatchClass.PreUnpack` | PatchClass.cs:114-132 | if the first `uint` is in 0x04000000..0x04FFFFFF, it becomes the set's id, the palette list gets exactly that id appended, and the original is skipped; otherwise the position is reset to 0 and the original runs |
| `PatchClass.ExportClothingBase` | PatchClass.cs:308-339 | ids outside 0x10000000..0x10FFFFFF (inclusive) and ids missing from the portal dat are refused without writing; otherwise the serialized record is written to the override file; a throw reports the failure and leaves the old file (serializer) or a truncated one (write) |
| `PatchClass.ParseExportId` | PatchClass.cs:182-203 | defined as: no argument gives None; an argument starting with a lower-case "0x" is parsed by `ParseHexNumber` after the prefix; any other by `ParseInteger`; `ExportIdFromConverterForm`, `ExportIdFromDecimal` and `ExportIdUpperCasePrefixRefused` state what it accepts |
| `PatchClass.HandleExportClothing` | PatchClass.cs:179-206 | a missing or unparsable argument exports nothing; otherwise the parsed id is exported with the guards above |
| `PatchClass.ExportIdFromConverterForm` | PatchClass.cs:189-197 | an argument in the converter's `0x` form parses as hex to the id written |
| `PatchClass.ExportIdFromDecimal` | PatchClass.cs:198-203 | a decimal argument parses to its value |
| `PatchClass.ExportIdTrailingNul` | PatchClass.cs:189-197 | the argument `"0x1F\0"` parses as the id 0x1F, as `uint.TryParse` tolerates the trailing NUL |
| `PatchClass.ExportIdUpperCasePrefixRefused` | PatchClass.cs:189-203 | only a lower-case `0x` selects hex: `0X1F` goes to the decimal parser and is refused |
| `PatchClass.ClearClothingCache` | PatchClass.cs:341-351 | exactly the cache keys with 0x10000000 < key <= 0x10FFFFFF are removed, every other entry stays, and the count equals the number removed |

## Left out

- Harmony patching (attributes, `ref __instance`, `__result`): each hook is a method that returns its decision or result.
- `DatReader` construction (PatchClass.cs:96): its arguments mean nothing to the core, so `UseStub` carries only the stub path.
- `GetJsonClothing` (PatchClass.cs:283-306): the retrying read, the JSON deserialization of `ClothingTableEx` and `Convert()` are not modelled. Their result is the `json` argument of `PostUnpack`, null when there is no override or it failed to load.
- ExportClothingBase: `JsonSerializer.Serialize` and `ReadFromDat` are not modelled. The serialized record is the `json` argument, and a throw while serializing is `FailsBeforeOpen`.
- `Directory.CreateDirectory` (PatchClass.cs:253, 327): directories are not modelled. A failure there, which is outside the try block, is not modelled either.
- WriteFile: which prefix of the content reaches the disk before a throw depends on the stream's buffering. The model leaves `n` free and bounds the prefix by it.
- A truncated override is not read back: `GetJsonClothing` is not modelled, so the model does not show that such a file stops deserializing and the override is dropped.
- `HexKeyDictionaryConverter` and the other converters registered at PatchClass.cs:39-40 are not part of this model.
- `TryParseHex`: its source is not part of this model. Its behaviour is the stated assumption above.
- JsonConverters.Read: a number token is an integer. `GetUInt32` on a fractional or exponent number also throws a `FormatException`; the model has that error only for integers outside `uint`.
- HexText.ParseInteger: it assumes the invariant culture's "+" and "-" signs. The culture argument in PatchClass.cs:192 does not affect hex parsing.
- `parameters == null` (PatchClass.cs:182): a sequence of arguments cannot be null. Only its length is checked.
- MergeClothingTable: iterating `cb2` while writing `cb` is modelled on a snapshot of `cb2`'s tables, so aliasing between the two is not modelled. `PostUnpack` never passes the same object twice, because the override is freshly deserialized. If a caller did, every write would overwrite a key with the value it already holds. On .NET Core 3.0 and later, such an overwrite does not invalidate the enumerator, so the loops would run to the end and leave the tables as `MergeWithItself` states. The model does not cover the older .NET Framework, whose enumerator throws after any write.
- ClearClothingCache: the count is returned instead of logged. The player broadcast and the log (PatchClass.cs:353-358) are left out. Concurrent writers to `FileCache` are left out, so `TryRemove` always succeeds.
- `HandleExportWeenieClothing`, `HandleClearConsoleCache`, `OnWorldOpen`, `Stop`, the `JsonFileWatcher` and all logging are host-facing side effects and are left out.

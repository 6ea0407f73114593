/** The hooks `PatchClass` places on the dat loader and the two admin commands: substituting a
    stub for a record that exists only as JSON, merging the JSON override after a clothing
    table is unpacked, reading a palette that stands where a palette set is expected,
    exporting a record, and clearing cached clothing tables. */
module PatchClass {
  import opened Wrappers
  import opened Numbers
  import opened HexText
  import opened EffectTables
  import opened ClothingTables
  import opened Storage
  import JsonConverters

  /** Records this mod serves from JSON: above 0x10000000, up to 0x10FFFFFF. The stub hook
      and the cache clearing use this range; its lower bound is exclusive. */
  predicate IsCustomClothingId(id: uint32)
  {
    0x1000_0000 < id <= 0x10FF_FFFF
  }

  /** The range `ExportClothingBase` accepts: 0x10000000 to 0x10FFFFFF, both included. */
  predicate IsClothingBaseId(id: uint32)
  {
    0x1000_0000 <= id <= 0x10FF_FFFF
  }

  /** Palette ids: 0x04000000 to 0x04FFFFFF, both included. */
  predicate IsPaletteId(id: uint32)
  {
    0x0400_0000 <= id <= 0x04FF_FFFF
  }

  /** `DatDatabaseType`. */
  datatype DatDatabaseType = Portal | Cell | Language

  /** The parts of a `DatDatabase` the hooks use: the data set named in its header, the ids
      of the files it holds (`AllFiles`) and its cache of unpacked files (`FileCache`), whose
      entries are of type `F`. */
  class DatDatabase<F> {
    const dataSet: DatDatabaseType
    var allFiles: set<uint32>
    var fileCache: map<uint32, F>

    /** A `ConcurrentDictionary` counts its entries in an `int`. */
    ghost predicate Valid()
      reads this
    {
      |fileCache| < 0x8000_0000
    }

    constructor (dataSet: DatDatabaseType, allFiles: set<uint32>, fileCache: map<uint32, F>)
      requires |fileCache| < 0x8000_0000
      ensures Valid()
      ensures this.dataSet == dataSet && this.allFiles == allFiles && this.fileCache == fileCache
    {
      this.dataSet := dataSet;
      this.allFiles := allFiles;
      this.fileCache := fileCache;
    }
  }

  /** What `PreGetReaderForFile` tells the host: run its own lookup, or skip it and read the
      given stub instead. */
  datatype ReaderDecision = RunOriginal | UseStub(stub: Path)

  /** `PreGetReaderForFile`: a file the dat holds is left to the original lookup. A missing
      portal file in the custom clothing range whose JSON override exists is served from its
      stub, created first if need be; if the stub cannot be created the original runs, and a
      write that failed after opening leaves a truncated stub behind. */
  method PreGetReaderForFile<F>(dat: DatDatabase<F>, fs: FileSystem, fileId: uint32, fault: WriteFault)
    returns (d: ReaderDecision)
    modifies fs
    ensures fileId in dat.allFiles ==> d == RunOriginal
    ensures d.UseStub? <==>
              && fileId !in dat.allFiles
              && dat.dataSet == Portal
              && IsCustomClothingId(fileId)
              && GetFilename(fileId) in old(fs.files)
              && (StubFilename(fileId) in old(fs.files) || fault.NoFault?)
    ensures d.UseStub? ==> d.stub == StubFilename(fileId) && d.stub in fs.files
    ensures fs.files ==
              if && fileId !in dat.allFiles
                 && dat.dataSet == Portal
                 && IsCustomClothingId(fileId)
                 && GetFilename(fileId) in old(fs.files)
                 && StubFilename(fileId) !in old(fs.files)
              then WriteFile(old(fs.files), StubFilename(fileId), StubBytes(fileId), fault)
              else old(fs.files)
  {
    if fileId in dat.allFiles {
      return RunOriginal;
    } else if dat.dataSet == Portal && IsCustomClothingId(fileId) {
      if JsonFileExists(fs, fileId) {
        var created := CreateStubClothingBase(fs, fileId, fault);
        if created {
          return UseStub(StubFilename(fileId));
        }
      }
    }
    return RunOriginal;
  }

  /** `PostUnpack`: after a clothing table is unpacked, its JSON override, when there is one
      (`json`, the result of `GetJsonClothing`), is merged into it. */
  method PostUnpack<B, S>(instance: ClothingTable<B, S>, json: ClothingTable?<B, S>)
    returns (result: ClothingTable<B, S>)
    requires instance.Valid() && (json != null ==> json.Valid())
    modifies instance
    ensures result == instance && instance.Valid()
    ensures json == null ==> unchanged(instance)
    ensures json != null ==>
              && instance.id == old(instance.id)
              && instance.clothingBaseEffects
                 == UpsertAll(old(instance.clothingBaseEffects), old(json.clothingBaseEffects))
              && instance.clothingSubPalEffects
                 == UpsertAll(old(instance.clothingSubPalEffects), old(json.clothingSubPalEffects))
    ensures json != null && old(instance.clothingBaseEffects) == [] && old(instance.clothingSubPalEffects) == [] ==>
              && instance.clothingBaseEffects == old(json.clothingBaseEffects)
              && instance.clothingSubPalEffects == old(json.clothingSubPalEffects)
  {
    result := instance;
    if json != null {
      result := MergeClothingTable(instance, json);
      MergeIntoEmpty(old(json.clothingBaseEffects));
      MergeIntoEmpty(old(json.clothingSubPalEffects));
    }
  }

  /** The stream under a `BinaryReader`: a `MemoryStream` over the record's bytes. */
  class BinaryReader {
    var data: seq<byte>
    var position: nat

    constructor (data: seq<byte>)
      ensures this.data == data && position == 0
    {
      this.data := data;
      position := 0;
    }
  }

  datatype StreamError = EndOfStream

  /** `BinaryReader.ReadUInt32` on a memory stream: four little-endian bytes from the current
      position; with fewer than four left it throws and leaves the position at the end. */
  method ReadUInt32(reader: BinaryReader) returns (r: Result<uint32, StreamError>)
    modifies reader
    ensures reader.data == old(reader.data)
    ensures old(reader.position) + 4 <= |reader.data| ==>
              && r == Ok(UInt32FromBytes(reader.data[old(reader.position)..old(reader.position) + 4]))
              && reader.position == old(reader.position) + 4
    ensures old(reader.position) + 4 > |reader.data| ==>
              r == Err(EndOfStream) && reader.position == |reader.data|
  {
    if reader.position + 4 <= |reader.data| {
      r := Ok(UInt32FromBytes(reader.data[reader.position..reader.position + 4]));
      reader.position := reader.position + 4;
    } else {
      reader.position := |reader.data|;
      r := Err(EndOfStream);
    }
  }

  /** `PaletteSet`: its id and the ids of its palettes. */
  class PaletteSet {
    var id: uint32
    var paletteList: seq<uint32>

    constructor ()
      ensures id == 0 && paletteList == []
    {
      id := 0;
      paletteList := [];
    }
  }

  /** `PreUnpack` of a palette set: if the first `uint` read is a palette id, the record is a
      palette in disguise: it becomes the set's id and its only added palette, and the
      original unpack is skipped (`Ok(false)`). Otherwise the stream is rewound to position 0
      and the original runs (`Ok(true)`). A stream too short for a `uint` throws. */
  method PreUnpack(reader: BinaryReader, instance: PaletteSet) returns (r: Result<bool, StreamError>)
    modifies reader, instance
    ensures reader.data == old(reader.data)
    ensures old(reader.position) + 4 > |reader.data| ==>
              r == Err(EndOfStream) && reader.position == |reader.data| && unchanged(instance)
    ensures old(reader.position) + 4 <= |reader.data| ==>
              var id := UInt32FromBytes(reader.data[old(reader.position)..old(reader.position) + 4]);
              if IsPaletteId(id) then
                && r == Ok(false)
                && instance.id == id
                && instance.paletteList == old(instance.paletteList) + [id]
                && reader.position == old(reader.position) + 4
              else
                r == Ok(true) && reader.position == 0 && unchanged(instance)
  {
    var read := ReadUInt32(reader);
    if read.Err? {
      return Err(read.error);
    }
    var id := read.value;
    if IsPaletteId(id) {
      instance.id := id;
      instance.paletteList := instance.paletteList + [id];
      return Ok(false);
    }
    reader.position := 0;
    return Ok(true);
  }

  /** The id argument of `clothingbase-export`: "0x" followed by a hex number, or a decimal
      number; None (the command prints its syntax) when there is no argument or it does not
      parse. */
  function ParseExportId(parameters: seq<string>): Option<uint32>
  {
    if |parameters| < 1 then None
    else if |parameters[0]| >= 2 && parameters[0][..2] == "0x" then ParseHexNumber(parameters[0][2..])
    else ParseInteger(parameters[0])
  }

  /** The outcome of `ExportClothingBase`, as it logs it. */
  datatype ExportResult = NotAClothingBase | NotFound | Saved(path: Path) | SaveFailed

  /** `ExportClothingBase`: ids outside 0x10000000..0x10FFFFFF and ids the portal dat does not
      hold are refused; otherwise the serialized record (`json`) is written to the record's
      override file, replacing any earlier export. A throw while serializing (`FailsBeforeOpen`)
      leaves the files as they were; one while writing (`FailsAfterOpen`) leaves the override
      truncated, since `File.WriteAllText` empties the file before it writes. */
  method ExportClothingBase<F>(portal: DatDatabase<F>, fs: FileSystem, clothingBaseId: uint32,
                               json: seq<byte>, fault: WriteFault)
    returns (r: ExportResult)
    modifies fs
    ensures !IsClothingBaseId(clothingBaseId) ==> r == NotAClothingBase
    ensures IsClothingBaseId(clothingBaseId) && clothingBaseId !in portal.allFiles ==> r == NotFound
    ensures IsClothingBaseId(clothingBaseId) && clothingBaseId in portal.allFiles ==>
              && r == (if fault.NoFault? then Saved(GetFilename(clothingBaseId)) else SaveFailed)
              && fs.files == WriteFile(old(fs.files), GetFilename(clothingBaseId), json, fault)
    ensures r == NotAClothingBase || r == NotFound ==> fs.files == old(fs.files)
  {
    if !IsClothingBaseId(clothingBaseId) {
      return NotAClothingBase;
    }
    if clothingBaseId !in portal.allFiles {
      return NotFound;
    }
    var exportFilename := GetFilename(clothingBaseId);
    fs.files := WriteFile(fs.files, exportFilename, json, fault);
    if !fault.NoFault? {
      return SaveFailed;
    }
    return Saved(exportFilename);
  }

  /** `HandleExportClothing`: parse the id argument and export it; nothing is exported
      (None) when the argument is missing or does not parse. */
  method HandleExportClothing<F>(portal: DatDatabase<F>, fs: FileSystem, parameters: seq<string>,
                                 json: seq<byte>, fault: WriteFault)
    returns (r: Option<ExportResult>)
    modifies fs
    ensures ParseExportId(parameters).None? ==> r == None && fs.files == old(fs.files)
    ensures ParseExportId(parameters).Some? ==>
              var id := ParseExportId(parameters).value;
              && r.Some?
              && (!IsClothingBaseId(id) ==> r.value == NotAClothingBase)
              && (IsClothingBaseId(id) && id !in portal.allFiles ==> r.value == NotFound)
              && (IsClothingBaseId(id) && id in portal.allFiles ==>
                    && r.value == (if fault.NoFault? then Saved(GetFilename(id)) else SaveFailed)
                    && fs.files == WriteFile(old(fs.files), GetFilename(id), json, fault))
              && (r.value == NotAClothingBase || r.value == NotFound ==> fs.files == old(fs.files))
  {
    var clothingBaseId := ParseExportId(parameters);
    if clothingBaseId.None? {
      return None;
    }
    var result := ExportClothingBase(portal, fs, clothingBaseId.value, json, fault);
    return Some(result);
  }

  /** `ClearClothingCache`: every cached file in the custom clothing range is removed from the
      portal file cache, and the count returned is the number removed. */
  method ClearClothingCache<F>(portal: DatDatabase<F>) returns (count: uint32)
    requires portal.Valid()
    modifies portal
    ensures portal.Valid() && portal.allFiles == old(portal.allFiles)
    ensures portal.fileCache
         == map k | k in old(portal.fileCache) && !IsCustomClothingId(k) :: old(portal.fileCache)[k]
    ensures count as int == |old(portal.fileCache).Keys - portal.fileCache.Keys|
    ensures old(portal.fileCache).Keys - portal.fileCache.Keys
         == set k | k in old(portal.fileCache) && IsCustomClothingId(k)
  {
    count := 0;
    ghost var cache := portal.fileCache;
    var pending := portal.fileCache.Keys;
    ghost var removed: set<uint32> := {};
    while pending != {}
      invariant pending <= cache.Keys && removed <= cache.Keys - pending
      invariant forall k :: k in removed <==> k in cache && k !in pending && IsCustomClothingId(k)
      invariant portal.fileCache == cache - removed
      invariant count as int == |removed|
      invariant portal.allFiles == old(portal.allFiles)
      decreases pending
    {
      var key :| key in pending;
      if IsCustomClothingId(key) {
        CardinalityOfSubset(removed + {key}, cache.Keys);
        portal.fileCache := portal.fileCache - {key};
        removed := removed + {key};
        count := count + 1;
      }
      pending := pending - {key};
    }
    ClearedCache(cache, removed);
  }

  /** Removing exactly the custom clothing keys of a cache leaves the comprehension the
      contract of `ClearClothingCache` states. */
  lemma ClearedCache<F>(cache: map<uint32, F>, removed: set<uint32>)
    requires removed <= cache.Keys
    requires forall k :: k in removed <==> k in cache && IsCustomClothingId(k)
    ensures cache - removed == map k | k in cache && !IsCustomClothingId(k) :: cache[k]
    ensures cache.Keys - (cache - removed).Keys == removed
    ensures removed == set k | k in cache && IsCustomClothingId(k)
  {
  }

  lemma CardinalityOfSubset<T>(a: set<T>, b: set<T>)
    requires a <= b
    ensures |a| <= |b|
  {
    assert b == a + (b - a);
  }

  // ---------------------------------------------------------------------------------------
  // Lemmas

  /** The export command accepts the id in the form the JSON converter writes it. */
  lemma ExportIdFromConverterForm(v: uint32, rest: seq<string>)
    ensures ParseExportId([JsonConverters.Write(v)] + rest) == Some(v)
  {
    var arg := JsonConverters.Write(v);
    assert ([arg] + rest)[0] == arg;
    assert arg[..2] == "0x" && arg[2..] == FormatHex8(v);
    FormatHex8Parses(v);
  }

  /** The export command accepts the id as a plain decimal number. */
  lemma ExportIdFromDecimal(v: uint32, rest: seq<string>)
    ensures ParseExportId([FormatDecimal(v)] + rest) == Some(v)
  {
    var arg := FormatDecimal(v);
    assert ([arg] + rest)[0] == arg;
    assert |arg| >= 2 ==> arg[..2] != "0x" by {
      if |arg| >= 2 { assert IsUpperHexDigit(arg[1]) && arg[..2][1] == arg[1]; }
    }
    FormatDecimalParses(v);
  }

  /** Only a lower-case "0x" selects hex: "0X1F" is read as a decimal number and refused. */
  lemma ExportIdUpperCasePrefixRefused()
    ensures ParseExportId(["0X1F"]) == None
  {
    TrimWhiteNoop("0X1F");
    assert "0X1F"[..2][1] == 'X';
    assert !AllDigits("0X1F", 10) by { assert !IsHexDigit("0X1F"[1]); }
  }

  /** A NUL character after a hex argument is tolerated, as `uint.TryParse` tolerates it. */
  lemma ExportIdTrailingNul()
    ensures ParseExportId(["0x1F\0"]) == Some(0x1F)
  {
    assert "0x1F\0"[..2] == "0x" && "0x1F\0"[2..] == "1F\0";
    assert TrimStartWhite("1F\0") == "1F\0" && "1F\0"[..2] == "1F";
    assert TrimWhite("1F\0") == "1F";
    assert "1F"[..1] == "1" && "1"[..0] == [] && ValueIn("1F", 16) == 31;
  }
}

/** The mod's files: the JSON overrides under the content directory and the binary stubs under
    the stub directory, the names they are stored under, and the 16-byte stub record. */
module Storage {
  import opened Wrappers
  import opened Numbers
  import opened HexText

  /** The two directories of the mod: `ModDir/json` (ContentDir) and `ModDir/stub` (StubDir). */
  datatype Folder = ContentDir | StubDir

  datatype Path = Path(folder: Folder, name: string)

  /** `GetFilename`: the override of record `fileId` is `{fileId:X}.json` in the content
      directory: its upper-case hex digits, unpadded, then ".json". */
  function GetFilename(fileId: uint32): (p: Path)
    ensures p.folder == ContentDir
    ensures 6 <= |p.name| <= 13 && p.name[|p.name| - 5..] == ".json"
    ensures forall i :: 0 <= i < |p.name| - 5 ==> IsUpperHexDigit(p.name[i])
    ensures ParseHexNumber(p.name[..|p.name| - 5]) == Some(fileId)
    ensures p.name[0] == '0' ==> fileId == 0 && p.name == "0.json"
  {
    var digits := FormatHex(fileId);
    DigitsLength(fileId, 16, 8);
    FormatHexParses(fileId);
    assert (digits + ".json")[..|digits|] == digits;
    Path(ContentDir, digits + ".json")
  }

  /** The stub of record `fileId` is `{fileId:X8}.bin` in the stub directory: exactly eight
      upper-case hex digits, then ".bin". */
  function StubFilename(fileId: uint32): (p: Path)
    ensures p.folder == StubDir
    ensures |p.name| == 12 && p.name[8..] == ".bin"
    ensures forall i :: 0 <= i < 8 ==> IsUpperHexDigit(p.name[i])
    ensures ParseHexNumber(p.name[..8]) == Some(fileId)
  {
    FormatHex8Parses(fileId);
    assert (FormatHex8(fileId) + ".bin")[..8] == FormatHex8(fileId);
    Path(StubDir, FormatHex8(fileId) + ".bin")
  }

  /** The placeholder record `createStubClothingBase` writes: `int` NextAddress 0, `uint` id,
      `int` count of base effects 0, `int` count of sub-palette effects 0, each as four
      little-endian bytes. */
  function StubBytes(fileId: uint32): (b: seq<byte>)
    ensures |b| == 16
    ensures b[..4] == [0, 0, 0, 0] && b[8..] == [0, 0, 0, 0, 0, 0, 0, 0]
    ensures b[4..8] == UInt32Bytes(fileId) && UInt32FromBytes(b[4..8]) == fileId
  {
    UInt32BytesRoundTrip(fileId);
    Int32Bytes(0) + UInt32Bytes(fileId) + Int32Bytes(0) + Int32Bytes(0)
  }

  /** The file system as the mod sees it: the contents of every existing file. */
  class FileSystem {
    var files: map<Path, seq<byte>>

    constructor (files: map<Path, seq<byte>>)
      ensures this.files == files
    {
      this.files := files;
    }
  }

  /** `JsonFileExists`. */
  predicate JsonFileExists(fs: FileSystem, fileId: uint32)
    reads fs
  {
    GetFilename(fileId) in fs.files
  }

  /** How a write of a whole file ends. */
  datatype WriteFault =
    | NoFault                      // every byte is written
    | FailsBeforeOpen              // the exception comes before the file is opened
    | FailsAfterOpen(written: nat) // the file was created or truncated, and only its first
                                   // `written` bytes (at most) reached it before the exception

  /** The files after writing `content` to `path` with `FileMode.Create`, as `fault` says the
      write ended. */
  function WriteFile(files: map<Path, seq<byte>>, path: Path, content: seq<byte>, fault: WriteFault)
    : (r: map<Path, seq<byte>>)
    ensures fault.FailsBeforeOpen? ==> r == files
    ensures !fault.FailsBeforeOpen? ==>
              && r.Keys == files.Keys + {path}
              && (forall q :: q in files && q != path ==> r[q] == files[q])
              && r[path] <= content
    ensures fault.NoFault? ==> r[path] == content
    ensures fault.FailsAfterOpen? ==> |r[path]| <= fault.written
  {
    match fault
    case NoFault => files[path := content]
    case FailsBeforeOpen => files
    case FailsAfterOpen(n) => files[path := content[..if n < |content| then n else |content|]]
  }

  /** `createStubClothingBase`: when the stub already exists, succeed without writing;
      otherwise write the four fields of the stub one after the other and succeed, or fail
      when the write throws, leaving what `fault` says of the stub file behind. */
  method CreateStubClothingBase(fs: FileSystem, fileId: uint32, fault: WriteFault) returns (ok: bool)
    modifies fs
    ensures ok <==> StubFilename(fileId) in old(fs.files) || fault.NoFault?
    ensures fs.files == if StubFilename(fileId) in old(fs.files) then old(fs.files)
                        else WriteFile(old(fs.files), StubFilename(fileId), StubBytes(fileId), fault)
  {
    var stubFilename := StubFilename(fileId);
    if stubFilename in fs.files {
      return true;
    }
    var written: seq<byte> := [];
    written := written + Int32Bytes(0);        // NextAddress: a dat block starts with it
    written := written + UInt32Bytes(fileId);
    written := written + Int32Bytes(0);        // number of ClothingBaseEffects
    written := written + Int32Bytes(0);        // number of ClothingSubPalEffects
    assert written == StubBytes(fileId);
    fs.files := WriteFile(fs.files, stubFilename, written, fault);
    return fault.NoFault?;
  }

  /** Creating the stub twice writes at most once: once the first call has succeeded, the
      second succeeds too, whatever its own write would have done, and changes nothing. A
      first call that failed after opening the file leaves a truncated stub, which the second
      call takes for a complete one. */
  method CreateStubTwice(fs: FileSystem, fileId: uint32, first: WriteFault, second: WriteFault)
    returns (ok1: bool, ok2: bool)
    modifies fs
    ensures ok1 ==> ok2
    ensures ok1 ==> fs.files == if StubFilename(fileId) in old(fs.files) then old(fs.files)
                               else old(fs.files)[StubFilename(fileId) := StubBytes(fileId)]
    ensures StubFilename(fileId) !in old(fs.files) && first.FailsAfterOpen? ==>
              && !ok1 && ok2
              && fs.files == WriteFile(old(fs.files), StubFilename(fileId), StubBytes(fileId), first)
  {
    ok1 := CreateStubClothingBase(fs, fileId, first);
    ok2 := CreateStubClothingBase(fs, fileId, second);
  }

  // ---------------------------------------------------------------------------------------
  // Lemmas

  /** Different records never share an override file. */
  lemma GetFilenameInjective(a: uint32, b: uint32)
    ensures GetFilename(a) == GetFilename(b) ==> a == b
  {
  }

  /** Different records never share a stub file. */
  lemma StubFilenameInjective(a: uint32, b: uint32)
    ensures StubFilename(a) == StubFilename(b) ==> a == b
  {
  }

  /** The stub of the worked example 0x10ABCDEF. */
  lemma StubBytesExample()
    ensures StubBytes(0x10AB_CDEF) == [0, 0, 0, 0, 0xEF, 0xCD, 0xAB, 0x10, 0, 0, 0, 0, 0, 0, 0, 0]
  {
  }
}

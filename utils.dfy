/**
 * The payload utilities of the injector: the ELF check, the buffer that the
 * diagnostic hex dump renders, staging the payload into the directory the
 * target app can load from, and the two external fixers (security context
 * and read permission).
 *
 * The file system is a map from path strings to byte sequences. Everything
 * the map cannot say is a parameter: the offset at which the storage reports
 * a read error (`faultAt`), whether a copy fails for reasons outside the map
 * (`copyFault`), the result of path canonicalisation (`canonicalize`) and the
 * outcome of launching an external command (`launch`).
 */
module Utils {
  import opened Injection
  import opened Paths

  const HexdumpBufferSize: nat := 0x200
  const TmpDirPath: string := "/data/local/tmp"
  /** The ELF identification bytes: 0x7f followed by 'E', 'L', 'F'. */
  const ElfMagic: seq<bv8> := [0x7f, 0x45, 0x4c, 0x46]
  /** The SELinux context under which `dlopen` accepts a file. */
  const ApkDataFileContext: string := "u:object_r:apk_data_file:s0"

  type FileMap = map<string, seq<bv8>>

  function Min(a: nat, b: nat): nat {
    if a <= b then a else b
  }

  // ---------------------------------------------------------------------------
  // Reading

  /**
   * An open file: the bytes it delivers and, when `faultAt` is `Some(k)`, the
   * offset at which a read reports an I/O error other than end of file.
   */
  datatype OpenFile = OpenFile(contents: seq<bv8>, faultAt: Option<nat>)

  /** `File::open`: succeeds exactly for the paths the file system holds. */
  function Open(files: FileMap, path: string, faultAt: Option<nat>): (f: Option<OpenFile>)
    ensures f.Some? <==> path in files
    ensures f.Some? ==> f.value.contents == files[path] && f.value.faultAt == faultAt
  {
    if path in files then Some(OpenFile(files[path], faultAt)) else None
  }

  /**
   * `Read::take`: the adapter yields at most `limit` bytes and reports end of
   * file once they are used up, without reading on into the file.
   */
  function Take(f: OpenFile, limit: nat): (t: OpenFile)
    ensures |t.contents| <= limit && t.contents <= f.contents
    ensures |t.contents| == limit || t.contents == f.contents
    ensures t.faultAt.Some? ==> t.faultAt == f.faultAt && t.faultAt.value < limit
    ensures f.faultAt.Some? && f.faultAt.value < limit ==> t.faultAt == f.faultAt
  {
    OpenFile(f.contents[..Min(limit, |f.contents|)],
             if f.faultAt.Some? && f.faultAt.value < limit then f.faultAt else None)
  }

  /** How `read_exact` ends: buffer full, `UnexpectedEof`, or any other error kind. */
  datatype ReadStatus = Filled | UnexpectedEof | OtherError

  /** How many bytes `read_exact` stores when asked for `n`, before it stops. */
  function Delivered(f: OpenFile, n: nat): (d: nat)
    ensures d <= n && d <= |f.contents|
  {
    var d := Min(n, |f.contents|);
    if f.faultAt.Some? && f.faultAt.value < d then f.faultAt.value else d
  }

  function ReadExactStatus(f: OpenFile, n: nat): (s: ReadStatus)
    ensures s == Filled <==> n <= |f.contents| && (f.faultAt.None? || n <= f.faultAt.value)
    ensures s == OtherError <==> f.faultAt.Some? && f.faultAt.value < n && f.faultAt.value <= |f.contents|
  {
    var d := Delivered(f, n);
    if d == n then Filled
    else if f.faultAt == Some(d) then OtherError
    else UnexpectedEof
  }

  /**
   * Reading at most `limit` bytes through `Take` ends as reading the file
   * itself would, and asking for more than `limit` never fills the buffer.
   */
  lemma TakeReadsLikeFile(f: OpenFile, limit: nat, n: nat)
    ensures n <= limit ==> Delivered(Take(f, limit), n) == Delivered(f, n)
    ensures n <= limit ==> ReadExactStatus(Take(f, limit), n) == ReadExactStatus(f, n)
    ensures n > limit ==> ReadExactStatus(Take(f, limit), n) != Filled
  {
  }

  /**
   * `Read::read_exact`: fills `buf` from the start of the file, one byte at a
   * time, until it is full, the file ends or the read fails. The bytes read
   * before stopping stay in the buffer and the rest keeps its old contents.
   */
  method ReadExact(f: OpenFile, buf: array<bv8>) returns (status: ReadStatus)
    modifies buf
    ensures status == ReadExactStatus(f, buf.Length)
    ensures var d := Delivered(f, buf.Length);
      buf[..d] == f.contents[..d] && buf[d..] == old(buf[d..])
  {
    var i := 0;
    while i < buf.Length
      invariant i <= buf.Length && i <= |f.contents|
      invariant f.faultAt.Some? ==> i <= f.faultAt.value
      invariant buf[..i] == f.contents[..i] && buf[i..] == old(buf[i..])
    {
      if f.faultAt == Some(i) {
        return OtherError;
      }
      if i == |f.contents| {
        return UnexpectedEof;
      }
      buf[i] := f.contents[i];
      i := i + 1;
    }
    return Filled;
  }

  // ---------------------------------------------------------------------------
  // ELF check

  /**
   * `verify_elf_file`: succeeds exactly when the file opens and its first four
   * bytes read back as the ELF magic; every failure is a `FileError`.
   */
  method VerifyElfFile(files: FileMap, filePath: string, faultAt: Option<nat>) returns (r: Result<()>)
    ensures r.Ok? <==> filePath in files && |files[filePath]| >= 4 && files[filePath][..4] == ElfMagic
                       && (faultAt.None? || faultAt.value >= 4)
    ensures r.Err? ==> r.error == FileError
  {
    var file := Open(files, filePath, faultAt);
    if file.None? {
      return Err(FileError);
    }
    var magic := new bv8[4](_ => 0);
    var status := ReadExact(Take(file.value, 4), magic);
    if status != Filled {
      return Err(FileError);
    }
    assert magic[..] == files[filePath][..4];
    if magic[..] != ElfMagic {
      return Err(FileError);
    }
    return Ok(());
  }

  // ---------------------------------------------------------------------------
  // Hex dump

  function Zeros(n: nat): (z: seq<bv8>)
    ensures |z| == n
  {
    seq(n, _ => 0)
  }

  /**
   * The buffer `print_file_hexdump` hands to the hex dumper: the first
   * `HexdumpBufferSize` bytes of the file, zero-padded when the file is
   * shorter. End of file is not an error; any other read error is.
   */
  function HexdumpBuffer(f: OpenFile): (r: Result<seq<bv8>>)
    ensures r.Err? <==> f.faultAt.Some? && f.faultAt.value < HexdumpBufferSize && f.faultAt.value <= |f.contents|
    ensures r.Err? ==> r.error == FileError
    ensures r.Ok? ==> |r.value| == HexdumpBufferSize
    ensures r.Ok? ==> var k := Min(HexdumpBufferSize, |f.contents|);
      r.value[..k] == f.contents[..k] && forall i :: k <= i < HexdumpBufferSize ==> r.value[i] == 0
  {
    if ReadExactStatus(f, HexdumpBufferSize) == OtherError then Err(FileError)
    else
      var d := Delivered(f, HexdumpBufferSize);
      Ok(f.contents[..d] + Zeros(HexdumpBufferSize - d))
  }

  /**
   * `print_file_hexdump`, up to the rendering: opens the file and fills a
   * zeroed 512-byte buffer from it; `Ok` carries the buffer that is dumped.
   */
  method PrintFileHexdump(files: FileMap, filePath: string, faultAt: Option<nat>) returns (r: Result<seq<bv8>>)
    ensures filePath !in files ==> r == Err(FileError)
    ensures filePath in files ==> r == HexdumpBuffer(OpenFile(files[filePath], faultAt))
  {
    var file := Open(files, filePath, faultAt);
    if file.None? {
      return Err(FileError);
    }
    var inBuffer := new bv8[HexdumpBufferSize](_ => 0);
    var status := ReadExact(file.value, inBuffer);
    if status == OtherError {
      return Err(FileError);
    }
    var d := Delivered(file.value, HexdumpBufferSize);
    assert inBuffer[..] == inBuffer[..d] + inBuffer[d..];
    assert inBuffer[d..] == Zeros(HexdumpBufferSize - d);
    return Ok(inBuffer[..]);
  }

  /** Two files that agree on their first 512 bytes are dumped alike. */
  lemma HexdumpDependsOnPrefixOnly(f: OpenFile, g: OpenFile)
    requires Take(f, HexdumpBufferSize).contents == Take(g, HexdumpBufferSize).contents
    requires f.faultAt == g.faultAt
    ensures HexdumpBuffer(f) == HexdumpBuffer(g)
  {
    var k := Min(HexdumpBufferSize, |f.contents|);
    assert k == Min(HexdumpBufferSize, |g.contents|);
    var bf, bg := HexdumpBuffer(f), HexdumpBuffer(g);
    if bf.Ok? {
      assert bf.value[..k] == bg.value[..k];
      assert bf.value == bg.value by {
        forall i | 0 <= i < HexdumpBufferSize ensures bf.value[i] == bg.value[i] {
          if i < k {
            assert bf.value[i] == bf.value[..k][i] && bg.value[i] == bg.value[..k][i];
          }
        }
      }
    }
  }

  /** A short file that reads without error is dumped as its bytes followed by zeros. */
  lemma HexdumpShortFile(f: OpenFile)
    requires |f.contents| < HexdumpBufferSize && f.faultAt.None?
    ensures HexdumpBuffer(f) == Ok(f.contents + Zeros(HexdumpBufferSize - |f.contents|))
  {
    var b := HexdumpBuffer(f).value;
    var n := |f.contents|;
    assert b[..n] == f.contents;
    assert b[n..] == Zeros(HexdumpBufferSize - n);
    assert b == b[..n] + b[n..];
  }

  // ---------------------------------------------------------------------------
  // Staging

  /** The outcome of staging: the result handed back and the file system afterwards. */
  datatype Staged = Staged(result: Result<string>, files: FileMap)

  /**
   * What staging relies on in its target directory: an absolute path without
   * a trailing separator whose last component is a name.
   */
  predicate IsStagingDir(dir: string) {
    IsAbsolute(dir) && dir[|dir| - 1] != '/' && FileName(dir).Some?
  }

  /** `/data/local/tmp` is such a directory. */
  lemma TmpDirIsStagingDir()
    ensures IsStagingDir(TmpDirPath)
  {
    FileNameOfChild(TmpDirPath, "/data/local", "tmp");
  }

  /**
   * `copy_file_to_tmp` with `stagingDir` for `TMP_DIR_PATH`: canonicalise;
   * keep a path already inside the staging directory; otherwise copy the
   * file, read through the path as given, into the staging directory under
   * its final component.
   */
  function Stage(stagingDir: string, files: FileMap, filePath: string, canonicalize: map<string, string>,
                 copyFault: bool): (s: Staged)
    requires IsStagingDir(stagingDir)
    ensures filePath !in canonicalize ==> s == Staged(Err(FileError), files)
    ensures s.result.Err? ==> s.result.error == FileError && s.files == files
    ensures s.result.Ok? ==> StartsWith(s.result.value, stagingDir)
    ensures s.files == files
            || (s.result.Ok? && filePath in files && s.files == files[s.result.value := files[filePath]])
  {
    if filePath !in canonicalize then Staged(Err(FileError), files)
    else
      var absolute := canonicalize[filePath];
      if StartsWith(absolute, stagingDir) then Staged(Ok(absolute), files)
      else match FileName(absolute)
        case None => Staged(Err(FileError), files)
        case Some(name) =>
          JoinName(stagingDir, name);
          var destination := Join(stagingDir, name);
          if filePath in files && !copyFault then Staged(Ok(destination), files[destination := files[filePath]])
          else Staged(Err(FileError), files)
  }

  /** The file system the staging code works on. */
  class FileSystem {
    var files: FileMap

    constructor (files: FileMap)
      ensures this.files == files
    {
      this.files := files;
    }

    /**
     * `std::fs::copy`: replaces or creates `to` with the bytes of `from`.
     * It fails when `from` does not exist or when `copyFault` says the
     * storage refused (permissions, space); a failed copy changes nothing.
     */
    method Copy(from: string, to: string, copyFault: bool) returns (ok: bool)
      modifies this
      ensures ok <==> from in old(files) && !copyFault
      ensures files == if ok then old(files)[to := old(files)[from]] else old(files)
    {
      if from in files && !copyFault {
        files := files[to := files[from]];
        ok := true;
      } else {
        ok := false;
      }
    }

    /** `copy_file_to_tmp` on this file system, staging into `/data/local/tmp`. */
    method CopyFileToTmp(filePath: string, canonicalize: map<string, string>, copyFault: bool) returns (r: Result<string>)
      modifies this
      ensures IsStagingDir(TmpDirPath)
              && Staged(r, files) == Stage(TmpDirPath, old(files), filePath, canonicalize, copyFault)
    {
      TmpDirIsStagingDir();
      if filePath !in canonicalize {
        return Err(FileError);
      }
      var absolute := canonicalize[filePath];
      if StartsWith(absolute, TmpDirPath) {
        return Ok(absolute);
      }
      var fileName := FileName(absolute);
      if fileName.None? {
        return Err(FileError);
      }
      var tmpFilePath := Join(TmpDirPath, fileName.value);
      var copied := Copy(filePath, tmpFilePath, copyFault);
      if copied {
        return Ok(tmpFilePath);
      }
      return Err(FileError);
    }
  }

  /** A canonical path already inside the staging directory is returned as it is, with no copy. */
  lemma StageFastPath(stagingDir: string, files: FileMap, filePath: string, canonicalize: map<string, string>,
                      copyFault: bool)
    requires IsStagingDir(stagingDir)
    requires filePath in canonicalize && StartsWith(canonicalize[filePath], stagingDir)
    ensures Stage(stagingDir, files, filePath, canonicalize, copyFault) == Staged(Ok(canonicalize[filePath]), files)
  {
  }

  /** The fast path covers files at every depth below the staging directory. */
  lemma StageNestedInStagingDir(stagingDir: string, files: FileMap, filePath: string,
                                canonicalize: map<string, string>, copyFault: bool, rest: string)
    requires IsStagingDir(stagingDir)
    requires filePath in canonicalize && canonicalize[filePath] == stagingDir + "/" + rest
    ensures Stage(stagingDir, files, filePath, canonicalize, copyFault) == Staged(Ok(stagingDir + "/" + rest), files)
  {
    ChildStartsWith(stagingDir, rest);
  }

  /**
   * Staging from outside puts a byte-identical copy of the file, read via the
   * path as given, directly in the staging directory under its final name,
   * and changes no other entry.
   */
  lemma StageCopies(stagingDir: string, files: FileMap, filePath: string, canonicalize: map<string, string>,
                    name: string)
    requires IsStagingDir(stagingDir)
    requires filePath in canonicalize && !StartsWith(canonicalize[filePath], stagingDir)
    requires FileName(canonicalize[filePath]) == Some(name)
    requires filePath in files
    ensures var s := Stage(stagingDir, files, filePath, canonicalize, false);
      var destination := stagingDir + "/" + name;
      && s.result == Ok(destination)
      && FileName(destination) == Some(name)
      && s.files.Keys == files.Keys + {destination}
      && s.files[destination] == files[filePath]
      && forall p :: p in files && p != destination ==> s.files[p] == files[p]
  {
    JoinName(stagingDir, name);
  }

  /**
   * A copy that fails, because the storage refuses or because `file_path`
   * names no file, leaves the file system as it was and reports a `FileError`.
   */
  lemma StageCopyFails(stagingDir: string, files: FileMap, filePath: string, canonicalize: map<string, string>,
                       copyFault: bool)
    requires IsStagingDir(stagingDir)
    requires filePath in canonicalize && !StartsWith(canonicalize[filePath], stagingDir)
    requires copyFault || filePath !in files
    ensures Stage(stagingDir, files, filePath, canonicalize, copyFault) == Staged(Err(FileError), files)
  {
  }

  /** `fs::canonicalize` resolves only paths that exist. */
  predicate CanonicalizesOnlyExisting(files: FileMap, canonicalize: map<string, string>) {
    forall p :: p in canonicalize ==> p in files
  }

  /**
   * Where canonicalisation resolves only existing paths, staging a path the
   * file system does not hold fails with `FileError` and changes nothing.
   */
  lemma StageNonexistentFails(stagingDir: string, files: FileMap, filePath: string,
                              canonicalize: map<string, string>, copyFault: bool)
    requires IsStagingDir(stagingDir) && CanonicalizesOnlyExisting(files, canonicalize)
    requires filePath !in files
    ensures Stage(stagingDir, files, filePath, canonicalize, copyFault) == Staged(Err(FileError), files)
  {
  }

  /** The root directory has no final component, so staging it fails. */
  lemma StageRootFails(stagingDir: string, files: FileMap, filePath: string, canonicalize: map<string, string>,
                       copyFault: bool)
    requires IsStagingDir(stagingDir)
    requires filePath in canonicalize && canonicalize[filePath] == "/"
    ensures Stage(stagingDir, files, filePath, canonicalize, copyFault) == Staged(Err(FileError), files)
  {
    RootIsNotInside(stagingDir);
  }

  /**
   * Staging is idempotent: staging the path that staging returned again
   * (which canonicalises to itself) takes the fast path and changes nothing.
   */
  lemma StageIdempotent(stagingDir: string, files: FileMap, filePath: string, canonicalize: map<string, string>,
                        copyFault: bool, canonicalize': map<string, string>, copyFault': bool)
    requires IsStagingDir(stagingDir)
    requires Stage(stagingDir, files, filePath, canonicalize, copyFault).result.Ok?
    requires var staged := Stage(stagingDir, files, filePath, canonicalize, copyFault).result.value;
      staged in canonicalize' && canonicalize'[staged] == staged
    ensures var s := Stage(stagingDir, files, filePath, canonicalize, copyFault);
      Stage(stagingDir, s.files, s.result.value, canonicalize', copyFault') == s
  {
  }

  /**
   * `starts_with` compares whole components: a file in a sibling directory
   * whose name merely begins like the staging directory's (`/data/local/tmpx`
   * beside `/data/local/tmp`) is outside it, and staging copies it.
   */
  lemma StageSiblingOfStagingDir(stagingDir: string, parent: string, last: string, files: FileMap, filePath: string,
                                 canonicalize: map<string, string>, sibling: string, name: string)
    requires IsAbsolute(parent) && IsNormalName(last) && stagingDir == parent + "/" + last
    requires IsNormalName(sibling) && sibling != last && IsNormalName(name)
    requires filePath in canonicalize && canonicalize[filePath] == parent + "/" + sibling + "/" + name
    requires filePath in files
    ensures IsStagingDir(stagingDir)
    ensures Stage(stagingDir, files, filePath, canonicalize, false)
            == Staged(Ok(stagingDir + "/" + name), files[stagingDir + "/" + name := files[filePath]])
  {
    FileNameOfChild(stagingDir, parent, last);
    SiblingIsNotInside(canonicalize[filePath], parent, sibling, last, name);
    FileNameOfChild(canonicalize[filePath], parent + "/" + sibling, name);
    StageCopies(stagingDir, files, filePath, canonicalize, name);
  }

  // ---------------------------------------------------------------------------
  // External fixers

  /** What launching an external command can come to. */
  datatype CommandOutcome = LaunchFailed | Exited(success: bool)

  /** The fixers' status mapping: only a launched command that exits successfully is `Ok`. */
  function CommandResult(outcome: CommandOutcome): (r: Result<()>)
    ensures r.Ok? <==> outcome == Exited(true)
    ensures r.Err? ==> r.error == CommandError
  {
    match outcome
    case LaunchFailed => Err(CommandError)
    case Exited(success) => if success then Ok(()) else Err(CommandError)
  }

  /** `fix_file_context`: relabels the file with `chcon` to the app data context. */
  function FixFileContext(launch: seq<string> -> CommandOutcome, filePath: string): (r: Result<()>)
    ensures r.Ok? <==> launch(["chcon", "u:object_r:apk_data_file:s0", filePath]) == Exited(true)
    ensures r.Err? ==> r.error == CommandError
  {
    CommandResult(launch(["chcon", ApkDataFileContext, filePath]))
  }

  /** `fix_file_permissions`: adds read permission with `chmod +r`. */
  function FixFilePermissions(launch: seq<string> -> CommandOutcome, filePath: string): (r: Result<()>)
    ensures r.Ok? <==> launch(["chmod", "+r", filePath]) == Exited(true)
    ensures r.Err? ==> r.error == CommandError
  {
    CommandResult(launch(["chmod", "+r", filePath]))
  }
}

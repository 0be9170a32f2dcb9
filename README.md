# Payload preparation utilities of linjector-rs, in Dafny

linjector-rs injects a shared library into a running Android process. Before
the library can be `dlopen`ed by the target, `src/utils.rs` checks that it is
an ELF file, can dump its first 512 bytes for diagnostics, stages it into
`/data/local/tmp`, and fixes its SELinux context (`chcon`) and read
permission (`chmod +r`). This project models that file and proves what it
promises.

Layout:

- `injection.dfy` (module `Injection`): the crate's two-kind `InjectionError`
  (`FileError`, `CommandError`), `Result<T>` standing for Rust's
  `Result<T, InjectionError>`, and `Option<T>`.
- `paths.dfy` (module `Paths`): the Unix behaviour of Rust's `std::path` that
  the staging code depends on: `components()` (root, `.`, `..`, repeated and
  trailing separators), the component-wise `starts_with`, `file_name` and
  `join`, and lemmas about paths below an absolute directory.
- `utils.dfy` (module `Utils`): the constants; a reader model (`OpenFile`,
  `Take`, the in-place `ReadExact` loop over an `array<bv8>`); `VerifyElfFile`;
  the hex-dump buffer fill (`HexdumpBuffer`, `PrintFileHexdump`); staging as a
  `FileSystem` class whose `files: map<string, seq<bv8>>` field `Copy` and
  `CopyFileToTmp` update, specified by the function `Stage`; and the fixers
  `FixFileContext` / `FixFilePermissions` over an abstract command launcher.

How the environment is represented:

- The file system is `files: map<string, seq<bv8>>`. Opening a path succeeds
  exactly when the map holds it.
- A read error other than end of file is the parameter `faultAt`: when it is
  `Some(k)`, reading the byte at offset `k` fails.
- `canonicalize` is a given partial function (`map<string, string>`). A path
  outside its domain fails to canonicalise.
- `copyFault` says that `std::fs::copy` fails for a reason outside the map,
  such as permissions or disk space.
- `launch` maps an argument vector to `LaunchFailed` or `Exited(success)`.
- `Stage` and the lemmas about it take the staging directory as a parameter
  `stagingDir`, which must be absolute, lack a trailing separator and end in a
  name. `CopyFileToTmp` passes the source's `/data/local/tmp`, and
  `TmpDirIsStagingDir` shows that it qualifies.

Where the source's comments and its code differ, or where the behaviour of
`std::path` is easy to misread, the model follows the code:

- `Path::starts_with` compares whole components, not characters, so
  `/data/local/tmpx/a.so` is outside `/data/local/tmp`.
- The comment at src/utils.rs:140 speaks of executable permission, but the
  command adds read permission (`+r`).
- The comment at src/utils.rs:77 names `/dev/local/tmp`, but the code tests
  `/data/local/tmp`.

## Model

| member | source | states |
|---|---|---|
| Paths.Components | src/utils.rs:78 | a path has a leading root component exactly when it is absolute; the components are what Rust's Unix `components()` yields |
| Paths.FileName | src/utils.rs:83-89 | a file name, when there is one, is a normal name: non-empty, not `.` or `..`, and free of separators |
| Paths.ChildStartsWith | src/utils.rs:77-81 | every path nested below an absolute directory, at any depth, component-wise starts with that directory |
| Paths.SiblingIsNotInside | src/utils.rs:78 | a path whose component below `base` is a different name (even a longer one such as `tmpx` against `tmp`) does not start with `base/other` |
| Paths.RootComponents | src/utils.rs:83-89 | `/` is a root component alone and has no file name |
| Paths.RootIsNotInside | src/utils.rs:78 | `/` does not start with any absolute path that ends in a name |
| Paths.StartsWith | src/utils.rs:78 | `Path::starts_with`: every path starts with itself, and a path that starts with an absolute base is itself absolute |
| Paths.StartsWithTransitive | src/utils.rs:78 | a path inside a directory that is itself inside `base` is inside `base` |
| Paths.Join | src/utils.rs:92-93 | `Path::join`: an absolute argument replaces the base; a relative one is appended to the base, after a separator exactly when the base is non-empty and does not already end in one |
| Paths.JoinName | src/utils.rs:92-97 | joining a file name onto the staging directory gives `dir/name`, whose components are the directory's plus the name, whose file name is that name, and which starts with the directory |
| Paths.FileNameOfChild | src/utils.rs:83-89 | the file name of `base/name` is `name` |
| Paths.UnsplitSplit | src/utils.rs:78 | splitting a path at its separators and re-joining the pieces gives the path back |
| Paths.SplitUnsplit | src/utils.rs:78 | joining separator-free pieces and splitting again gives the pieces back |
| Utils.Open | src/utils.rs:10-16 | `File::open` succeeds exactly for the paths the file system holds, and the open file delivers that path's bytes |
| Utils.Take | src/utils.rs:49 | `Read::take` yields a prefix of the file of at most `limit` bytes (all of it when shorter), and keeps only a fault that lies before `limit` |
| Utils.TakeReadsLikeFile | src/utils.rs:49 | reading at most `limit` bytes through `take` stores the same bytes and ends with the same status as reading the file itself; asking for more never fills the buffer |
| Utils.ReadExactStatus | src/utils.rs:21-31 | `read_exact` fills the buffer exactly when the file has enough bytes and no fault comes first; it fails with an error other than end of file exactly when a fault is reached before the buffer is full and no later than end of file |
| Utils.ReadExact | src/utils.rs:21 | the loop stores the bytes read before it stops at the front of the buffer, leaves the rest of the buffer as it was, and reports the status `ReadExactStatus` gives |
| Utils.VerifyElfFile | src/utils.rs:39-63 | `Ok` exactly when the file opens, has at least 4 bytes, its first four bytes are `7f 45 4c 46` and no read fault comes within them; every failure, including open failure, is `FileError`; later bytes never matter |
| Utils.HexdumpBuffer | src/utils.rs:18-31 | the buffer is always 512 bytes; it starts with the file's first `min(512, length)` bytes and the rest is zero; end of file is not an error; a read fault before 512 bytes and no later than end of file is `FileError` |
| Utils.PrintFileHexdump | src/utils.rs:9-37 | open failure gives `FileError`; otherwise the result is the zero-initialised 512-byte buffer filled in place, as `HexdumpBuffer` describes |
| Utils.HexdumpDependsOnPrefixOnly | src/utils.rs:18-21 | two files that agree on their first 512 bytes, with the same fault, give the same buffer |
| Utils.HexdumpShortFile | src/utils.rs:21-31 | a file shorter than 512 bytes that reads without fault gives `Ok`: its bytes followed by zeros |
| Utils.TmpDirIsStagingDir | src/utils.rs:7 | `/data/local/tmp` is absolute, has no trailing separator and ends in a name, which is all staging relies on in its target directory |
| Utils.Stage | src/utils.rs:65-110 | a path that fails to canonicalise gives `FileError` and changes nothing; staging never yields `CommandError`; a failure leaves the file system unchanged; a success is a path inside the staging directory; the only possible change to the file system is that the returned path receives the bytes of `file_path` as given |
| Utils.FileSystem.Copy | src/utils.rs:100-109 | `std::fs::copy` succeeds exactly when the source exists and the storage does not refuse; on success the destination holds the source's bytes, and otherwise nothing changes |
| Utils.FileSystem.CopyFileToTmp | src/utils.rs:65-110 | the returned result and the new file system are those `Stage` gives for `/data/local/tmp` and the old file system |
| Utils.StageFastPath | src/utils.rs:77-81 | a canonical path already inside the staging directory is returned unchanged, with the file system untouched |
| Utils.StageNestedInStagingDir | src/utils.rs:77-81 | the fast path holds for files nested at any depth below the staging directory |
| Utils.StageCopies | src/utils.rs:83-103 | outside the staging directory, a successful staging returns `<staging directory>/<name>`, that path holds a byte-identical copy of the file read through `file_path` as given, and every other entry is unchanged |
| Utils.StageCopyFails | src/utils.rs:100-108 | a copy that fails, because the storage refuses or because `file_path` names no file, gives `FileError` and leaves the file system as it was |
| Utils.StageNonexistentFails | src/utils.rs:65-73 | when canonicalisation resolves only existing paths, staging a path the file system does not hold gives `FileError` and changes nothing |
| Utils.StageRootFails | src/utils.rs:83-89 | a canonical path with no final component (`/`) gives `FileError` and changes nothing |
| Utils.StageIdempotent | src/utils.rs:77-103 | staging the returned path again, when it canonicalises to itself, takes the fast path: same path, no change to the file system |
| Utils.StageSiblingOfStagingDir | src/utils.rs:78-103 | a file in a sibling directory of the staging directory, even one whose name extends it (`/data/local/tmpx` beside `/data/local/tmp`), is copied into the staging directory under its own name |
| Utils.CommandResult | src/utils.rs:120-135 | `Ok` exactly when the command launched and exited successfully; launch failure and failing status are both `CommandError` |
| Utils.FixFileContext | src/utils.rs:112-137 | `Ok` exactly when launching `["chcon", "u:object_r:apk_data_file:s0", path]` exits successfully, otherwise `CommandError` |
| Utils.FixFilePermissions | src/utils.rs:139-164 | `Ok` exactly when launching `["chmod", "+r", path]` exits successfully, otherwise `CommandError` |

## Left out

- Utils.PrintFileHexdump: the text rendered by `hxdmp::hexdump`, its `unwrap`, and the `debug!` output are not modelled. On success the model returns the 512-byte buffer handed to the renderer, where the code returns `Ok(())`.
- Logging (`error!`, `info!`, `debug!`), `String::from_utf8_lossy`, and the `to_str().unwrap()` panics on non-UTF-8 paths are not modelled. Paths are strings.
- Utils.Stage: `canonicalize` is a separate parameter, so `Stage` itself does not promise that a path missing from the file system fails. Real `fs::canonicalize` fails for such a path; `StageNonexistentFails` proves that staging then fails under the hypothesis `CanonicalizesOnlyExisting`.
- Utils.StageCopies: the file system is keyed by path spelling. Two strings that name the same file, such as `dir//name` and `dir/name`, `dir/./name`, a relative path and its absolute form, or two hard links, are separate entries. So "every other entry is unchanged" holds for every other spelling, not for every other file: another spelling of the destination keeps its old bytes in the model.
- Real canonicalisation (symbolic links, `..` resolution, the requirement that the file exist) is a given partial map. Symbolic links are therefore not modelled. This includes a `file_path` that is itself a link at the destination, which `std::fs::copy` would truncate.
- Any reason a file cannot be opened (permission denied, for example) is modelled as the path being absent from the map.
- Utils.FileSystem.Copy: a copy that fails after truncating the destination is not modelled; a failed copy changes nothing. Copying mode bits is not modelled either.
- Utils.ReadExact: the retry on `ErrorKind::Interrupted` and the chunk sizes of the underlying reads are not modelled. Reading is byte by byte with one optional fault offset. After `UnexpectedEof`, Rust leaves the buffer "unspecified"; the model keeps the bytes read so far and the zeros after them, as the standard implementation does.
- Process spawning, capture of `stderr`, and the real effects of `chcon` and `chmod` on SELinux labels and mode bits are not modelled. A command is its argument vector and a launch outcome.
- Windows path prefixes are not modelled. `std::path` is modelled for Unix only.
- Concurrent staging of two files with the same base name is the caller's responsibility, so it is not modelled.

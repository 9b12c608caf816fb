/** The slice of the file system the key code touches: files by path, each
    holding key material and a permission mode. `Path.write_bytes` replaces a
    file's contents and keeps its mode, and a file it creates gets the
    process's creation mode (0o666 under the umask); `os.chmod` sets the mode. */
module FileStore {
  import opened Base
  import opened Crypto

  /** A path as text; `PathJoin` is pathlib's `/` operator. */
  type Path = string

  function PathJoin(dir: Path, file: string): (p: Path)
    ensures |p| == |dir| + 1 + |file| && p[..|dir|] == dir && p[|dir|] == '/' && p[|dir| + 1..] == file
  {
    dir + "/" + file
  }

  /** What a key file holds: PEM text is modelled by the key it encodes. */
  datatype FileContent =
    | PrivateKeyPem(seed: Seed)
    | PublicKeyPem(key: PublicKey)
    | OtherBytes(data: seq<byte>)

  datatype FileEntry = FileEntry(content: FileContent, mode: nat)

  type Files = map<Path, FileEntry>

  /** The owner read-write mode `0o600` of signing keys. */
  const OwnerReadWrite: nat := 0x180
  /** The owner read-only mode `0o400` of recovery keys. */
  const OwnerReadOnly: nat := 0x100

  /** `write_bytes`: new contents, the old mode when the file exists. */
  function Written(files: Files, creationMode: nat, p: Path, c: FileContent): (r: Files)
    ensures p in r && r[p].content == c
    ensures r[p].mode == if p in files then files[p].mode else creationMode
    ensures r.Keys == files.Keys + {p}
    ensures forall q :: q in files && q != p ==> r[q] == files[q]
  {
    files[p := FileEntry(c, if p in files then files[p].mode else creationMode)]
  }

  /** `os.chmod` on an existing file: the mode changes, the contents do not. */
  function Chmodded(files: Files, p: Path, mode: nat): (r: Files)
    requires p in files
    ensures r.Keys == files.Keys
    ensures r[p] == FileEntry(files[p].content, mode)
    ensures forall q :: q in files && q != p ==> r[q] == files[q]
  {
    files[p := FileEntry(files[p].content, mode)]
  }

  class FileSystem {
    var files: Files
    const creationMode: nat

    constructor(files: Files, creationMode: nat)
      ensures this.files == files && this.creationMode == creationMode
    {
      this.files := files;
      this.creationMode := creationMode;
    }

    /** `Path.exists`. */
    function Exists(p: Path): (b: bool)
      reads this
      ensures b <==> p in files
    {
      p in files
    }

    /** `Path.read_bytes`: the contents, or FileNotFoundError. */
    method ReadBytes(p: Path) returns (r: Result<FileContent, Error>)
      ensures r.Ok? <==> p in files
      ensures r.Ok? ==> r.value == files[p].content
      ensures r.Err? ==> r.error == FileNotFound(p)
    {
      if p in files {
        r := Ok(files[p].content);
      } else {
        r := Err(FileNotFound(p));
      }
    }

    /** `Path.write_bytes`. */
    method WriteBytes(p: Path, c: FileContent)
      modifies this
      ensures files == Written(old(files), creationMode, p, c)
    {
      var mode := if p in files then files[p].mode else creationMode;
      files := files[p := FileEntry(c, mode)];
    }

    /** `os.chmod` on a file that exists. */
    method Chmod(p: Path, mode: nat)
      requires p in files
      modifies this
      ensures files == Chmodded(old(files), p, mode)
    {
      files := files[p := FileEntry(files[p].content, mode)];
    }
  }
}
